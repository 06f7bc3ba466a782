/**
 The order of the ReadyForQuery messages on the client stream: under every interleaving
 of the two pumps, exactly when they stand in the order of the requests they answer.
 */
module Ordering {
  import opened Wire
  import opened Policies
  import opened Machine
  import opened FilterLaws
  import opened DenialLaws
  import opened Relay
  import opened RelayLaws
  import opened Tearing
  import opened Answering

  /** Who answers a request, or sent an answer. */
  datatype By = ByBackend | ByProxy

  // ---- Sequences that differ in their end ----

  function Count(bs: seq<By>, b: By): nat {
    if bs == [] then 0 else Count(bs[..|bs| - 1], b) + One(bs[|bs| - 1] == b)
  }

  /** What is left when the backend's answers at the end are dropped. */
  function Strip(bs: seq<By>): seq<By> {
    if bs == [] then [] else if bs[|bs| - 1] == ByBackend then Strip(bs[..|bs| - 1]) else bs
  }

  /** n answers by b. */
  function Times(n: nat, b: By): (bs: seq<By>)
    ensures |bs| == n
  {
    if n == 0 then [] else Times(n - 1, b) + [b]
  }

  lemma CountSnoc(bs: seq<By>, x: By, b: By)
    ensures Count(bs + [x], b) == Count(bs, b) + One(x == b)
  {
    assert (bs + [x])[..|bs|] == bs;
  }

  lemma {:induction false} CountAppend(a: seq<By>, c: seq<By>, b: By)
    ensures Count(a + c, b) == Count(a, b) + Count(c, b)
    decreases |c|
  {
    hide Count, One;
    if c == [] {
      assert a + c == a;
      CountNone(b);
    } else {
      var d, x := c[..|c| - 1], c[|c| - 1];
      assert c == d + [x] && a + c == (a + d) + [x];
      CountAppend(a, d, b);
      CountSnoc(a + d, x, b);
      CountSnoc(d, x, b);
    }
  }

  lemma CountNone(b: By)
    ensures Count([], b) == 0
  {
  }

  lemma {:induction false} CountTimes(n: nat, x: By, b: By)
    ensures Count(Times(n, x), b) == if x == b then n else 0
  {
    hide Count;
    CountNone(b);
    if n > 0 {
      CountTimes(n - 1, x, b);
      CountSnoc(Times(n - 1, x), x, b);
    }
  }

  /** Without an answer of the proxy a sequence is the backend's answers. */
  lemma {:induction false} OnlyBackend(bs: seq<By>)
    requires Count(bs, ByProxy) == 0
    ensures bs == Times(Count(bs, ByBackend), ByBackend)
    decreases |bs|
  {
    if bs != [] {
      OnlyBackend(bs[..|bs| - 1]);
      assert bs == bs[..|bs| - 1] + [bs[|bs| - 1]];
    }
  }

  /** Strip drops answers of the backend only, and what it leaves ends in one of the proxy. */
  lemma {:induction false} StripSplits(bs: seq<By>) returns (n: nat)
    ensures bs == Strip(bs) + Times(n, ByBackend)
    ensures Strip(bs) != [] ==> Strip(bs)[|Strip(bs)| - 1] == ByProxy
    ensures Count(Strip(bs), ByProxy) == Count(bs, ByProxy) && Count(bs, ByBackend) == Count(Strip(bs), ByBackend) + n
    decreases |bs|
  {
    hide *;
    if bs == [] {
      n := 0;
      NothingStripped();
    } else {
      var front, last := bs[..|bs| - 1], bs[|bs| - 1];
      assert bs == front + [last];
      StripSnoc(front);
      TimesSnoc(0);
      if last == ByProxy {
        n := 0;
        assert bs + [] == bs;
      } else {
        var k := StripSplits(front);
        n := k + 1;
        BackendMore(front);
        TimesSnoc(k);
        assert Strip(front) + Times(k, ByBackend) + [ByBackend] == Strip(front) + (Times(k, ByBackend) + [ByBackend]);
      }
    }
  }

  lemma NothingStripped()
    ensures Strip([]) == [] && Times(0, ByBackend) == [] && Count([], ByBackend) == 0 && [] + [] == Strip([])
  {
  }

  lemma TimesSnoc(k: nat)
    ensures Times(k + 1, ByBackend) == Times(k, ByBackend) + [ByBackend] && Times(0, ByBackend) == []
  {
  }

  lemma BackendMore(bs: seq<By>)
    ensures Count(bs + [ByBackend], ByProxy) == Count(bs, ByProxy)
    ensures Count(bs + [ByBackend], ByBackend) == Count(bs, ByBackend) + 1
  {
    hide Count;
    CountSnoc(bs, ByBackend, ByProxy);
    CountSnoc(bs, ByBackend, ByBackend);
  }

  lemma StripSnoc(bs: seq<By>)
    ensures Strip(bs + [ByBackend]) == Strip(bs) && Strip(bs + [ByProxy]) == bs + [ByProxy]
  {
    assert (bs + [ByBackend])[..|bs|] == bs;
  }

  /** A sequence that ends in an answer of the proxy and goes beyond t has more of them. */
  lemma LongerHasMore(s: seq<By>, t: seq<By>)
    requires t < s && s[|s| - 1] == ByProxy
    ensures Count(s, ByProxy) > Count(t, ByProxy)
  {
    hide Count, One;
    var front := s[..|s| - 1];
    assert s == front + [ByProxy] && front == t + front[|t|..];
    CountSnoc(front, ByProxy, ByProxy);
    CountAppend(t, front[|t|..], ByProxy);
    OneIsOne();
  }

  lemma OneIsOne()
    ensures One(true) == 1 && One(false) == 0
  {
  }

  /** More requests change nothing for the answers of the proxy. */
  lemma StripGrows(s: seq<By>, t: seq<By>, x: seq<By>)
    requires Count(s, ByProxy) <= Count(t, ByProxy)
    ensures Strip(s) <= t <==> Strip(s) <= t + x
  {
    hide Count, Strip, Times;
    var n := StripSplits(s);
    assert t <= t + x;
    if Strip(s) <= t + x && !(Strip(s) <= t) {
      assert Strip(s)[..|t|] == (t + x)[..|t|] == t;
      LongerHasMore(Strip(s), t);
    }
  }

  /** With as many answers of the proxy, s is a prefix of t if and only if it is but for its end and no longer. */
  lemma StripEnds(s: seq<By>, t: seq<By>)
    requires Count(s, ByProxy) == Count(t, ByProxy)
    ensures Count(s, ByBackend) <= Count(t, ByBackend) ==> (s <= t <==> Strip(s) <= t)
    ensures Count(s, ByBackend) == Count(t, ByBackend) ==> (s == t <==> Strip(s) <= t)
  {
    hide Count, Strip, Times;
    var n := StripSplits(s);
    assert Strip(s) <= s;
    if Strip(s) <= t {
      var rest := t[|Strip(s)|..];
      assert t == Strip(s) + rest;
      CountAppend(Strip(s), rest, ByProxy);
      CountAppend(Strip(s), rest, ByBackend);
      OnlyBackend(rest);
      if Count(s, ByBackend) <= Count(t, ByBackend) {
        TimesPrefix(n, Count(rest, ByBackend), ByBackend);
      }
    }
  }

  lemma {:induction false} TimesPrefix(n: nat, k: nat, b: By)
    requires n <= k
    ensures Times(n, b) <= Times(k, b)
    decreases k
  {
    if n < k {
      TimesPrefix(n, k - 1, b);
    }
  }

  /** One answer of the proxy more on both sides. */
  lemma StripTurn(s: seq<By>, t: seq<By>)
    requires Count(s, ByProxy) == Count(t, ByProxy)
    ensures s + [ByProxy] <= t + [ByProxy] <==> Strip(s) <= t && Count(s, ByBackend) == Count(t, ByBackend)
  {
    hide Count, Strip;
    StripEnds(s, t);
    if s + [ByProxy] <= t + [ByProxy] {
      assert (s + [ByProxy])[..|s|] == s;
      if |s| < |t| {
        assert s + [ByProxy] == (t + [ByProxy])[..|s| + 1] == t[..|s| + 1];
        var rest := t[|s| + 1..];
        assert t == (s + [ByProxy]) + rest;
        CountAppend(s + [ByProxy], rest, ByProxy);
        CountSnoc(s, ByProxy, ByProxy);
        assert false;
      } else {
        assert s == t;
      }
    }
  }

  // ---- Requests and answers ----

  /** Who answers a message, if it is owed an answer. */
  function Turn(e: Effect): seq<By> {
    Times(CountKind(e.reply, 'Z'), ByProxy) + Times(CountAnswered(e.up), ByBackend)
  }

  /**
   The ReadyForQuery messages the client is owed, in the order of its requests and behind
   the opening ones: the backend answers what is forwarded to it, and the proxy the rest.
   */
  function Owed(cfg: Config, opening: nat, ins: seq<Input>): seq<By> {
    if ins == [] then Times(opening, ByBackend)
    else
      var front, i := ins[..|ins| - 1], ins[|ins| - 1];
      Owed(cfg, opening, front) + Turn(Step(cfg, Run(cfg, IDLE, front).st, i.m, i.tx))
  }

  function SentBy(i: Item): seq<By> {
    match i
    case FromBackend(m) => Times(One(m.kind == 'Z'), ByBackend)
    case Synthesized(group) => Times(CountKind(group, 'Z'), ByProxy)
    case Torn(_) => []
  }

  /** The ReadyForQuery messages on the client stream, in order. */
  function Sent(log: seq<Item>): seq<By> {
    if log == [] then [] else Sent(log[..|log| - 1]) + SentBy(log[|log| - 1])
  }

  lemma OwedSnoc(cfg: Config, opening: nat, ins: seq<Input>, i: Input)
    ensures Owed(cfg, opening, ins + [i]) ==
            Owed(cfg, opening, ins) + Turn(Step(cfg, Run(cfg, IDLE, ins).st, i.m, i.tx))
  {
    hide Step, Run, Turn;
    assert (ins + [i])[..|ins|] == ins;
  }

  lemma SentSnoc(log: seq<Item>, i: Item)
    ensures Sent(log + [i]) == Sent(log) + SentBy(i)
  {
    hide SentBy;
    assert (log + [i])[..|log|] == log;
  }

  lemma CountTurn(e: Effect)
    ensures Count(Turn(e), ByProxy) == CountKind(e.reply, 'Z') && Count(Turn(e), ByBackend) == CountAnswered(e.up)
    ensures |Turn(e)| == CountKind(e.reply, 'Z') + CountAnswered(e.up)
  {
    hide Count, Times, CountKind, CountAnswered;
    var p, b := Times(CountKind(e.reply, 'Z'), ByProxy), Times(CountAnswered(e.up), ByBackend);
    CountAppend(p, b, ByProxy);
    CountAppend(p, b, ByBackend);
    CountTimes(CountKind(e.reply, 'Z'), ByProxy, ByProxy);
    CountTimes(CountKind(e.reply, 'Z'), ByProxy, ByBackend);
    CountTimes(CountAnswered(e.up), ByBackend, ByProxy);
    CountTimes(CountAnswered(e.up), ByBackend, ByBackend);
  }

  /** What is owed is the opening and one answer for each request, by the backend for each that is forwarded. */
  lemma {:induction false} OwedIsCounted(cfg: Config, opening: nat, ins: seq<Input>)
    ensures var t := Run(cfg, IDLE, ins);
            var owed := Owed(cfg, opening, ins);
            && |owed| == opening + CountOwed(cfg, ins)
            && Count(owed, ByBackend) == opening + CountAnswered(t.up)
            && Count(owed, ByProxy) == CountWritten(t.replies, 'Z')
    decreases |ins|
  {
    hide *;
    if ins == [] {
      NothingOwed(cfg, opening);
    } else {
      var front, i := ins[..|ins| - 1], ins[|ins| - 1];
      assert ins == front + [i];
      var t := Run(cfg, IDLE, front);
      var e := Step(cfg, t.st, i.m, i.tx);
      OwedIsCounted(cfg, opening, front);
      OwedSnoc(cfg, opening, front, i);
      CountTurn(e);
      CountAppend(Owed(cfg, opening, front), Turn(e), ByBackend);
      CountAppend(Owed(cfg, opening, front), Turn(e), ByProxy);
      RunShape(cfg, front);
      StepAnswers(cfg, t.st, i.m, i.tx);
      CountsSnoc(cfg, front, i);
      RunSnoc(cfg, IDLE, front, i);
      ExtendCounts(t, e);
    }
  }

  lemma NothingOwed(cfg: Config, opening: nat)
    ensures Owed(cfg, opening, []) == Times(opening, ByBackend) && CountOwed(cfg, []) == 0
    ensures Count(Owed(cfg, opening, []), ByBackend) == opening && Count(Owed(cfg, opening, []), ByProxy) == 0
    ensures CountAnswered(Run(cfg, IDLE, []).up) == 0 && CountWritten(Run(cfg, IDLE, []).replies, 'Z') == 0
  {
    hide Count, Times;
    CountTimes(opening, ByBackend, ByBackend);
    CountTimes(opening, ByBackend, ByProxy);
  }

  lemma ExtendCounts(t: Trace, e: Effect)
    ensures CountAnswered(Extend(t, e).up) == CountAnswered(t.up) + CountAnswered(e.up)
    ensures CountWritten(Extend(t, e).replies, 'Z') == CountWritten(t.replies, 'Z') + CountKind(e.reply, 'Z')
  {
    hide CountAnswered, CountWritten, CountKind, Written;
    CountAnsweredAppend(t.up, e.up);
    CountWrittenExtend(t.replies, e.reply, 'Z');
  }

  /** What is sent is every ReadyForQuery on the client stream, the backend's and the proxy's. */
  lemma {:induction false} SentIsCounted(log: seq<Item>)
    ensures |Sent(log)| == CountKind(LogMessages(log), 'Z')
    ensures Count(Sent(log), ByBackend) == CountKind(BackendMessages(log), 'Z')
    ensures Count(Sent(log), ByProxy) == CountWritten(LogGroups(log), 'Z')
    decreases |log|
  {
    hide *;
    LogCounts(log, 'Z');
    if log == [] {
      NothingSent();
    } else {
      var front, i := log[..|log| - 1], log[|log| - 1];
      assert log == front + [i];
      SentIsCounted(front);
      SentSnoc(front, i);
      LogCounts(front, 'Z');
      ItemCounts(front, i);
      CountAppend(Sent(front), SentBy(i), ByBackend);
      CountAppend(Sent(front), SentBy(i), ByProxy);
    }
  }

  lemma NothingSent()
    ensures Sent([]) == [] && Count([], ByBackend) == Count([], ByProxy) == 0
    ensures CountKind(BackendMessages([]), 'Z') == 0 && CountWritten(LogGroups([]), 'Z') == 0
  {
  }

  lemma ItemCounts(log: seq<Item>, i: Item)
    ensures CountKind(BackendMessages(log + [i]), 'Z') == CountKind(BackendMessages(log), 'Z') + Count(SentBy(i), ByBackend)
    ensures CountWritten(LogGroups(log + [i]), 'Z') == CountWritten(LogGroups(log), 'Z') + Count(SentBy(i), ByProxy)
    ensures |SentBy(i)| == Count(SentBy(i), ByBackend) + Count(SentBy(i), ByProxy)
  {
    hide CountKind, CountWritten, Count, Times, One;
    assert (log + [i])[..|log|] == log;
    assert BackendMessages(log) + [] == BackendMessages(log) && LogGroups(log) + [] == LogGroups(log);
    CountNone(ByBackend);
    CountNone(ByProxy);
    match i
    case FromBackend(m) =>
      CountKindAppend(BackendMessages(log), [m], 'Z');
      CountOne(m);
      CountTimes(One(m.kind == 'Z'), ByBackend, ByBackend);
      CountTimes(One(m.kind == 'Z'), ByBackend, ByProxy);
    case Synthesized(group) =>
      CountWrittenSnoc(LogGroups(log), group, 'Z');
      CountTimes(CountKind(group, 'Z'), ByProxy, ByBackend);
      CountTimes(CountKind(group, 'Z'), ByProxy, ByProxy);
    case Torn(_) =>
  }

  // ---- Taking turns ----

  /** A reply that is not written yet answers the last message that was handled. */
  ghost predicate PendingIsLast(cfg: Config, s: Sys) {
    !s.cp.Reading? ==>
      && s.ins != []
      && var front, i := s.ins[..|s.ins| - 1], s.ins[|s.ins| - 1];
      s.cp.group == Step(cfg, Run(cfg, IDLE, front).st, i.m, i.tx).reply
  }

  /** Moves that put nothing on record. */
  predicate IsQuietMove(mv: Move) {
    mv != ClientHandle && mv != ClientUnlock && mv != BackendUnlock && mv != BackendBreak
  }

  lemma QuietMove(cfg: Config, s: Sys, mv: Move)
    requires IsQuietMove(mv)
    ensures var t := Do(cfg, s, mv);
            && t.log == s.log && t.ins == s.ins
            && (t.cp.Reading? <==> s.cp.Reading?) && (!s.cp.Reading? ==> t.cp.group == s.cp.group)
  {
    hide Step, Extend, GroupBytes, ReadHeader;
  }

  lemma BackendFinishes(cfg: Config, s: Sys, mv: Move)
    requires mv == BackendUnlock || mv == BackendBreak
    ensures var t := Do(cfg, s, mv);
            && t.cp == s.cp && t.ins == s.ins
            && (t.log == s.log || exists i: Item :: !i.Synthesized? && t.log == s.log + [i])
  {
    hide Step, Extend, GroupBytes, ReadHeader;
  }

  lemma ClientFinishes(cfg: Config, s: Sys)
    ensures var t := Do(cfg, s, ClientUnlock);
            && t.ins == s.ins
            && (if s.cp.Writing? && s.cp.sent == |GroupBytes(s.cp.group)| then t.cp.Reading? && t.log == s.log + [Synthesized(s.cp.group)]
                else t == s)
  {
    hide Step, Extend, GroupBytes, ReadHeader;
  }

  lemma HandlePends(cfg: Config, client: seq<Message>, s: Sys)
    requires ClientInv(cfg, client, s) && PendingIsLast(cfg, s)
    ensures PendingIsLast(cfg, Do(cfg, s, ClientHandle))
  {
    hide Step, Run, Extend, LogGroups, Truthful, Messages;
    if s.cp.Reading? && s.client != [] {
      var i := Input(s.client[0], s.tx);
      assert (s.ins + [i])[..|s.ins|] == s.ins;
    }
  }

  lemma {:induction false} SchedulePends(cfg: Config, backend: Bytes, client: seq<Message>, moves: seq<Move>)
    ensures PendingIsLast(cfg, Schedule(cfg, Start(backend, client), moves))
    decreases |moves|
  {
    hide Do, Step, Run, ClientInv, GroupBytes;
    if moves != [] {
      var front, mv := moves[..|moves| - 1], moves[|moves| - 1];
      var s := Schedule(cfg, Start(backend, client), front);
      SchedulePends(cfg, backend, client, front);
      ScheduleClient(cfg, backend, client, front);
      if IsQuietMove(mv) {
        QuietMove(cfg, s, mv);
      } else if mv == ClientHandle {
        hide PendingIsLast;
        HandlePends(cfg, client, s);
      } else if mv == ClientUnlock {
        ClientFinishes(cfg, s);
      } else {
        BackendFinishes(cfg, s, mv);
      }
    }
  }

  /** The client pump finishes a reply with a ReadyForQuery. */
  predicate FinishesReady(s: Sys, mv: Move) {
    mv == ClientUnlock && s.cp.Writing? && s.cp.sent == |GroupBytes(s.cp.group)| && CountKind(s.cp.group, 'Z') > 0
  }

  /** The opening and everything forwarded have been answered, and the answers are on the client stream. */
  predicate AllRelayed(opening: nat, s: Sys) {
    CountKind(BackendMessages(s.log), 'Z') == opening + CountAnswered(s.filter.up)
  }

  /** The proxy writes a ReadyForQuery only when all before it have been relayed. */
  ghost predicate TakesTurns(cfg: Config, opening: nat, start: Sys, moves: seq<Move>) {
    if moves == [] then true
    else
      var front, mv := moves[..|moves| - 1], moves[|moves| - 1];
      var s := Schedule(cfg, start, front);
      TakesTurns(cfg, opening, start, front) && (FinishesReady(s, mv) ==> AllRelayed(opening, s))
  }

  /** But for the backend's last answers, what was sent is in the order of what is owed. */
  predicate Aligned(cfg: Config, opening: nat, s: Sys) {
    Strip(Sent(s.log)) <= Owed(cfg, opening, s.ins)
  }

  /** Of the answers owed by the proxy, those not sent yet are those of the pending reply. */
  lemma ProxyCounts(cfg: Config, opening: nat, client: seq<Message>, s: Sys)
    requires ClientInv(cfg, client, s)
    ensures Count(Owed(cfg, opening, s.ins), ByProxy) == Count(Sent(s.log), ByProxy) + CountWritten(PendingGroup(s.cp), 'Z')
    ensures Count(Owed(cfg, opening, s.ins), ByBackend) == opening + CountAnswered(s.filter.up)
    ensures Count(Sent(s.log), ByBackend) == CountKind(BackendMessages(s.log), 'Z')
  {
    hide Count, Owed, Sent, CountWritten, CountKind, CountAnswered, CountOwed, LogGroups, PendingGroup, Run, BackendMessages, LogMessages,
      Truthful, Messages;
    OwedIsCounted(cfg, opening, s.ins);
    SentIsCounted(s.log);
    PendingCounts(LogGroups(s.log), s.cp, 'Z');
  }

  lemma HandleAligned(cfg: Config, opening: nat, client: seq<Message>, s: Sys)
    requires ClientInv(cfg, client, s)
    ensures Aligned(cfg, opening, Do(cfg, s, ClientHandle)) <==> Aligned(cfg, opening, s)
  {
    ProxyCounts(cfg, opening, client, s);
    hide Step, Run, Extend, LogGroups, Truthful, Messages, Count, Owed, Sent, Strip, Turn, CountWritten;
    if s.cp.Reading? && s.client != [] {
      var i := Input(s.client[0], s.tx);
      OwedSnoc(cfg, opening, s.ins, i);
      StripGrows(Sent(s.log), Owed(cfg, opening, s.ins), Turn(Step(cfg, s.filter.st, i.m, i.tx)));
    }
  }

  lemma BackendAligned(cfg: Config, opening: nat, s: Sys, t: Sys)
    requires t.ins == s.ins && (t.log == s.log || exists i: Item :: !i.Synthesized? && t.log == s.log + [i])
    ensures Aligned(cfg, opening, t) <==> Aligned(cfg, opening, s)
  {
    hide Owed, Sent, Strip, One;
    if t.log != s.log {
      var i: Item :| !i.Synthesized? && t.log == s.log + [i];
      SentSnoc(s.log, i);
      OneIsOne();
      StripSnoc(Sent(s.log));
      assert Sent(s.log) + [] == Sent(s.log);
      assert Times(0, ByBackend) == [] && Times(1, ByBackend) == [ByBackend];
    }
  }

  /** The last message was answered by the pending reply, with at most one ReadyForQuery. */
  lemma PendingTurn(cfg: Config, opening: nat, client: seq<Message>, s: Sys)
    requires ClientInv(cfg, client, s) && PendingIsLast(cfg, s) && !s.cp.Reading?
    requires CountKind(s.cp.group, 'Z') > 0
    ensures s.ins != [] && CountKind(s.cp.group, 'Z') == 1
    ensures Owed(cfg, opening, s.ins) == Owed(cfg, opening, s.ins[..|s.ins| - 1]) + [ByProxy]
  {
    hide *;
    LastAnswer(cfg, s);
    var front, i := s.ins[..|s.ins| - 1], s.ins[|s.ins| - 1];
    var t := Run(cfg, IDLE, front);
    var e := Step(cfg, t.st, i.m, i.tx);
    assert s.ins == front + [i];
    RunShape(cfg, front);
    StepAnswers(cfg, t.st, i.m, i.tx);
    OneAtMost(IsOwed(t.st, i.m));
    OwedSnoc(cfg, opening, front, i);
    ProxyTurn(e);
  }

  lemma LastAnswer(cfg: Config, s: Sys)
    requires PendingIsLast(cfg, s) && !s.cp.Reading?
    ensures s.ins != []
    ensures var front, i := s.ins[..|s.ins| - 1], s.ins[|s.ins| - 1];
            s.cp.group == Step(cfg, Run(cfg, IDLE, front).st, i.m, i.tx).reply
  {
    hide Step, Run;
  }

  lemma OneAtMost(b: bool)
    ensures One(b) <= 1
  {
  }

  lemma ProxyTurn(e: Effect)
    requires CountKind(e.reply, 'Z') == 1 && CountAnswered(e.up) == 0
    ensures Turn(e) == [ByProxy]
  {
    hide CountKind, CountAnswered;
    assert Times(1, ByProxy) == [ByProxy] && Times(0, ByBackend) == [] && [ByProxy] + [] == [ByProxy];
  }

  lemma FinishAligned(cfg: Config, opening: nat, client: seq<Message>, s: Sys, t: Sys)
    requires ClientInv(cfg, client, s) && PendingIsLast(cfg, s) && !s.cp.Reading?
    requires t.ins == s.ins && t.log == s.log + [Synthesized(s.cp.group)]
    ensures CountKind(s.cp.group, 'Z') == 0 ==> (Aligned(cfg, opening, t) <==> Aligned(cfg, opening, s))
    ensures CountKind(s.cp.group, 'Z') > 0 ==> (Aligned(cfg, opening, t) <==> Aligned(cfg, opening, s) && AllRelayed(opening, s))
  {
    hide *;
    ProxyCounts(cfg, opening, client, s);
    GroupCounts(s.cp);
    SentSnoc(s.log, Synthesized(s.cp.group));
    AlignedMeans(cfg, opening, s);
    AlignedMeans(cfg, opening, t);
    RelayedMeans(opening, s);
    var sent := Sent(s.log);
    var z := CountKind(s.cp.group, 'Z');
    GroupTurn(s.cp.group);
    if z == 0 {
      assert sent + [] == sent;
    } else {
      PendingTurn(cfg, opening, client, s);
      var owed := Owed(cfg, opening, s.ins[..|s.ins| - 1]);
      OneMore(owed);
      StripTurn(sent, owed);
      StripSnoc(sent);
      StripGrows(sent, owed, [ByProxy]);
    }
  }

  lemma AlignedMeans(cfg: Config, opening: nat, s: Sys)
    ensures Aligned(cfg, opening, s) <==> Strip(Sent(s.log)) <= Owed(cfg, opening, s.ins)
  {
  }

  lemma RelayedMeans(opening: nat, s: Sys)
    ensures AllRelayed(opening, s) <==> CountKind(BackendMessages(s.log), 'Z') == opening + CountAnswered(s.filter.up)
  {
  }

  lemma GroupTurn(group: seq<Message>)
    ensures CountKind(group, 'Z') == 0 ==> SentBy(Synthesized(group)) == []
    ensures CountKind(group, 'Z') == 1 ==> SentBy(Synthesized(group)) == [ByProxy]
  {
    hide CountKind;
    assert Times(0, ByProxy) == [] && Times(1, ByProxy) == [ByProxy];
  }

  lemma OneMore(bs: seq<By>)
    ensures Count(bs + [ByProxy], ByProxy) == Count(bs, ByProxy) + 1 && Count(bs + [ByProxy], ByBackend) == Count(bs, ByBackend)
  {
    hide Count;
    CountSnoc(bs, ByProxy, ByProxy);
    CountSnoc(bs, ByProxy, ByBackend);
  }

  lemma GroupCounts(cp: ClientPump)
    ensures CountWritten(PendingGroup(cp), 'Z') == if cp.Reading? then 0 else CountKind(cp.group, 'Z')
  {
    hide CountKind;
    if !cp.Reading? {
      assert [cp.group][..0] == [];
    }
  }

  lemma DoAligned(cfg: Config, opening: nat, client: seq<Message>, s: Sys, mv: Move)
    requires ClientInv(cfg, client, s) && PendingIsLast(cfg, s)
    ensures Aligned(cfg, opening, Do(cfg, s, mv)) <==> Aligned(cfg, opening, s) && (FinishesReady(s, mv) ==> AllRelayed(opening, s))
  {
    hide Do, Owed, Sent, Strip, ClientInv, PendingIsLast, CountKind, AllRelayed, GroupBytes;
    var t := Do(cfg, s, mv);
    if IsQuietMove(mv) {
      QuietMove(cfg, s, mv);
    } else if mv == ClientHandle {
      HandleAligned(cfg, opening, client, s);
    } else if mv == ClientUnlock {
      ClientFinishes(cfg, s);
      if s.cp.Writing? && s.cp.sent == |GroupBytes(s.cp.group)| {
        FinishAligned(cfg, opening, client, s, t);
      }
    } else {
      BackendFinishes(cfg, s, mv);
      BackendAligned(cfg, opening, s, t);
    }
  }

  lemma {:induction false} ScheduleAligned(cfg: Config, opening: nat, backend: Bytes, client: seq<Message>, moves: seq<Move>)
    ensures Aligned(cfg, opening, Schedule(cfg, Start(backend, client), moves)) <==>
            TakesTurns(cfg, opening, Start(backend, client), moves)
    decreases |moves|
  {
    hide Do, Aligned, FinishesReady, AllRelayed, ClientInv, PendingIsLast;
    if moves == [] {
      StartAligned(cfg, opening, backend, client);
    } else {
      var front, mv := moves[..|moves| - 1], moves[|moves| - 1];
      ScheduleAligned(cfg, opening, backend, client, front);
      ScheduleClient(cfg, backend, client, front);
      SchedulePends(cfg, backend, client, front);
      DoAligned(cfg, opening, client, Schedule(cfg, Start(backend, client), front), mv);
    }
  }

  lemma StartAligned(cfg: Config, opening: nat, backend: Bytes, client: seq<Message>)
    ensures Aligned(cfg, opening, Start(backend, client))
  {
    hide Owed;
  }

  /** Aligned is in order, for a backend that answers nothing before it is asked. */
  lemma AlignedIsOrdered(cfg: Config, opening: nat, client: seq<Message>, s: Sys)
    requires ClientInv(cfg, client, s) && PendingIsLast(cfg, s)
    requires CountKind(BackendMessages(s.log), 'Z') <= opening + CountAnswered(s.filter.up)
    ensures Sent(s.log) <= Owed(cfg, opening, s.ins) <==> Aligned(cfg, opening, s)
  {
    hide *;
    ProxyCounts(cfg, opening, client, s);
    GroupCounts(s.cp);
    AlignedMeans(cfg, opening, s);
    var sent := Sent(s.log);
    if !s.cp.Reading? && CountKind(s.cp.group, 'Z') > 0 {
      PendingTurn(cfg, opening, client, s);
      var owed := Owed(cfg, opening, s.ins[..|s.ins| - 1]);
      OneMore(owed);
      StripEnds(sent, owed);
      StripGrows(sent, owed, [ByProxy]);
      assert owed <= owed + [ByProxy];
      assert sent != owed + [ByProxy];
      assert sent <= owed + [ByProxy] ==> sent <= owed;
    } else {
      StripEnds(sent, Owed(cfg, opening, s.ins));
    }
  }

  /**
   For a backend that sends its opening ReadyForQuery messages and then answers each
   forwarded request once, in order and none before it is sent: the k-th ReadyForQuery on
   the client stream answers, for every k, the k-th of the opening and the requests the
   client is owed an answer for, if and only if the proxy finished each of its own only
   when the opening and all that had been forwarded were answered and relayed.
   */
  lemma AnswersInTurnExactly(cfg: Config, opening: nat, backend: Bytes, client: seq<Message>, moves: seq<Move>)
    requires var s := Schedule(cfg, Start(backend, client), moves);
             CountKind(BackendMessages(s.log), 'Z') <= opening + CountAnswered(s.filter.up)
    ensures var s := Schedule(cfg, Start(backend, client), moves);
            Sent(s.log) <= Owed(cfg, opening, s.ins) <==> TakesTurns(cfg, opening, Start(backend, client), moves)
  {
    hide Schedule, Owed, Sent, ClientInv, PendingIsLast, Aligned, CountKind, CountAnswered, BackendMessages, TakesTurns;
    ScheduleAligned(cfg, opening, backend, client, moves);
    ScheduleClient(cfg, backend, client, moves);
    SchedulePends(cfg, backend, client, moves);
    AlignedIsOrdered(cfg, opening, client, Schedule(cfg, Start(backend, client), moves));
  }

  // ---- An answer out of turn ----

  lemma RefusedAlone(cfg: Config, refused: Message, tx: Byte)
    requires Enforces(cfg.pol) && (refused.kind == 'Q' || refused.kind == 'F') && Refusal(cfg.pol, refused).Some?
    ensures var g := [Refusal(cfg.pol, refused).value, Ready(tx)];
            Step(cfg, IDLE, refused, tx) == Effect(IDLE, [], g) && CountKind(g, 'Z') == 1
  {
    hide ErrorFor, Evaluate, QueryText, ParseQueryText, CountKind, ReadyStatus;
    RefusalIsError(cfg.pol, refused);
    CountPair(Refusal(cfg.pol, refused).value, Ready(tx));
  }

  lemma NothingForwarded(cfg: Config, i: Input)
    ensures ForwardedBefore(cfg, [i], 0) == 0
  {
    assert [i][..0] == [];
  }

  lemma OpeningFirst(cfg: Config, i: Input)
    ensures !([ByProxy] <= Owed(cfg, 1, [i]))
  {
    hide Step, Run, Turn;
    assert [i][..0] == [];
    assert Owed(cfg, 1, []) == Times(1, ByBackend) == [ByBackend];
    assert Owed(cfg, 1, [i])[0] == ByBackend;
  }

  function OvertakeMoves(group: seq<Message>): seq<Move> {
    [BackendFrame] + [ClientHandle] + ReplyMoves(group)
  }

  /**
   The status is recorded before its message is written: a refusal that reports the
   current status can still reach the client before the ReadyForQuery it was read from.
   */
  lemma RefusalOvertakes(cfg: Config, status: Byte, rest: Bytes, refused: Message)
    requires Enforces(cfg.pol) && (refused.kind == 'Q' || refused.kind == 'F') && Refusal(cfg.pol, refused).Some?
    ensures ValidMessage(ReadyForQuery(status))
    ensures var g := [Refusal(cfg.pol, refused).value, Ready(status)];
            var s := Schedule(cfg, Start(Encode(ReadyForQuery(status)) + rest, [refused]), OvertakeMoves(g));
            && s.log == [Synthesized(g)] && s.ins == [Input(refused, status)]
            && IsCurrent(ReadyStatus(status), Recorded(s, 0), 1 + ForwardedBefore(cfg, s.ins, 0))
            && !(Sent(s.log) <= Owed(cfg, 1, s.ins))
  {
    hide Refusal, Ready, Step, Schedule, Encode, Do, ReadyForQuery, ValidMessage, ForwardedBefore, Owed, Sent, CountKind, IsCurrent,
      ReadyStatus, ReplyMoves;
    ReadyIsValid(status);
    var g := [Refusal(cfg.pol, refused).value, Ready(status)];
    var s0 := Start(Encode(ReadyForQuery(status)) + rest, [refused]);
    RefusedAlone(cfg, refused, status);
    OpeningFramed(cfg, status, rest, [refused]);
    OneMove(cfg, s0, BackendFrame);
    var s1 := Do(cfg, s0, BackendFrame);
    ScheduleAppend(cfg, s0, [BackendFrame], [ClientHandle]);
    OneMove(cfg, s1, ClientHandle);
    HandleOnce(cfg, s1);
    var s2 := Do(cfg, s1, ClientHandle);
    ReplyWritten(cfg, s2);
    ScheduleAppend(cfg, s0, [BackendFrame] + [ClientHandle], ReplyMoves(g));
    NothingForwarded(cfg, Input(refused, status));
    assert [status][..1] == [status];
    CurrentExactly([status], 1);
    SentOne(g);
    OpeningFirst(cfg, Input(refused, status));
  }

  lemma SentOne(group: seq<Message>)
    requires CountKind(group, 'Z') == 1
    ensures Sent([Synthesized(group)]) == [ByProxy]
  {
    hide CountKind, SentBy;
    GroupTurn(group);
    SentSnoc([], Synthesized(group));
    assert [] + [Synthesized(group)] == [Synthesized(group)] && [] + [ByProxy] == [ByProxy];
  }
}
