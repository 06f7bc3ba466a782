/**
 What a denial does: how many answers the client gets over a whole run, and what
 reaches the backend of a batch that is denied.
 */
module DenialLaws {
  import opened Wire
  import opened Policies
  import opened Machine
  import opened FilterLaws
  import TwoPass

  // ---- Answers are conserved ----

  /** The kinds a backend answers with a ReadyForQuery. */
  predicate IsAnswered(k: Byte) {
    k == 'S' || k == 'Q' || k == 'F'
  }

  function One(b: bool): nat {
    if b then 1 else 0
  }

  function CountAnswered(ms: seq<Message>): nat {
    if ms == [] then 0 else CountAnswered(ms[..|ms| - 1]) + One(IsAnswered(ms[|ms| - 1].kind))
  }

  function CountKind(ms: seq<Message>, k: Byte): nat {
    if ms == [] then 0 else CountKind(ms[..|ms| - 1], k) + One(ms[|ms| - 1].kind == k)
  }

  /** The messages of one kind in all client writes. */
  function CountWritten(replies: seq<seq<Message>>, k: Byte): nat {
    if replies == [] then 0 else CountWritten(replies[..|replies| - 1], k) + CountKind(replies[|replies| - 1], k)
  }

  /** A message for which the client expects a ReadyForQuery of its own. */
  predicate IsOwed(st: State, m: Message) {
    m.kind == 'S' || (!st.skip && IsAnswered(m.kind))
  }

  /** A Sync that ends a denied batch by going upstream. */
  predicate IsRecovery(st: State, m: Message) {
    st.skip && m.kind == 'S' && st.released
  }

  function CountOwed(cfg: Config, ins: seq<Input>): nat {
    if ins == [] then 0
    else
      var front, m := ins[..|ins| - 1], ins[|ins| - 1].m;
      CountOwed(cfg, front) + One(IsOwed(Run(cfg, IDLE, front).st, m))
  }

  function CountRecoveries(cfg: Config, ins: seq<Input>): nat {
    if ins == [] then 0
    else
      var front, m := ins[..|ins| - 1], ins[|ins| - 1].m;
      CountRecoveries(cfg, front) + One(IsRecovery(Run(cfg, IDLE, front).st, m))
  }

  lemma {:induction false} CountAnsweredAppend(a: seq<Message>, b: seq<Message>)
    ensures CountAnswered(a + b) == CountAnswered(a) + CountAnswered(b)
    decreases |b|
  {
    if b == [] {
      assert a + b == a;
    } else {
      CountAnsweredAppend(a, b[..|b| - 1]);
      assert (a + b)[..|a + b| - 1] == a + b[..|b| - 1];
    }
  }

  lemma {:induction false} BatchIsNotAnswered(ms: seq<Message>)
    requires BatchOnly(ms)
    ensures CountAnswered(ms) == 0
    decreases |ms|
  {
    if ms != [] {
      assert ms[|ms| - 1] in ms;
      BatchIsNotAnswered(ms[..|ms| - 1]);
    }
  }

  lemma CountOne(m: Message)
    ensures CountAnswered([m]) == One(IsAnswered(m.kind))
    ensures forall k :: CountKind([m], k) == One(m.kind == k)
  {
    assert [m][..0] == [];
  }

  lemma CountPair(e: Message, z: Message)
    requires e.kind == 'E' && z.kind == 'Z'
    ensures CountKind([e, z], 'E') == 1 && CountKind([e, z], 'Z') == 1
  {
    assert [e, z][..1] == [e];
    CountOne(e);
  }

  lemma CountWrittenExtend(replies: seq<seq<Message>>, reply: seq<Message>, k: Byte)
    ensures CountWritten(replies + Written(reply), k) == CountWritten(replies, k) + CountKind(reply, k)
  {
    if reply == [] {
      assert replies + Written(reply) == replies;
    } else {
      assert (replies + [reply])[..|replies|] == replies;
    }
  }

  lemma CountSent(held: seq<Message>, m: Message)
    requires BatchOnly(held)
    ensures CountAnswered([]) == 0 && CountAnswered(held) == 0
    ensures CountAnswered([m]) == CountAnswered(held + [m]) == One(IsAnswered(m.kind))
  {
    CountOne(m);
    BatchIsNotAnswered(held);
    CountAnsweredAppend(held, [m]);
  }

  /** Nothing, an error, a ReadyForQuery, or both. */
  predicate IsAnswer(reply: seq<Message>, tx: Byte) {
    || reply == []
    || (|reply| == 1 && (reply[0].kind == 'E' || reply[0] == Ready(tx)))
    || (|reply| == 2 && reply[0].kind == 'E' && reply[1] == Ready(tx))
  }

  /** What a step writes to the client. */
  lemma StepReply(cfg: Config, st: State, m: Message, tx: Byte)
    ensures IsAnswer(Step(cfg, st, m, tx).reply, tx)
  {
    hide Refusal, Ready, ErrorFor, Fits, IsBatchKind, Enforces;
    RefusalIsError(cfg.pol, m);
  }

  lemma CountReply(reply: seq<Message>, tx: Byte)
    requires IsAnswer(reply, tx)
    ensures CountKind(reply, 'E') == One(reply != [] && reply[0].kind == 'E')
    ensures CountKind(reply, 'Z') == One(|reply| == 2 || (|reply| == 1 && reply[0].kind == 'Z'))
  {
    if |reply| == 1 {
      assert reply == [reply[0]];
      CountOne(reply[0]);
    } else if |reply| == 2 {
      assert reply == [reply[0], reply[1]];
      CountPair(reply[0], reply[1]);
    }
  }

  /** Who answers a message, and how the skipping goes on. */
  lemma StepSettles(cfg: Config, st: State, m: Message, tx: Byte)
    requires !Enforces(cfg.pol) ==> !st.skip
    ensures var e := Step(cfg, st, m, tx);
            var ready := |e.reply| == 2 || (|e.reply| == 1 && e.reply[0].kind == 'Z');
            var error := e.reply != [] && e.reply[0].kind == 'E';
            && (|| ((e.up == [] || e.up == st.held) && One(IsOwed(st, m)) == One(ready))
                || ((e.up == [m] || e.up == st.held + [m]) && One(IsOwed(st, m)) == One(IsAnswered(m.kind)) + One(ready)))
            && One(error) + One(st.skip) == One(ready) + One(IsRecovery(st, m)) + One(e.next.skip)
  {
    hide Refusal, Ready, ErrorFor, Fits;
    RefusalIsError(cfg.pol, m);
  }

  /** One message: it is answered by the backend or by the proxy, and never by both. */
  lemma StepAnswers(cfg: Config, st: State, m: Message, tx: Byte)
    requires BatchOnly(st.held) && (!Enforces(cfg.pol) ==> !st.skip)
    ensures var e := Step(cfg, st, m, tx);
            && One(IsOwed(st, m)) == CountAnswered(e.up) + CountKind(e.reply, 'Z')
            && CountKind(e.reply, 'E') + One(st.skip) ==
               CountKind(e.reply, 'Z') + One(IsRecovery(st, m)) + One(e.next.skip)
  {
    hide *;
    CountSent(st.held, m);
    StepReply(cfg, st, m, tx);
    CountReply(Step(cfg, st, m, tx).reply, tx);
    StepSettles(cfg, st, m, tx);
  }

  /** The shape every run keeps, whether or not the policy enforces. */
  lemma RunShape(cfg: Config, ins: seq<Input>)
    ensures var st := Run(cfg, IDLE, ins).st;
            BatchOnly(st.held) && (!Enforces(cfg.pol) ==> !st.skip)
  {
    if Enforces(cfg.pol) {
      ReleaseTracking(cfg, ins);
    } else {
      TransparentWithoutPolicy(cfg, ins);
    }
    hide Run, Unsynced, WireLen;
  }

  /** Everything owed was answered once, and every error was paid off or is the one of a batch being skipped. */
  ghost predicate Conserved(t: Trace, owed: nat, recoveries: nat) {
    && owed == CountAnswered(t.up) + CountWritten(t.replies, 'Z')
    && CountWritten(t.replies, 'E') == CountWritten(t.replies, 'Z') + recoveries + One(t.st.skip)
  }

  lemma ConservedStep(cfg: Config, t: Trace, owed: nat, recoveries: nat, i: Input)
    requires Conserved(t, owed, recoveries) && BatchOnly(t.st.held) && (!Enforces(cfg.pol) ==> !t.st.skip)
    ensures Conserved(Extend(t, Step(cfg, t.st, i.m, i.tx)), owed + One(IsOwed(t.st, i.m)), recoveries + One(IsRecovery(t.st, i.m)))
  {
    hide Step, Written, CountAnswered, CountWritten, CountKind, IsOwed, IsRecovery, BatchOnly, One, Enforces;
    var e := Step(cfg, t.st, i.m, i.tx);
    StepAnswers(cfg, t.st, i.m, i.tx);
    CountAnsweredAppend(t.up, e.up);
    CountWrittenExtend(t.replies, e.reply, 'E');
    CountWrittenExtend(t.replies, e.reply, 'Z');
  }

  lemma CountsSnoc(cfg: Config, ins: seq<Input>, i: Input)
    ensures var st := Run(cfg, IDLE, ins).st;
            && CountOwed(cfg, ins + [i]) == CountOwed(cfg, ins) + One(IsOwed(st, i.m))
            && CountRecoveries(cfg, ins + [i]) == CountRecoveries(cfg, ins) + One(IsRecovery(st, i.m))
  {
    hide Run, IsOwed, IsRecovery, One;
    assert (ins + [i])[..|ins|] == ins;
  }

  lemma NothingCounted(cfg: Config)
    ensures Conserved(Run(cfg, IDLE, []), CountOwed(cfg, []), CountRecoveries(cfg, []))
  {
  }

  lemma {:induction false} RunConserves(cfg: Config, ins: seq<Input>)
    ensures Conserved(Run(cfg, IDLE, ins), CountOwed(cfg, ins), CountRecoveries(cfg, ins))
    decreases |ins|
  {
    hide *;
    if ins == [] {
      NothingCounted(cfg);
    } else {
      var front, i := ins[..|ins| - 1], ins[|ins| - 1];
      assert ins == front + [i];
      RunConserves(cfg, front);
      RunShape(cfg, front);
      RunSnoc(cfg, IDLE, front, i);
      CountsSnoc(cfg, front, i);
      ConservedStep(cfg, Run(cfg, IDLE, front), CountOwed(cfg, front), CountRecoveries(cfg, front), i);
    }
  }

  /**
   Over every run: each Sync, and each Query and FunctionCall outside a skipped batch,
   is answered exactly once, by being forwarded or by a synthesized ReadyForQuery; and
   each synthesized error is paid off by a synthesized ReadyForQuery or by a forwarded
   Sync, except for the one of a batch that is still being skipped.
   */
  lemma AnswersConserved(cfg: Config, ins: seq<Input>)
    ensures var t := Run(cfg, IDLE, ins);
            && CountOwed(cfg, ins) == CountAnswered(t.up) + CountWritten(t.replies, 'Z')
            && CountWritten(t.replies, 'E') == CountWritten(t.replies, 'Z') + CountRecoveries(cfg, ins) + One(t.st.skip)
  {
    hide Run, CountOwed, CountRecoveries, CountAnswered, CountWritten;
    RunConserves(cfg, ins);
  }

  // ---- A denied batch ----

  /** A message that neither ends the open batch nor denies it. */
  predicate LeavesOpen(pol: Policy, m: Message) {
    && m.kind != 'S'
    && (m.kind == 'Q' ==> Refusal(pol, m).Some?)
    && (m.kind == 'P' ==> Refusal(pol, m).None?)
  }

  /** A batch opens with an extended-protocol message; anything that leaves it open may follow. */
  predicate IsOpenBatch(pol: Policy, batch: seq<Input>) {
    (batch != [] ==> IsExtended(batch[0].m.kind)) && forall i :: i in batch ==> LeavesOpen(pol, i.m)
  }

  /** The messages that are not refused. */
  function Passed(pol: Policy, ms: seq<Message>): seq<Message> {
    if ms == [] then []
    else
      var m := ms[|ms| - 1];
      Passed(pol, ms[..|ms| - 1]) + if Refusal(pol, m).None? then [m] else []
  }

  /** One pair of error and ReadyForQuery for each refused message. */
  function Answers(pol: Policy, ins: seq<Input>): seq<seq<Message>> {
    if ins == [] then []
    else
      var i := ins[|ins| - 1];
      var e := Refusal(pol, i.m);
      Answers(pol, ins[..|ins| - 1]) + if e.None? then [] else [[e.value, Ready(i.tx)]]
  }

  /** Nothing of an open batch has to go upstream: no Flush and no message that passes through, and it fits the budget. */
  predicate CanBeKept(cfg: Config, ms: seq<Message>) {
    && (forall m :: m in ms ==> (IsExtended(m.kind) && m.kind != 'H') || m.kind == 'F')
    && WireLen(Passed(cfg.pol, ms)) <= cfg.maxHeld
  }

  /**
   The trace of an open batch: sent and held are all that was not refused, and the batch
   is released, by a first message sent, exactly when it cannot be kept.
   */
  ghost predicate Opened(cfg: Config, t: Trace, batch: seq<Input>) {
    && t.up + t.st.held == Passed(cfg.pol, Messages(batch))
    && (t.up + t.st.held == [] ==> batch == [])
    && !t.st.skip && t.replies == Answers(cfg.pol, batch)
    && (t.st.released <==> !CanBeKept(cfg, Messages(batch)))
    && (t.st.released <==> t.up != [])
  }

  lemma {:induction false} BatchIsHeld(cfg: Config, batch: seq<Input>)
    requires Enforces(cfg.pol) && IsOpenBatch(cfg.pol, batch)
    ensures Opened(cfg, Run(cfg, IDLE, batch), batch)
    decreases |batch|
  {
    hide *;
    if batch == [] {
      NothingOpened(cfg);
    } else {
      var front, i := batch[..|batch| - 1], batch[|batch| - 1];
      assert batch == front + [i];
      OpenFront(cfg.pol, front, i);
      BatchIsHeld(cfg, front);
      RunSnoc(cfg, IDLE, front, i);
      OpenStep(cfg, Run(cfg, IDLE, front), front, i);
    }
  }

  lemma NothingOpened(cfg: Config)
    ensures Opened(cfg, Run(cfg, IDLE, []), [])
  {
  }

  lemma OpenFront(pol: Policy, front: seq<Input>, i: Input)
    requires IsOpenBatch(pol, front + [i])
    ensures IsOpenBatch(pol, front) && LeavesOpen(pol, i.m) && (front == [] ==> IsExtended(i.m.kind))
  {
    hide LeavesOpen, IsExtended;
    var batch := front + [i];
    assert batch[|front|] == i && i in batch;
    assert forall j :: j in front ==> j in batch;
    assert front != [] ==> front[0] == batch[0];
  }

  lemma PassedSnoc(pol: Policy, ms: seq<Message>, m: Message)
    ensures Passed(pol, ms + [m]) == Passed(pol, ms) + if Refusal(pol, m).None? then [m] else []
  {
    hide Refusal;
    assert (ms + [m])[..|ms|] == ms;
  }

  lemma AnswersSnoc(pol: Policy, ins: seq<Input>, i: Input)
    ensures Answers(pol, ins + [i]) ==
            Answers(pol, ins) + if Refusal(pol, i.m).None? then [] else [[Refusal(pol, i.m).value, Ready(i.tx)]]
  {
    hide Refusal, Ready;
    assert (ins + [i])[..|ins|] == ins;
  }

  /** A batch that cannot be kept stays so, and one that can be kept grows by what fits. */
  lemma KeptSnoc(cfg: Config, ms: seq<Message>, m: Message)
    ensures CanBeKept(cfg, ms + [m]) <==>
            && CanBeKept(cfg, ms) && (IsBatchKind(m.kind) || m.kind == 'F')
            && WireLen(Passed(cfg.pol, ms + [m])) <= cfg.maxHeld
  {
    hide Refusal, IsBatchKind, Passed, WireLen;
    BatchKinds(m.kind);
    PassedSnoc(cfg.pol, ms, m);
    WireLenSnoc(Passed(cfg.pol, ms), m);
    assert Passed(cfg.pol, ms) + [] == Passed(cfg.pol, ms);
    assert forall k :: k in ms + [m] <==> k in ms || k == m;
  }

  /** What the filter does with a message of an open batch. */
  lemma OpenEffect(cfg: Config, st: State, i: Input)
    requires Enforces(cfg.pol) && LeavesOpen(cfg.pol, i.m) && !st.skip
    ensures var e := Step(cfg, st, i.m, i.tx);
            var r := Refusal(cfg.pol, i.m);
            && e.next.skip == false
            && e.reply == (if r.None? then [] else [r.value, Ready(i.tx)])
            && (IsBatchKind(i.m.kind) ==> r.None? && e == Hold(cfg, st, i.m))
            && (i.m.kind == 'F' ==> r.Some? && e.next == st && e.up == [])
            && (!IsBatchKind(i.m.kind) && i.m.kind != 'F' ==>
                  && e.next == State([], st.released || st.held != [] || i.m.kind == 'H', false)
                  && e.up == st.held + (if r.None? then [i.m] else [])
                  && (i.m.kind == 'H' ==> r.None?))
  {
    hide Ready, ErrorFor, Evaluate, QueryText, ParseQueryText, Fits;
    assert st.held + [] == st.held;
  }

  /** The message is held, or what was held and the message go out. */
  lemma OpenHolds(cfg: Config, t: Trace, batch: seq<Input>, i: Input)
    requires Opened(cfg, t, batch) && IsBatchKind(i.m.kind) && Refusal(cfg.pol, i.m).None?
    ensures Opened(cfg, Extend(t, Hold(cfg, t.st, i.m)), batch + [i])
  {
    var ms, m := Messages(batch), i.m;
    MessagesSnoc(batch, i);
    PassedSnoc(cfg.pol, ms, m);
    AnswersSnoc(cfg.pol, batch, i);
    KeptSnoc(cfg, ms, m);
    WireLenSnoc(Passed(cfg.pol, ms), m);
    hide Messages, Passed, Answers, CanBeKept, WireLen, Refusal, IsBatchKind;
    assert t.up + (t.st.held + [m]) == (t.up + t.st.held) + [m];
    assert t.up + [] == t.up && t.replies + [] == t.replies && t.up + (t.st.held + [m]) + [] == t.up + (t.st.held + [m]);
    assert !t.st.released ==> t.st.held == Passed(cfg.pol, ms) by {
      if !t.st.released { assert [] + t.st.held == t.st.held; }
    }
  }

  /** A refused function call leaves the batch as it is. */
  lemma OpenRefuses(cfg: Config, t: Trace, batch: seq<Input>, i: Input)
    requires Opened(cfg, t, batch) && batch != [] && i.m.kind == 'F' && Refusal(cfg.pol, i.m).Some?
    ensures Opened(cfg, Extend(t, Effect(t.st, [], [Refusal(cfg.pol, i.m).value, Ready(i.tx)])), batch + [i])
  {
    var ms, m := Messages(batch), i.m;
    MessagesSnoc(batch, i);
    PassedSnoc(cfg.pol, ms, m);
    AnswersSnoc(cfg.pol, batch, i);
    KeptSnoc(cfg, ms, m);
    hide Messages, Passed, Answers, CanBeKept, Refusal, IsBatchKind, Ready;
    assert Passed(cfg.pol, ms) + [] == Passed(cfg.pol, ms) && t.up + [] == t.up;
    assert WireLen(Passed(cfg.pol, ms)) <= cfg.maxHeld <== CanBeKept(cfg, ms) by { KeptFits(cfg, ms); }
  }

  lemma KeptFits(cfg: Config, ms: seq<Message>)
    ensures CanBeKept(cfg, ms) ==> WireLen(Passed(cfg.pol, ms)) <= cfg.maxHeld
  {
  }

  /** Any other message takes the batch upstream. */
  lemma OpenReleases(cfg: Config, t: Trace, batch: seq<Input>, i: Input)
    requires Opened(cfg, t, batch) && !IsBatchKind(i.m.kind) && i.m.kind != 'F'
    requires batch == [] ==> i.m.kind == 'H'
    requires i.m.kind == 'H' ==> Refusal(cfg.pol, i.m).None?
    ensures var r := Refusal(cfg.pol, i.m);
            var e := Effect(State([], t.st.released || t.st.held != [] || i.m.kind == 'H', false),
                            t.st.held + (if r.None? then [i.m] else []),
                            if r.None? then [] else [r.value, Ready(i.tx)]);
            Opened(cfg, Extend(t, e), batch + [i])
  {
    var ms, m := Messages(batch), i.m;
    var passed := if Refusal(cfg.pol, m).None? then [m] else [];
    MessagesSnoc(batch, i);
    PassedSnoc(cfg.pol, ms, m);
    AnswersSnoc(cfg.pol, batch, i);
    KeptSnoc(cfg, ms, m);
    hide Messages, Passed, Answers, CanBeKept, Refusal, IsBatchKind, Ready;
    assert t.up + (t.st.held + passed) + [] == (t.up + t.st.held) + passed;
    assert t.replies + [] == t.replies;
    assert t.st.released || t.st.held != [] || m.kind == 'H';
  }

  lemma OpenStep(cfg: Config, t: Trace, batch: seq<Input>, i: Input)
    requires Enforces(cfg.pol) && Opened(cfg, t, batch) && LeavesOpen(cfg.pol, i.m)
    requires batch == [] ==> IsExtended(i.m.kind)
    ensures Opened(cfg, Extend(t, Step(cfg, t.st, i.m, i.tx)), batch + [i])
  {
    assert !t.st.skip by { hide *; OpenedFacts(cfg, t, batch); }
    OpenEffect(cfg, t.st, i);
    hide Opened, Step, Hold, Refusal, LeavesOpen, IsBatchKind, Ready, Extend;
    if IsBatchKind(i.m.kind) {
      OpenHolds(cfg, t, batch, i);
    } else if i.m.kind == 'F' {
      OpenRefuses(cfg, t, batch, i);
    } else {
      OpenReleases(cfg, t, batch, i);
    }
  }

  lemma OpenedFacts(cfg: Config, t: Trace, batch: seq<Input>)
    requires Opened(cfg, t, batch)
    ensures !t.st.skip
  {
  }

  lemma MessagesSnoc(ins: seq<Input>, i: Input)
    ensures Messages(ins + [i]) == Messages(ins) + [i.m]
  {
  }

  /** The rest of a denied batch is swallowed. */
  lemma {:induction false} RestIsSkipped(cfg: Config, st: State, ins: seq<Input>)
    requires st.skip && forall i :: i in ins ==> i.m.kind != 'S'
    ensures Run(cfg, st, ins) == Trace(st, [], [])
    decreases |ins|
  {
    if ins != [] {
      assert ins[|ins| - 1] in ins;
      RestIsSkipped(cfg, st, ins[..|ins| - 1]);
    }
  }

  /** A denied batch from the refused Parse to its Sync, when released says whether part of it had gone upstream. */
  lemma DeniedTail(cfg: Config, st: State, p: Input, rest: seq<Input>, sync: Input)
    requires Enforces(cfg.pol) && !st.skip
    requires p.m.kind == 'P' && Refusal(cfg.pol, p.m).Some?
    requires sync.m.kind == 'S' && forall i :: i in rest ==> i.m.kind != 'S'
    ensures var e := Refusal(cfg.pol, p.m).value;
            Run(cfg, st, [p] + rest + [sync]) ==
            if st.released then Trace(IDLE, [sync.m], [[e]])
            else Trace(IDLE, [], [[e], [Ready(sync.tx)]])
  {
    hide *;
    var e := Refusal(cfg.pol, p.m).value;
    var denied := State([], st.released, true);
    RunNothing(cfg, st);
    RefusedParse(cfg, st, p);
    RunSnoc(cfg, st, [], p);
    assert [] + [p] == [p];
    ExtendDenied(Trace(st, [], []), denied, e);
    RestIsSkipped(cfg, denied, rest);
    RunAppend(cfg, st, [p], rest);
    assert [[e]] + [] == [[e]];
    SkippedSync(cfg, denied, sync);
    RunSnoc(cfg, st, [p] + rest, sync);
    ExtendEnded(Trace(denied, [], [[e]]), sync.m, Ready(sync.tx));
    assert [] + [sync.m] == [sync.m] && [[e]] + [[Ready(sync.tx)]] == [[e], [Ready(sync.tx)]];
    assert Run(cfg, st, [p]) == Trace(denied, [], [[e]]);
    assert Run(cfg, st, [p] + rest) == Trace(denied, [], [[e]]);
  }

  lemma ExtendDenied(t: Trace, next: State, e: Message)
    ensures Extend(t, Effect(next, [], [e])) == Trace(next, t.up, t.replies + [[e]])
  {
    assert t.up + [] == t.up;
  }

  /** The two ways a denied batch ends at its Sync. */
  lemma ExtendEnded(t: Trace, sync: Message, ready: Message)
    ensures Extend(t, Effect(IDLE, [sync], [])) == Trace(IDLE, t.up + [sync], t.replies)
    ensures Extend(t, Effect(IDLE, [], [ready])) == Trace(IDLE, t.up, t.replies + [[ready]])
  {
    assert t.up + [] == t.up && t.replies + [] == t.replies;
  }

  lemma RefusedParse(cfg: Config, st: State, p: Input)
    requires Enforces(cfg.pol) && !st.skip && p.m.kind == 'P' && Refusal(cfg.pol, p.m).Some?
    ensures Step(cfg, st, p.m, p.tx) == Effect(State([], st.released, true), [], [Refusal(cfg.pol, p.m).value])
  {
    hide Refusal;
  }

  lemma SkippedSync(cfg: Config, st: State, sync: Input)
    requires st.skip && sync.m.kind == 'S' && st.held == []
    ensures Step(cfg, st, sync.m, sync.tx) ==
            if st.released then Effect(IDLE, [sync.m], []) else Effect(IDLE, [], [Ready(sync.tx)])
  {
    hide Ready;
  }

  /**
   A batch that opens on an idle filter and is denied at some Parse: the backend sees
   nothing of it, and the client gets exactly one error and one ReadyForQuery for the
   denial, if and only if the batch before the refused Parse could be kept.  Otherwise
   the backend has seen a nonempty part of it, in order, and gets only the Sync more.
   */
  lemma DeniedBatch(cfg: Config, batch: seq<Input>, p: Input, rest: seq<Input>, sync: Input)
    requires Enforces(cfg.pol) && IsOpenBatch(cfg.pol, batch)
    requires p.m.kind == 'P' && Refusal(cfg.pol, p.m).Some?
    requires sync.m.kind == 'S' && forall i :: i in rest ==> i.m.kind != 'S'
    ensures var t := Run(cfg, IDLE, batch + ([p] + rest + [sync]));
            var e := Refusal(cfg.pol, p.m).value;
            var sent := Run(cfg, IDLE, batch).up;
            && t.st == IDLE
            && (t.up == [] <==> CanBeKept(cfg, Messages(batch)))
            && (CanBeKept(cfg, Messages(batch)) ==> t.replies == Answers(cfg.pol, batch) + [[e], [Ready(sync.tx)]])
            && (!CanBeKept(cfg, Messages(batch)) ==>
                  && t.replies == Answers(cfg.pol, batch) + [[e]]
                  && t.up == sent + [sync.m] && sent != [] && sent <= Passed(cfg.pol, Messages(batch)))
  {
    BatchIsHeld(cfg, batch);
    var t := Run(cfg, IDLE, batch);
    DeniedTail(cfg, t.st, p, rest, sync);
    RunAppend(cfg, IDLE, batch, [p] + rest + [sync]);
    hide Run, Refusal, Ready, Messages, Passed, Answers, CanBeKept, IsOpenBatch;
    assert t.up <= t.up + t.st.held;
    assert t.up + [] == t.up && |t.up + [sync.m]| > 0;
  }

  /**
   At any point of any run: if the backend has seen nothing of the open batch when a
   Parse is refused, it sees nothing of it at all, and the client gets one error and one
   ReadyForQuery; if it has seen some of it, the batch's Sync is all it sees more, and the
   client gets the error alone, because the backend's own ReadyForQuery will follow.
   */
  lemma DenialAnywhere(cfg: Config, ins: seq<Input>, p: Input, rest: seq<Input>, sync: Input)
    requires Enforces(cfg.pol) && !Run(cfg, IDLE, ins).st.skip
    requires p.m.kind == 'P' && Refusal(cfg.pol, p.m).Some?
    requires sync.m.kind == 'S' && forall i :: i in rest ==> i.m.kind != 'S'
    ensures var t := Run(cfg, IDLE, ins);
            var u := Run(cfg, IDLE, ins + ([p] + rest + [sync]));
            var e := Refusal(cfg.pol, p.m).value;
            && u.st == IDLE
            && (Unsynced(t.up) == [] ==> u.up == t.up && u.replies == t.replies + [[e], [Ready(sync.tx)]])
            && (Unsynced(t.up) != [] ==> u.up == t.up + [sync.m] && u.replies == t.replies + [[e]])
  {
    hide Run, Unsynced, Refusal, Ready, WireLen, BatchOnly;
    var t := Run(cfg, IDLE, ins);
    ReleaseTracking(cfg, ins);
    DeniedTail(cfg, t.st, p, rest, sync);
    RunAppend(cfg, IDLE, ins, [p] + rest + [sync]);
    assert t.up + [] == t.up;
  }

  // ---- The kinds, one by one ----

  /** On an idle filter a message that is let through is kept back exactly when it is one of five kinds and fits. */
  lemma KeptBackExactly(cfg: Config, m: Message, tx: Byte)
    requires Enforces(cfg.pol) && Refusal(cfg.pol, m).None?
    ensures var e := Step(cfg, IDLE, m, tx);
            && (e.up == [] <==> m.kind in ['P', 'B', 'E', 'D', 'C'] && 5 + |m.payload| <= cfg.maxHeld)
            && (e.up == [] ==> e.next.held == [m])
            && (e.up != [] ==> e.up == [m] && e.next.held == [])
  {
    hide Refusal, Ready, ErrorFor;
    assert [] + [m] == [m];
    assert Refusal(cfg.pol, Message('F', m.payload)).Some? by { FunctionCallsAreRefused(cfg.pol, Message('F', m.payload)); }
  }

  lemma FunctionCallsAreRefused(pol: Policy, m: Message)
    ensures m.kind == 'F' ==> Refusal(pol, m).Some?
  {
  }

  /**
   The kinds of an open batch that is denied at a Parse decide whether the backend sees
   anything of it: it does not exactly when nothing but Parse, Bind, Execute, Describe,
   Close and refused function calls came before, and what was let through fits.
   */
  lemma DeniedBatchKinds(cfg: Config, batch: seq<Input>, p: Input, rest: seq<Input>, sync: Input)
    requires Enforces(cfg.pol) && (batch != [] ==> batch[0].m.kind in ['P', 'B', 'E', 'D', 'C', 'H'])
    requires forall i :: i in batch ==>
               && i.m.kind != 'S'
               && (i.m.kind == 'Q' ==> Refusal(cfg.pol, i.m).Some?) && (i.m.kind == 'P' ==> Refusal(cfg.pol, i.m).None?)
    requires p.m.kind == 'P' && Refusal(cfg.pol, p.m).Some?
    requires sync.m.kind == 'S' && forall i :: i in rest ==> i.m.kind != 'S'
    ensures Run(cfg, IDLE, batch + ([p] + rest + [sync])).up == [] <==>
            && (forall i :: i in batch ==> i.m.kind in ['P', 'B', 'E', 'D', 'C', 'F'])
            && WireLen(Passed(cfg.pol, Messages(batch))) <= cfg.maxHeld
  {
    hide *;
    KindsOpen(cfg.pol, batch);
    DeniedBatch(cfg, batch, p, rest, sync);
    KindsKept(cfg, batch);
  }

  lemma KindsOpen(pol: Policy, batch: seq<Input>)
    requires batch != [] ==> batch[0].m.kind in ['P', 'B', 'E', 'D', 'C', 'H']
    requires forall i :: i in batch ==>
               && i.m.kind != 'S' && (i.m.kind == 'Q' ==> Refusal(pol, i.m).Some?) && (i.m.kind == 'P' ==> Refusal(pol, i.m).None?)
    ensures IsOpenBatch(pol, batch)
  {
    hide Refusal;
  }

  lemma KindsKept(cfg: Config, batch: seq<Input>)
    ensures CanBeKept(cfg, Messages(batch)) <==>
            && (forall i :: i in batch ==> i.m.kind in ['P', 'B', 'E', 'D', 'C', 'F'])
            && WireLen(Passed(cfg.pol, Messages(batch))) <= cfg.maxHeld
  {
    hide WireLen, Passed, IsExtended;
    var ms := Messages(batch);
    if forall i :: i in batch ==> i.m.kind in ['P', 'B', 'E', 'D', 'C', 'F'] {
      forall m | m in ms ensures (IsExtended(m.kind) && m.kind != 'H') || m.kind == 'F' {
        var j :| 0 <= j < |ms| && ms[j] == m;
        assert batch[j] in batch;
        ExtendedKinds(m.kind);
      }
    }
    if CanBeKept(cfg, ms) {
      forall i | i in batch ensures i.m.kind in ['P', 'B', 'E', 'D', 'C', 'F'] {
        var j :| 0 <= j < |batch| && batch[j] == i;
        assert ms[j] in ms;
        ExtendedKinds(i.m.kind);
      }
    }
  }

  lemma ExtendedKinds(k: Byte)
    ensures k in ['P', 'B', 'E', 'D', 'C', 'F'] <==> (IsExtended(k) && k != 'H') || k == 'F'
  {
  }

  // ---- What a refusal says ----

  /** The fields a client reads: both severities, the SQLSTATE, and the text. */
  function Fields(code: Bytes, text: Bytes): seq<(Byte, Bytes)> {
    [('S', "ERROR"), ('V', "ERROR"), ('C', code), ('M', text)]
  }

  lemma TextIsRead(code: string, text: Bytes)
    requires '\0' !in text
    ensures ErrorFields(ErrorResponse(Ascii(code), text).payload) == Fields(Ascii(code), text)
  {
    hide ErrorFields, ErrorResponse, Ascii;
    AsciiHasNoZero(code);
    ErrorIsRead(Ascii(code), text);
  }

  lemma StatesAreThemselves()
    ensures Ascii("42501") == "42501" && Ascii("08P01") == "08P01" && Ascii("0A000") == "0A000"
  {
    AsciiIsText("42501");
    AsciiIsText("08P01");
    AsciiIsText("0A000");
  }

  lemma RefusalCause(pol: Policy, m: Message)
    requires Refusal(pol, m).Some?
    ensures Refusal(pol, m).value ==
            if m.kind == 'F' then ErrorFor(FastPathCall)
            else if m.kind == 'P' && ParseQueryText(m.payload).None? then ErrorFor(MalformedParse)
            else ErrorFor(ByRule("read_only"))
  {
    hide ErrorFor, ParseQueryText, QueryText, TwoPass.IsReadOnly;
  }

  /** What a client reads out of the refusal of a function call, ... */
  lemma CallIsRead(pol: Policy, m: Message)
    requires m.kind == 'F' && Refusal(pol, m).Some?
    ensures ErrorFields(Refusal(pol, m).value.payload) ==
            Fields("0A000", Ascii("tapaside: fast-path function calls are not supported while a policy is active"))
  {
    hide ErrorFields, ErrorResponse, Ascii, Refusal, Fields;
    RefusalCause(pol, m);
    StatesAreThemselves();
    var text := ErrorText(FastPathCall);
    AsciiHasNoZero("tapaside: fast-path function calls are not supported while a policy is active");
    TextIsRead("0A000", text);
  }

  /** ... of a Parse without its terminators, ... */
  lemma MalformedIsRead(pol: Policy, m: Message)
    requires m.kind == 'P' && ParseQueryText(m.payload).None? && Refusal(pol, m).Some?
    ensures ErrorFields(Refusal(pol, m).value.payload) == Fields("08P01", Ascii("tapaside: malformed Parse message"))
  {
    hide ErrorFields, ErrorResponse, Ascii, Refusal, Fields, ParseQueryText;
    RefusalCause(pol, m);
    StatesAreThemselves();
    AsciiHasNoZero("tapaside: malformed Parse message");
    TextIsRead("08P01", ErrorText(MalformedParse));
  }

  /** ... and of a statement the policy blocks. */
  lemma BlockedIsRead(pol: Policy, m: Message)
    requires m.kind == 'Q' || (m.kind == 'P' && ParseQueryText(m.payload).Some?)
    requires Refusal(pol, m).Some?
    ensures ErrorFields(Refusal(pol, m).value.payload) ==
            Fields("42501", Ascii("blocked by tapaside policy (") + Ascii("read_only") + Ascii(")"))
  {
    hide ErrorFields, ErrorResponse, Ascii, Refusal, Fields, ParseQueryText;
    RefusalCause(pol, m);
    AsciiIsText("read_only");
    RuleIsRead("read_only");
  }

  lemma RuleIsRead(rule: Bytes)
    requires '\0' !in rule
    ensures ErrorFields(ErrorFor(ByRule(rule)).payload) == Fields("42501", Ascii("blocked by tapaside policy (") + rule + Ascii(")"))
  {
    hide ErrorFields, ErrorResponse, Ascii, Fields;
    StatesAreThemselves();
    AsciiHasNoZero("blocked by tapaside policy (");
    AsciiHasNoZero(")");
    TextIsRead("42501", ErrorText(ByRule(rule)));
  }
}
