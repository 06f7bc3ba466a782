/**
 What the client can rely on under every interleaving of the two pumps while the
 backend's stream does not end inside a message: whole messages, the backend's and the
 proxy's each in order.
 */
module RelayLaws {
  import opened Wire
  import opened Machine
  import opened Relay

  // ---- Whole messages ----

  /** Every message on the client stream, the groups laid out in their places. */
  function LogMessages(log: seq<Item>): seq<Message> {
    if log == [] then []
    else
      LogMessages(log[..|log| - 1]) +
      match log[|log| - 1]
      case FromBackend(m) => [m]
      case Synthesized(group) => group
      case Torn(_) => []
  }

  function BackendMessages(log: seq<Item>): seq<Message> {
    if log == [] then []
    else
      var i := log[|log| - 1];
      BackendMessages(log[..|log| - 1]) + if i.FromBackend? then [i.m] else []
  }

  lemma {:induction false} WholeLog(log: seq<Item>)
    requires ValidLog(log) && TornCount(log) == 0
    ensures ValidMessages(LogMessages(log)) && EncodeAll(LogMessages(log)) == LogBytes(log)
    ensures ValidMessages(BackendMessages(log)) && EncodeAll(BackendMessages(log)) == BackendBytes(log)
    decreases |log|
  {
    hide EncodeAll, ItemBytes, ValidMessages, ValidItem;
    if log == [] {
      NothingEncodedYet();
    } else {
      var front, i := log[..|log| - 1], log[|log| - 1];
      assert i in log;
      WholeLog(front);
      WholeItem(front, i);
    }
  }

  lemma NothingEncodedYet()
    ensures ValidMessages([]) && EncodeAll([]) == []
  {
  }

  lemma WholeItem(front: seq<Item>, i: Item)
    requires ValidItem(i) && !i.Torn? && ValidMessages(LogMessages(front)) && ValidMessages(BackendMessages(front))
    ensures var ms := LogMessages(front) + (match i case FromBackend(m) => [m] case Synthesized(group) => group case Torn(_) => []);
            ValidMessages(ms) && EncodeAll(ms) == EncodeAll(LogMessages(front)) + ItemBytes(i)
    ensures var bs := BackendMessages(front) + if i.FromBackend? then [i.m] else [];
            ValidMessages(bs) && EncodeAll(bs) == EncodeAll(BackendMessages(front)) + if i.Synthesized? then [] else ItemBytes(i)
  {
    match i
    case FromBackend(m) =>
      EncodeAllAppend(LogMessages(front), [m]);
      EncodeAllAppend(BackendMessages(front), [m]);
      EncodeOne(m);
    case Synthesized(group) =>
      EncodeAllAppend(LogMessages(front), group);
      assert BackendMessages(front) + [] == BackendMessages(front);
      assert EncodeAll(BackendMessages(front)) + [] == EncodeAll(BackendMessages(front));
  }

  lemma StreamIsWhole(s: Sys)
    requires StreamInv(s) && TornCount(s.log) == 0
    ensures ValidMessages(LogMessages(s.log)) && s.out == EncodeAll(LogMessages(s.log)) + Partial(s)
    ensures Partial(s) == [] ==> Frames(s.out) == LogMessages(s.log) && TailOf(s.out) == AtBoundary
  {
    hide LogMessages, LogBytes, BackendBytes, BackendMessages, EncodeAll, Frames, TailOf, ValidMessages, Partial, TornCount, ValidLog;
    WholeLog(s.log);
    EncodeThenDecode(LogMessages(s.log), []);
    NoFrames();
    assert LogMessages(s.log) + [] == LogMessages(s.log);
  }

  lemma BackendIsPrefix(backend: Bytes, s: Sys)
    requires BackendInv(backend, s) && ValidLog(s.log) && TornCount(s.log) == 0
    ensures BackendMessages(s.log) <= Frames(backend)
  {
    hide LogMessages, LogBytes, BackendBytes, BackendMessages, EncodeAll, Frames, TailOf, ValidMessages, TornCount, ValidLog, InFlight;
    WholeLog(s.log);
    var rest := InFlight(s.bp) + s.backend;
    assert BackendBytes(s.log) + InFlight(s.bp) + s.backend == BackendBytes(s.log) + rest;
    EncodeThenDecode(BackendMessages(s.log), rest);
  }

  /** The backend's stream stops inside a payload that is streamed; a ReadyForQuery is read whole first. */
  predicate EndsInAMessage(backend: Bytes) {
    TailOf(backend).InPayload? && !IsReady(TailOf(backend).header)
  }

  /** What the client can rely on in a state of a run that has answered replies so far. */
  ghost predicate IsIntact(s: Sys, backend: Bytes, replies: seq<seq<Message>>) {
    && ValidMessages(LogMessages(s.log))
    && s.out == EncodeAll(LogMessages(s.log)) + Partial(s)
    && (s.lock == Nobody ==> Frames(s.out) == LogMessages(s.log) && TailOf(s.out) == AtBoundary)
    && BackendMessages(s.log) <= Frames(backend)
    && LogGroups(s.log) <= replies
  }

  /** A message that was copied in part is the end of the backend's stream. */
  lemma CopiedInPart(ms: seq<Message>, h: Header, done: Bytes, missing: nat)
    requires ValidMessages(ms) && UnderWay(h, done, missing) && missing > 0
    ensures TailOf(EncodeAll(ms) + done) == InPayload(h, done[5..])
  {
    hide TailOf, Frames, EncodeAll, EncodeHeader, ValidMessages;
    assert done == EncodeHeader(h) + done[5..];
    EncodedThenStreamed(ms, h, done[5..]);
  }

  lemma BreakMeansTorn(backend: Bytes, s: Sys)
    requires OutInv(s) && BackendInv(backend, s) && !s.bp.Broken? && Break(s).bp.Broken?
    ensures EndsInAMessage(backend)
  {
    hide TailOf, EncodeAll, ValidMessages, LogBytes, BackendBytes, BackendMessages, LogMessages, TornCount, ValidLog, UnderWay, LogStatuses;
    WholeLog(s.log);
    assert s.bp.done + [] == s.bp.done;
    assert BackendBytes(s.log) + s.bp.done + [] == BackendBytes(s.log) + s.bp.done;
    CopiedInPart(BackendMessages(s.log), s.bp.header, s.bp.done, s.bp.missing);
  }

  lemma OnlyBreakBreaks(cfg: Config, s: Sys, mv: Move)
    requires !s.bp.Broken? && Do(cfg, s, mv).bp.Broken?
    ensures mv == BackendBreak
  {
    hide Step, Extend, GroupBytes, ReadHeader;
  }

  /** The backend pump can only break when the backend's stream ends inside a message. */
  lemma {:induction false} BrokenMeansTorn(cfg: Config, backend: Bytes, client: seq<Message>, moves: seq<Move>)
    ensures Schedule(cfg, Start(backend, client), moves).bp.Broken? ==> EndsInAMessage(backend)
    decreases |moves|
  {
    hide Do, Break, OutInv, BackendInv, EndsInAMessage;
    if moves != [] {
      var front, mv := moves[..|moves| - 1], moves[|moves| - 1];
      var s := Schedule(cfg, Start(backend, client), front);
      BrokenMeansTorn(cfg, backend, client, front);
      if !s.bp.Broken? && Do(cfg, s, mv).bp.Broken? {
        OnlyBreakBreaks(cfg, s, mv);
        ScheduleOut(cfg, backend, client, front);
        ScheduleBackend(cfg, backend, client, front);
        DoBreak(cfg, s);
        BreakMeansTorn(backend, s);
      }
    }
  }

  lemma DoBreak(cfg: Config, s: Sys)
    ensures Do(cfg, s, BackendBreak) == Break(s)
  {
  }

  /**
   Under every interleaving, when the backend's stream does not end inside a message:
   the client stream is whole messages and the unfinished item of the lock holder; the
   backend's part of it is a prefix of the backend's own messages, verbatim and in
   order; and the proxy's part is the filter's locked writes, unsplit and in order.
   When it does, all of this still holds as long as no write was torn.
   */
  lemma ClientStreamIntegrity(cfg: Config, backend: Bytes, client: seq<Message>, moves: seq<Move>)
    ensures var s := Schedule(cfg, Start(backend, client), moves);
            && (!EndsInAMessage(backend) ==> forall i :: i in s.log ==> !i.Torn?)
            && ((forall i :: i in s.log ==> !i.Torn?) ==> IsIntact(s, backend, Run(cfg, IDLE, s.ins).replies))
  {
    hide Schedule, Run, EncodeAll, LogGroups, LogMessages, BackendMessages, Frames, TailOf, PumpInv, ValidLog, ValidMessages, Partial,
      TornCount, LogBytes, BackendBytes, LogStatuses, Truthful;
    var s := Schedule(cfg, Start(backend, client), moves);
    ScheduleOut(cfg, backend, client, moves);
    ScheduleBackend(cfg, backend, client, moves);
    ScheduleClient(cfg, backend, client, moves);
    BrokenMeansTorn(cfg, backend, client, moves);
    TornMembers(s.log);
    if TornCount(s.log) == 0 {
      StreamIsWhole(s);
      NobodyWrites(s);
      BackendIsPrefix(backend, s);
    }
  }

  lemma NobodyWrites(s: Sys)
    ensures s.lock == Nobody ==> Partial(s) == []
  {
  }

  lemma {:induction false} TornMembers(log: seq<Item>)
    ensures TornCount(log) == 0 <==> forall i :: i in log ==> !i.Torn?
    decreases |log|
  {
    if log != [] {
      var front, last := log[..|log| - 1], log[|log| - 1];
      TornMembers(front);
      assert log == front + [last];
    }
  }
}
