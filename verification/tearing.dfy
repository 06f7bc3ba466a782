/**
 The window in which the client stream is not intact: for every backend stream that
 ends inside a message, the interleaving that relays all of it and then gives the
 lock back with that message half written.
 */
module Tearing {
  import opened Wire
  import opened Machine
  import opened Relay
  import opened RelayLaws

  lemma FiveMoves(cfg: Config, s: Sys, a: Move, b: Move, c: Move, d: Move, e: Move)
    ensures Schedule(cfg, s, [a, b, c, d, e]) == Do(cfg, Do(cfg, Do(cfg, Do(cfg, Do(cfg, s, a), b), c), d), e)
  {
    hide Do, Schedule;
    OneMove(cfg, s, a);
    ScheduleAppend(cfg, s, [a], [b]);
    OneMove(cfg, Do(cfg, s, a), b);
    assert [a] + [b] == [a, b];
    ScheduleAppend(cfg, s, [a, b], [c]);
    OneMove(cfg, Schedule(cfg, s, [a, b]), c);
    assert [a, b] + [c] == [a, b, c];
    ScheduleAppend(cfg, s, [a, b, c], [d]);
    OneMove(cfg, Schedule(cfg, s, [a, b, c]), d);
    assert [a, b, c] + [d] == [a, b, c, d];
    ScheduleAppend(cfg, s, [a, b, c, d], [e]);
    OneMove(cfg, Schedule(cfg, s, [a, b, c, d]), e);
    assert [a, b, c, d] + [e] == [a, b, c, d, e];
  }

  // ---- Relaying the backend's messages one after the other ----

  /** The lock is free and the backend pump is between messages. */
  predicate IsFree(s: Sys) {
    s.lock == Nobody && s.bp.Framing?
  }

  predicate SameClient(s: Sys, t: Sys) {
    t.cp == s.cp && t.client == s.client && t.filter == s.filter && t.ins == s.ins && t.seen == s.seen
  }

  /** Copying, with all of read written and missing bytes still to come. */
  function Copied(s: Sys, h: Header, read: nat, missing: nat): Sys
    requires read <= |s.backend|
  {
    s.(lock := Backend, out := s.out + s.backend[..read], backend := s.backend[read..],
       bp := Copying(h, s.backend[..read], [], missing))
  }

  /** The header and n payload bytes of a message that is streamed. */
  lemma StreamedCopy(cfg: Config, s: Sys, h: Header, n: nat)
    requires IsFree(s) && ReadHeader(s.backend) == Got(h) && !IsReady(h)
    requires n <= h.payloadLen && 5 + n <= |s.backend|
    ensures WriteBackend(ReadBackend(LockBackend(Frame(s)), n), 5 + n) == Copied(s, h, 5 + n, h.payloadLen - n)
  {
    hide ReadHeader;
    var b := s.backend;
    assert b[..5] + b[5..][..n] == b[..5 + n] && b[5..][n..] == b[5 + n..];
    assert b[..5 + n][..5 + n] == b[..5 + n] && b[..5 + n][5 + n..] == [] && [] + b[..5 + n] == b[..5 + n];
  }

  /** A ReadyForQuery, whose status is recorded. */
  lemma ReadyCopy(cfg: Config, s: Sys, h: Header)
    requires IsFree(s) && ReadHeader(s.backend) == Got(h) && IsReady(h) && 6 <= |s.backend|
    ensures WriteBackend(ReadBackend(LockBackend(Frame(s)), 1), 6) ==
            Copied(s, h, 6, 0).(tx := s.backend[5], statuses := s.statuses + [s.backend[5]])
  {
    hide ReadHeader;
    var b := s.backend;
    assert b[..6][..6] == b[..6] && b[..6][6..] == [] && [] + b[..6] == b[..6];
  }

  /** The moves that copy a message with n payload bytes, and the one that ends the copy. */
  function CopyMoves(n: nat, end: Move): seq<Move> {
    [BackendFrame, BackendLock, BackendRead(n), BackendWrite(5 + n), end]
  }

  lemma CopyThen(cfg: Config, s: Sys, n: nat, end: Move)
    requires end == BackendUnlock || end == BackendBreak
    ensures var t := WriteBackend(ReadBackend(LockBackend(Frame(s)), n), 5 + n);
            Schedule(cfg, s, CopyMoves(n, end)) == if end == BackendUnlock then UnlockBackend(t) else Break(t)
  {
    hide Schedule, Frame, LockBackend, ReadBackend, WriteBackend, UnlockBackend, Break;
    FiveMoves(cfg, s, BackendFrame, BackendLock, BackendRead(n), BackendWrite(5 + n), end);
  }

  function Items(ms: seq<Message>): (items: seq<Item>)
    ensures |items| == |ms|
  {
    seq(|ms|, i requires 0 <= i < |ms| => FromBackend(ms[i]))
  }

  /** t is s when the pump has relayed ms and left rest of the backend's stream. */
  ghost predicate Relayed(s: Sys, t: Sys, ms: seq<Message>, rest: Bytes) {
    && IsFree(t) && SameClient(s, t) && ValidMessages(ms)
    && t.out == s.out + EncodeAll(ms) && t.log == s.log + Items(ms) && t.backend == rest
  }

  /** A message that was copied whole is finished. */
  lemma CopiedEnds(s: Sys, c: Sys, m: Message)
    requires IsFree(s) && ValidMessage(m) && |s.backend| >= 5 + |m.payload| && s.backend[..5 + |m.payload|] == Encode(m)
    requires c == Copied(s, HeaderOf(m), 5 + |m.payload|, 0).(tx := c.tx, statuses := c.statuses)
    ensures Relayed(s, UnlockBackend(c), [m], s.backend[5 + |m.payload|..])
  {
    EncodeOne(m);
    assert Encode(m)[5..] == m.payload;
    hide Encode, EncodeAll;
    assert Items([m]) == [FromBackend(m)];
  }

  lemma OneRelayed(cfg: Config, s: Sys)
    requires IsFree(s) && Complete(s.backend)
    ensures var m := FirstMessage(s.backend);
            Relayed(s, Schedule(cfg, s, CopyMoves(|m.payload|, BackendUnlock)), [m], AfterFirst(s.backend))
  {
    var h := ReadHeader(s.backend).header;
    var m := FirstMessage(s.backend);
    FirstMessageEncodes(s.backend);
    assert (Encode(m) + AfterFirst(s.backend))[..5 + h.payloadLen] == Encode(m);
    hide Schedule, Frame, LockBackend, ReadBackend, WriteBackend, UnlockBackend, ReadHeader, Encode, CopyMoves, Relayed, Copied;
    CopyThen(cfg, s, h.payloadLen, BackendUnlock);
    var c := WriteBackend(ReadBackend(LockBackend(Frame(s)), h.payloadLen), 5 + h.payloadLen);
    if IsReady(h) {
      ReadyCopy(cfg, s, h);
    } else {
      StreamedCopy(cfg, s, h, h.payloadLen);
    }
    CopiedEnds(s, c, m);
  }

  lemma RelayedTwice(s: Sys, t: Sys, u: Sys, m: Message, ms: seq<Message>, rest: Bytes)
    requires Relayed(s, t, [m], t.backend) && Relayed(t, u, ms, rest)
    ensures Relayed(s, u, [m] + ms, rest)
  {
    EncodeAllAppend([m], ms);
    hide EncodeAll;
    assert s.out + EncodeAll([m]) + EncodeAll(ms) == s.out + (EncodeAll([m]) + EncodeAll(ms));
    assert s.log + Items([m]) + Items(ms) == s.log + Items([m] + ms);
  }

  function DrainMoves(backend: Bytes): seq<Move>
    decreases |backend|
  {
    if Complete(backend) then CopyMoves(|FirstMessage(backend).payload|, BackendUnlock) + DrainMoves(AfterFirst(backend)) else []
  }

  /** All whole messages of the backend are relayed, whatever the client pump is waiting for. */
  lemma {:induction false} Drained(cfg: Config, s: Sys)
    requires IsFree(s)
    ensures Relayed(s, Schedule(cfg, s, DrainMoves(s.backend)), Frames(s.backend), TailBytes(TailOf(s.backend)))
    decreases |s.backend|
  {
    hide Schedule, Complete, FirstMessage, AfterFirst, CopyMoves, Relayed, Incomplete, TailBytes;
    if Complete(s.backend) {
      var n := |FirstMessage(s.backend).payload|;
      var t := Schedule(cfg, s, CopyMoves(n, BackendUnlock));
      OneRelayed(cfg, s);
      RelayedFacts(s, t, [FirstMessage(s.backend)], AfterFirst(s.backend));
      Drained(cfg, t);
      ScheduleAppend(cfg, s, CopyMoves(n, BackendUnlock), DrainMoves(t.backend));
      RelayedTwice(s, t, Schedule(cfg, t, DrainMoves(t.backend)), FirstMessage(s.backend), Frames(t.backend), TailBytes(TailOf(t.backend)));
    } else {
      ScheduleNone(cfg, s);
      NothingRelayed(s);
    }
  }

  lemma RelayedFacts(s: Sys, t: Sys, ms: seq<Message>, rest: Bytes)
    requires Relayed(s, t, ms, rest)
    ensures IsFree(t) && t.backend == rest
  {
  }

  lemma NothingRelayed(s: Sys)
    requires IsFree(s) && !Complete(s.backend)
    ensures Relayed(s, s, [], TailBytes(Incomplete(s.backend)))
  {
    IncompleteBytes(s.backend);
    hide Complete, Incomplete, TailBytes;
    assert s.out + [] == s.out && s.log + Items([]) == s.log;
  }

  // ---- Tearing the last message ----

  /** t is s when the end of the backend's stream has been torn. */
  ghost predicate TornOff(s: Sys, t: Sys) {
    && t.lock == Nobody && SameClient(s, t)
    && t.out == s.out + s.backend && t.log == s.log + [Torn(s.backend)]
  }

  lemma CopiedBreaks(s: Sys, h: Header, missing: nat)
    requires IsFree(s) && missing > 0
    ensures TornOff(s, Break(Copied(s, h, |s.backend|, missing)))
  {
    assert s.backend[..|s.backend|] == s.backend && s.backend[|s.backend|..] == [];
  }

  lemma CutOffBytes(h: Header, partial: Bytes)
    requires h.payloadLen <= MAX_PAYLOAD
    ensures TailBytes(InPayload(h, partial)) == EncodeHeader(h) + partial
  {
    hide EncodeHeader;
  }

  /** The backend's last message is half written when the lock is given back. */
  lemma LastTorn(cfg: Config, s: Sys, h: Header, partial: Bytes)
    requires !IsReady(h) && |partial| < h.payloadLen <= MAX_PAYLOAD
    requires IsFree(s) && s.backend == TailBytes(InPayload(h, partial))
    ensures TornOff(s, Schedule(cfg, s, CopyMoves(|partial|, BackendBreak)))
  {
    hide *;
    var n := |partial|;
    EncodedHeaderReads(h, partial);
    CutOffBytes(h, partial);
    CopyThen(cfg, s, n, BackendBreak);
    StreamedCopy(cfg, s, h, n);
    CopiedBreaks(s, h, h.payloadLen - n);
  }

  function TornMoves(backend: Bytes): seq<Move>
    requires EndsInAMessage(backend)
  {
    DrainMoves(backend) + CopyMoves(|TailOf(backend).bytes|, BackendBreak)
  }

  /** t is s when all of the backend's stream went out, its last message torn. */
  ghost predicate AllTorn(s: Sys, t: Sys, backend: Bytes) {
    && t.lock == Nobody && SameClient(s, t)
    && t.out == s.out + backend
    && t.log == s.log + Items(Frames(backend)) + [Torn(TailBytes(TailOf(backend)))]
  }

  lemma BackendTorn(cfg: Config, s: Sys)
    requires IsFree(s) && EndsInAMessage(s.backend)
    ensures AllTorn(s, Schedule(cfg, s, TornMoves(s.backend)), s.backend)
  {
    hide Schedule, Frames, TailOf, DrainMoves, CopyMoves, EncodeAll, TailBytes;
    var tail := TailOf(s.backend);
    var t := Schedule(cfg, s, DrainMoves(s.backend));
    Drained(cfg, s);
    LastTorn(cfg, t, tail.header, tail.bytes);
    ScheduleAppend(cfg, s, DrainMoves(s.backend), CopyMoves(|tail.bytes|, BackendBreak));
    DecodeThenEncode(s.backend);
    assert s.out + EncodeAll(Frames(s.backend)) + TailBytes(tail) == s.out + (EncodeAll(Frames(s.backend)) + TailBytes(tail));
  }

  // ---- Exactly when the client stream is intact ----

  ghost predicate Intact(cfg: Config, backend: Bytes, client: seq<Message>, moves: seq<Move>) {
    var s := Schedule(cfg, Start(backend, client), moves);
    IsIntact(s, backend, Run(cfg, IDLE, s.ins).replies)
  }

  lemma TornIsNotIntact(s: Sys, backend: Bytes, replies: seq<seq<Message>>)
    requires AllTorn(Start(backend, s.client), s, backend) && EndsInAMessage(backend)
    ensures !IsIntact(s, backend, replies)
  {
    hide Frames, TailOf, LogMessages, BackendMessages, LogGroups, EncodeAll, ValidMessages;
    assert [] + backend == backend;
  }

  /** Whatever the client does, every interleaving leaves its stream intact if and only if the backend's does not end inside a message. */
  lemma IntegrityHoldsExactly(cfg: Config, backend: Bytes, client: seq<Message>)
    ensures (forall moves: seq<Move> :: Intact(cfg, backend, client, moves)) <==> !EndsInAMessage(backend)
  {
    hide Schedule, Run, IsIntact, EndsInAMessage, AllTorn;
    if EndsInAMessage(backend) {
      var moves := TornMoves(backend);
      BackendTorn(cfg, Start(backend, client));
      var s := Schedule(cfg, Start(backend, client), moves);
      SameBackend(Start(backend, client), s, backend);
      TornIsNotIntact(s, backend, Run(cfg, IDLE, s.ins).replies);
      assert !Intact(cfg, backend, client, moves);
    } else {
      forall moves: seq<Move> ensures Intact(cfg, backend, client, moves) {
        ClientStreamIntegrity(cfg, backend, client, moves);
      }
    }
  }

  lemma SameBackend(s: Sys, t: Sys, backend: Bytes)
    requires AllTorn(s, t, backend)
    ensures t.client == s.client
  {
  }

  // ---- What a torn message does to a reply ----

  /** The client's messages while the backend has reported nothing yet. */
  function WhileIdle(ms: seq<Message>): (ins: seq<Input>)
    ensures |ins| == |ms|
  {
    seq(|ms|, i requires 0 <= i < |ms| => Input(ms[i], 'I'))
  }

  function HandleMoves(n: nat): seq<Move> {
    if n == 0 then [] else HandleMoves(n - 1) + [ClientHandle]
  }

  /** s has handled the messages ms, of which none was answered. */
  ghost predicate HandledQuietly(cfg: Config, backend: Bytes, ms: seq<Message>, rest: seq<Message>, s: Sys) {
    && IsFree(s) && s.cp.Reading? && s.backend == backend && s.client == rest
    && s.out == [] && s.log == [] && s.tx == 'I'
    && s.filter == Run(cfg, IDLE, WhileIdle(ms))
  }

  lemma HandleOne(cfg: Config, backend: Bytes, ms: seq<Message>, m: Message, rest: seq<Message>, s: Sys)
    requires HandledQuietly(cfg, backend, ms, [m] + rest, s)
    ensures var e := Step(cfg, s.filter.st, m, 'I');
            var t := Handle(cfg, s);
            && IsFree(t) && t.cp == (if e.reply == [] then Reading else Waiting(e.reply))
            && t.backend == backend && t.out == [] && t.log == [] && t.tx == 'I' && t.client == rest
            && t.filter == Extend(s.filter, e) == Run(cfg, IDLE, WhileIdle(ms + [m]))
  {
    hide Run, Step, Extend;
    RunSnoc(cfg, IDLE, WhileIdle(ms), Input(m, 'I'));
    assert WhileIdle(ms) + [Input(m, 'I')] == WhileIdle(ms + [m]);
  }

  /** The replies of a part of a run are among those of the run. */
  lemma QuietFront(cfg: Config, ms: seq<Message>, m: Message)
    requires Run(cfg, IDLE, WhileIdle(ms + [m])).replies == []
    ensures var t := Run(cfg, IDLE, WhileIdle(ms)); t.replies == [] && Step(cfg, t.st, m, 'I').reply == []
  {
    hide Run, Step;
    RunSnoc(cfg, IDLE, WhileIdle(ms), Input(m, 'I'));
    assert WhileIdle(ms) + [Input(m, 'I')] == WhileIdle(ms + [m]);
  }

  lemma {:induction false} HandleQuietly(cfg: Config, backend: Bytes, ms: seq<Message>, rest: seq<Message>)
    requires Run(cfg, IDLE, WhileIdle(ms)).replies == []
    ensures HandledQuietly(cfg, backend, ms, rest, Schedule(cfg, Start(backend, ms + rest), HandleMoves(|ms|)))
    decreases |ms|
  {
    hide Run, Step, Extend, Schedule, Handle, WhileIdle;
    if ms == [] {
      ScheduleNone(cfg, Start(backend, ms + rest));
      NothingIdle(cfg);
      assert ms + rest == rest;
    } else {
      var front, m := ms[..|ms| - 1], ms[|ms| - 1];
      assert ms == front + [m] && ms + rest == front + ([m] + rest);
      QuietFront(cfg, front, m);
      HandleQuietly(cfg, backend, front, [m] + rest);
      var s := Schedule(cfg, Start(backend, ms + rest), HandleMoves(|front|));
      HandleOne(cfg, backend, front, m, rest, s);
      ScheduleAppend(cfg, Start(backend, ms + rest), HandleMoves(|front|), [ClientHandle]);
      OneMove(cfg, s, ClientHandle);
    }
  }

  lemma NothingIdle(cfg: Config)
    ensures Run(cfg, IDLE, WhileIdle([])) == Trace(IDLE, [], [])
  {
    assert WhileIdle([]) == [];
  }

  /** The waiting reply is written in one go. */
  function ReplyMoves(group: seq<Message>): seq<Move> {
    [ClientLock, ClientWrite(|GroupBytes(group)|), ClientUnlock]
  }

  lemma ReplyWritten(cfg: Config, s: Sys)
    requires s.lock == Nobody && s.cp.Waiting?
    ensures var g := s.cp.group;
            var t := Schedule(cfg, s, ReplyMoves(g));
            && t.lock == Nobody && t.out == s.out + GroupBytes(g) && t.log == s.log + [Synthesized(g)]
            && t.filter == s.filter && t.ins == s.ins && t.seen == s.seen && t.statuses == s.statuses
  {
    hide Schedule, GroupBytes;
    var g := s.cp.group;
    var n := |GroupBytes(g)|;
    assert GroupBytes(g)[0..n] == GroupBytes(g);
    OneMove(cfg, s, ClientLock);
    var t := Do(cfg, s, ClientLock);
    ScheduleAppend(cfg, s, [ClientLock], [ClientWrite(n)]);
    OneMove(cfg, t, ClientWrite(n));
    assert [ClientLock] + [ClientWrite(n)] == [ClientLock, ClientWrite(n)];
    ScheduleAppend(cfg, s, [ClientLock, ClientWrite(n)], [ClientUnlock]);
    OneMove(cfg, Do(cfg, t, ClientWrite(n)), ClientUnlock);
    assert [ClientLock, ClientWrite(n)] + [ClientUnlock] == ReplyMoves(g);
  }

  function SwallowMoves(backend: Bytes, n: nat, group: seq<Message>): seq<Move>
    requires EndsInAMessage(backend)
  {
    HandleMoves(n) + [ClientHandle] + TornMoves(backend) + ReplyMoves(group)
  }

  /** How a client reads the backend's stream when a reply g follows its torn message: the reply's bytes are taken for the payload. */
  ghost predicate Swallows(backend: Bytes, g: Bytes, out: Bytes) {
    && TailOf(backend).InPayload?
    && var h, partial := TailOf(backend).header, TailOf(backend).bytes;
    if |partial + g| < h.payloadLen then Frames(out) == Frames(backend) && TailOf(out) == InPayload(h, partial + g)
    else Frames(out) == Frames(backend) + [Message(h.kind, (partial + g)[..h.payloadLen])] + Frames((partial + g)[h.payloadLen..])
  }

  lemma TornThenReply(backend: Bytes, g: Bytes)
    requires TailOf(backend).InPayload?
    ensures Swallows(backend, g, backend + g)
  {
    hide Frames, TailOf, EncodeAll, EncodeHeader, Encode, ValidMessage, Complete, FirstMessage, AfterFirst;
    var h, partial := TailOf(backend).header, TailOf(backend).bytes;
    var more := partial + g;
    DecodeThenEncode(backend);
    assert backend + g == EncodeAll(Frames(backend)) + (EncodeHeader(h) + more);
    if |more| < h.payloadLen {
      EncodedThenStreamed(Frames(backend), h, more);
    } else {
      var m := Message(h.kind, more[..h.payloadLen]);
      HeaderThenPayload(h, more);
      MessageRoundTrip(m, more[h.payloadLen..]);
      EncodeThenDecode(Frames(backend), Encode(m) + more[h.payloadLen..]);
      FramesUnfold(Encode(m) + more[h.payloadLen..]);
      assert Frames(backend) + ([m] + Frames(more[h.payloadLen..])) == Frames(backend) + [m] + Frames(more[h.payloadLen..]);
    }
  }

  lemma HeaderThenPayload(h: Header, more: Bytes)
    requires h.payloadLen <= MAX_PAYLOAD && h.payloadLen <= |more|
    ensures var m := Message(h.kind, more[..h.payloadLen]);
            ValidMessage(m) && EncodeHeader(h) + more == Encode(m) + more[h.payloadLen..]
  {
    hide EncodeHeader;
    assert more == more[..h.payloadLen] + more[h.payloadLen..];
  }

  lemma FramesUnfold(s: Bytes)
    requires Complete(s)
    ensures Frames(s) == [FirstMessage(s)] + Frames(AfterFirst(s))
  {
    hide Complete, FirstMessage, AfterFirst;
  }

  /**
   The exception is real for every backend stream that ends inside a message and every
   client that is refused anything: the lock is given back, the refusal that was waiting
   is written behind the torn message, and the client takes its bytes for the payload.
   */
  lemma TornMessageSwallowsReply(cfg: Config, backend: Bytes, quiet: seq<Message>, m: Message, rest: seq<Message>)
    requires EndsInAMessage(backend) && Run(cfg, IDLE, WhileIdle(quiet)).replies == []
    requires Step(cfg, Run(cfg, IDLE, WhileIdle(quiet)).st, m, 'I').reply != []
    ensures var g := Step(cfg, Run(cfg, IDLE, WhileIdle(quiet)).st, m, 'I').reply;
            var s := Schedule(cfg, Start(backend, quiet + [m] + rest), SwallowMoves(backend, |quiet|, g));
            && s.lock == Nobody
            && s.log == Items(Frames(backend)) + [Torn(TailBytes(TailOf(backend))), Synthesized(g)]
            && s.out == backend + GroupBytes(g) && Swallows(backend, GroupBytes(g), s.out)
  {
    hide *;
    var s0 := Start(backend, quiet + [m] + rest);
    var g := Step(cfg, Run(cfg, IDLE, WhileIdle(quiet)).st, m, 'I').reply;
    assert quiet + [m] + rest == quiet + ([m] + rest);
    HandleQuietly(cfg, backend, quiet, [m] + rest);
    var s1 := Schedule(cfg, s0, HandleMoves(|quiet|));
    HandleRefused(cfg, backend, quiet, m, rest, s1);
    var s2 := Do(cfg, s1, ClientHandle);
    OneMove(cfg, s1, ClientHandle);
    ScheduleAppend(cfg, s0, HandleMoves(|quiet|), [ClientHandle]);
    BackendTorn(cfg, s2);
    var s3 := Schedule(cfg, s2, TornMoves(backend));
    ScheduleAppend(cfg, s0, HandleMoves(|quiet|) + [ClientHandle], TornMoves(backend));
    TornWaits(s2, s3, backend);
    ReplyWritten(cfg, s3);
    ScheduleAppend(cfg, s0, HandleMoves(|quiet|) + [ClientHandle] + TornMoves(backend), ReplyMoves(g));
    SwallowMovesAre(backend, |quiet|, g);
    EndsInPayload(backend);
    TornThenReply(backend, GroupBytes(g));
    var torn := Torn(TailBytes(TailOf(backend)));
    assert Items(Frames(backend)) + [torn] + [Synthesized(g)] == Items(Frames(backend)) + [torn, Synthesized(g)];
  }

  lemma SwallowMovesAre(backend: Bytes, n: nat, group: seq<Message>)
    requires EndsInAMessage(backend)
    ensures SwallowMoves(backend, n, group) == HandleMoves(n) + [ClientHandle] + TornMoves(backend) + ReplyMoves(group)
  {
  }

  lemma EndsInPayload(backend: Bytes)
    requires EndsInAMessage(backend)
    ensures TailOf(backend).InPayload?
  {
  }

  lemma HandleRefused(cfg: Config, backend: Bytes, ms: seq<Message>, m: Message, rest: seq<Message>, s: Sys)
    requires HandledQuietly(cfg, backend, ms, [m] + rest, s)
    requires Step(cfg, Run(cfg, IDLE, WhileIdle(ms)).st, m, 'I').reply != []
    ensures var t := Do(cfg, s, ClientHandle);
            && IsFree(t) && t.backend == backend && t.out == [] && t.log == []
            && t.cp == Waiting(Step(cfg, Run(cfg, IDLE, WhileIdle(ms)).st, m, 'I').reply)
  {
    hide Run, Step, Extend, WhileIdle, Handle;
    HandleOne(cfg, backend, ms, m, rest, s);
  }

  /** The reply has waited while the backend's stream went out. */
  lemma TornWaits(s: Sys, t: Sys, backend: Bytes)
    requires AllTorn(s, t, backend) && s.out == [] && s.log == []
    ensures t.lock == Nobody && t.cp == s.cp && t.out == backend
    ensures t.log == Items(Frames(backend)) + [Torn(TailBytes(TailOf(backend)))]
  {
    hide Frames, TailOf, TailBytes;
    assert [] + backend == backend && [] + Items(Frames(backend)) == Items(Frames(backend));
  }

  /** There are such streams: the header of any message that is not a ReadyForQuery and has a payload. */
  lemma HeaderAloneIsTorn(h: Header)
    requires 0 < h.payloadLen <= MAX_PAYLOAD && !IsReady(h)
    ensures EndsInAMessage(EncodeHeader(h))
  {
    hide TailOf, EncodeHeader;
    StreamedTail(h, []);
    assert EncodeHeader(h) + [] == EncodeHeader(h);
  }
}
