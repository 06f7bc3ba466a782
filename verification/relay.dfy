/**
 The two pumps of relay (internal/proxy/pg/pg.go) that share the locked client writer
 and the recorded transaction status, as interleaved atomic moves.  A schedule is any
 sequence of moves; a move that is not enabled does nothing, so every interleaving,
 cut off at any point, is a schedule.
 */
module Relay {
  import opened Wire
  import opened Machine
  import opened Filter

  /** Who holds the writer's lock. */
  datatype Holder = Nobody | Client | Backend

  /** The client-to-upstream pump: between messages, waiting for the lock, or writing a reply. */
  datatype ClientPump =
    | Reading
    | Waiting(group: seq<Message>)
    | Writing(group: seq<Message>, sent: nat)

  /**
   The upstream-to-client pump: between messages, waiting for the lock with the header
   (or with a whole ReadyForQuery), copying a message under the lock, or stopped.
   */
  datatype BackendPump =
    | Framing
    | Queued(header: Header, avail: Bytes, missing: nat)
    | Copying(header: Header, done: Bytes, avail: Bytes, missing: nat)
    | Stopped(lost: Bytes)
    | Broken

  /** What one holder of the lock left on the client stream. */
  datatype Item =
    | FromBackend(m: Message)
    | Synthesized(group: seq<Message>)
    | Torn(bytes: Bytes)

  /** The shared state, what both pumps still have to read, and the history of the run. */
  datatype Sys = Sys(
    lock: Holder,
    out: Bytes,
    tx: Byte,
    backend: Bytes,
    bp: BackendPump,
    client: seq<Message>,
    cp: ClientPump,
    filter: Trace,
    ins: seq<Input>,
    seen: seq<nat>,
    statuses: seq<Byte>,
    log: seq<Item>)

  datatype Move =
    | ClientHandle
    | ClientLock
    | ClientWrite(k: nat)
    | ClientUnlock
    | BackendFrame
    | BackendLock
    | BackendRead(k: nat)
    | BackendWrite(k: nat)
    | BackendUnlock
    | BackendBreak

  function Start(backend: Bytes, client: seq<Message>): Sys {
    Sys(Nobody, [], 'I', backend, Framing, client, Reading, Trace(IDLE, [], []), [], [], [], [])
  }

  // ---- The client-to-upstream pump ----

  /** One client message is filtered with the status recorded at that moment; a reply waits for the lock. */
  function Handle(cfg: Config, s: Sys): Sys {
    if s.cp.Reading? && s.client != [] then
      var e := Step(cfg, s.filter.st, s.client[0], s.tx);
      s.(client := s.client[1..],
         cp := if e.reply == [] then Reading else Waiting(e.reply),
         filter := Extend(s.filter, e),
         ins := s.ins + [Input(s.client[0], s.tx)],
         seen := s.seen + [|s.statuses|])
    else s
  }

  function LockClient(s: Sys): Sys {
    if s.cp.Waiting? && s.lock == Nobody then s.(lock := Client, cp := Writing(s.cp.group, 0)) else s
  }

  function GroupBytes(group: seq<Message>): Bytes {
    if ValidMessages(group) then EncodeAll(group) else []
  }

  function WriteClient(s: Sys, k: nat): Sys {
    if s.cp.Writing? && s.cp.sent + k <= |GroupBytes(s.cp.group)| then
      s.(out := s.out + GroupBytes(s.cp.group)[s.cp.sent..s.cp.sent + k], cp := Writing(s.cp.group, s.cp.sent + k))
    else s
  }

  function UnlockClient(s: Sys): Sys {
    if s.cp.Writing? && s.cp.sent == |GroupBytes(s.cp.group)| then
      s.(lock := Nobody, cp := Reading, log := s.log + [Synthesized(s.cp.group)])
    else s
  }

  // ---- The upstream-to-client pump ----

  predicate IsReady(h: Header) {
    h.kind == 'Z' && h.payloadLen == 1
  }

  /** Reads a header, and of a ReadyForQuery also the status, which is recorded at once. */
  function Frame(s: Sys): Sys {
    if !s.bp.Framing? then s
    else
      match ReadHeader(s.backend)
      case Got(h) =>
        if !IsReady(h) then s.(backend := s.backend[5..], bp := Queued(h, s.backend[..5], h.payloadLen))
        else if |s.backend| < 6 then s.(backend := [], bp := Stopped(s.backend))
        else s.(backend := s.backend[6..], tx := s.backend[5], statuses := s.statuses + [s.backend[5]],
                bp := Queued(h, s.backend[..6], 0))
      case _ => s.(backend := [], bp := Stopped(s.backend))
  }

  function LockBackend(s: Sys): Sys {
    if s.bp.Queued? && s.lock == Nobody then
      s.(lock := Backend, bp := Copying(s.bp.header, [], s.bp.avail, s.bp.missing))
    else s
  }

  function ReadBackend(s: Sys, k: nat): Sys {
    if s.bp.Copying? && k <= s.bp.missing && k <= |s.backend| then
      s.(backend := s.backend[k..],
         bp := Copying(s.bp.header, s.bp.done, s.bp.avail + s.backend[..k], s.bp.missing - k))
    else s
  }

  function WriteBackend(s: Sys, k: nat): Sys {
    if s.bp.Copying? && k <= |s.bp.avail| then
      s.(out := s.out + s.bp.avail[..k],
         bp := Copying(s.bp.header, s.bp.done + s.bp.avail[..k], s.bp.avail[k..], s.bp.missing))
    else s
  }

  function UnlockBackend(s: Sys): Sys {
    if s.bp.Copying? && s.bp.avail == [] && s.bp.missing == 0 && |s.bp.done| >= 5 then
      s.(lock := Nobody, bp := Framing, log := s.log + [FromBackend(Message(s.bp.header.kind, s.bp.done[5..]))])
    else s
  }

  /** The backend's stream ends inside a message: the lock is given back with the message half written. */
  function Break(s: Sys): Sys {
    if s.bp.Copying? && s.bp.avail == [] && s.bp.missing > 0 && s.backend == [] then
      s.(lock := Nobody, bp := Broken, log := s.log + [Torn(s.bp.done)])
    else s
  }

  function Do(cfg: Config, s: Sys, mv: Move): Sys {
    match mv
    case ClientHandle => Handle(cfg, s)
    case ClientLock => LockClient(s)
    case ClientWrite(k) => WriteClient(s, k)
    case ClientUnlock => UnlockClient(s)
    case BackendFrame => Frame(s)
    case BackendLock => LockBackend(s)
    case BackendRead(k) => ReadBackend(s, k)
    case BackendWrite(k) => WriteBackend(s, k)
    case BackendUnlock => UnlockBackend(s)
    case BackendBreak => Break(s)
  }

  function Schedule(cfg: Config, s: Sys, moves: seq<Move>): Sys {
    if moves == [] then s else Do(cfg, Schedule(cfg, s, moves[..|moves| - 1]), moves[|moves| - 1])
  }

  lemma ScheduleNone(cfg: Config, s: Sys)
    ensures Schedule(cfg, s, []) == s
  {
  }

  lemma {:induction false} ScheduleAppend(cfg: Config, s: Sys, a: seq<Move>, b: seq<Move>)
    ensures Schedule(cfg, s, a + b) == Schedule(cfg, Schedule(cfg, s, a), b)
    decreases |b|
  {
    hide Do;
    if b == [] {
      assert a + b == a;
    } else {
      var c := b[..|b| - 1];
      ScheduleAppend(cfg, s, a, c);
      assert (a + b)[..|a + b| - 1] == a + c;
    }
  }

  lemma OneMove(cfg: Config, s: Sys, a: Move)
    ensures Schedule(cfg, s, [a]) == Do(cfg, s, a)
  {
    hide Do;
    assert [a][..0] == [];
  }

  // ---- The client stream ----

  predicate ValidItem(i: Item) {
    match i
    case FromBackend(m) => ValidMessage(m)
    case Synthesized(group) => ValidMessages(group)
    case Torn(_) => true
  }

  function ItemBytes(i: Item): Bytes {
    match i
    case FromBackend(m) => if ValidMessage(m) then Encode(m) else []
    case Synthesized(group) => GroupBytes(group)
    case Torn(bytes) => bytes
  }

  function LogBytes(log: seq<Item>): Bytes {
    if log == [] then [] else LogBytes(log[..|log| - 1]) + ItemBytes(log[|log| - 1])
  }

  /** The unfinished item of the lock holder. */
  function Partial(s: Sys): Bytes {
    if s.lock == Client && s.cp.Writing? && s.cp.sent <= |GroupBytes(s.cp.group)| then GroupBytes(s.cp.group)[..s.cp.sent]
    else if s.lock == Backend && s.bp.Copying? then s.bp.done
    else []
  }

  function TornCount(log: seq<Item>): nat {
    if log == [] then 0 else TornCount(log[..|log| - 1]) + if log[|log| - 1].Torn? then 1 else 0
  }

  predicate ValidLog(log: seq<Item>) {
    forall i :: i in log ==> ValidItem(i)
  }

  /** A backend message under way: what was read of it is a prefix of its frame. */
  predicate UnderWay(h: Header, read: Bytes, missing: nat) {
    && h.payloadLen <= MAX_PAYLOAD && |read| >= 5 && read[..5] == EncodeHeader(h)
    && |read| + missing == 5 + h.payloadLen
  }

  /** Each pump holds the lock exactly while it writes, and writes what it was meant to. */
  ghost predicate PumpInv(s: Sys) {
    && (s.lock == Client <==> s.cp.Writing?)
    && (s.lock == Backend <==> s.bp.Copying?)
    && (s.cp.Waiting? ==> ValidMessages(s.cp.group))
    && (s.cp.Writing? ==> ValidMessages(s.cp.group) && s.cp.sent <= |GroupBytes(s.cp.group)|)
    && (s.bp.Queued? ==> UnderWay(s.bp.header, s.bp.avail, s.bp.missing))
    && (s.bp.Copying? ==> UnderWay(s.bp.header, s.bp.done + s.bp.avail, s.bp.missing))
  }

  /** The client stream is the finished items and the unfinished one of the lock holder. */
  ghost predicate StreamInv(s: Sys) {
    && ValidLog(s.log)
    && s.out == LogBytes(s.log) + Partial(s)
    && TornCount(s.log) == if s.bp.Broken? then 1 else 0
  }

  ghost predicate OutInv(s: Sys) {
    PumpInv(s) && StreamInv(s)
  }

  lemma LogSnoc(log: seq<Item>, i: Item)
    ensures LogBytes(log + [i]) == LogBytes(log) + ItemBytes(i)
    ensures TornCount(log + [i]) == TornCount(log) + if i.Torn? then 1 else 0
    ensures ValidLog(log) && ValidItem(i) ==> ValidLog(log + [i])
  {
    assert (log + [i])[..|log|] == log;
  }

  lemma ReplyIsValid(cfg: Config, st: State, m: Message, tx: Byte)
    ensures ValidMessages(Step(cfg, st, m, tx).reply)
  {
    RefusalIsValid(cfg.pol, m);
    AnswersAreValid(tx);
    hide Refusal, Ready, ErrorFor, Fits, ValidMessage;
  }

  lemma HandleOut(cfg: Config, s: Sys)
    requires OutInv(s)
    ensures OutInv(Handle(cfg, s))
  {
    hide Step, ValidLog, LogBytes, TornCount, GroupBytes, UnderWay, Extend;
    if s.cp.Reading? && s.client != [] {
      ReplyIsValid(cfg, s.filter.st, s.client[0], s.tx);
    }
  }

  lemma LockClientOut(s: Sys)
    requires OutInv(s)
    ensures OutInv(LockClient(s))
  {
    hide ValidLog, LogBytes, TornCount, UnderWay;
    if s.cp.Waiting? && s.lock == Nobody {
      assert GroupBytes(s.cp.group)[..0] == [];
    }
  }

  lemma WriteClientOut(s: Sys, k: nat)
    requires OutInv(s)
    ensures OutInv(WriteClient(s, k))
  {
    hide ValidLog, LogBytes, TornCount, UnderWay, GroupBytes;
    if s.cp.Writing? && s.cp.sent + k <= |GroupBytes(s.cp.group)| {
      var b := GroupBytes(s.cp.group);
      assert b[..s.cp.sent + k] == b[..s.cp.sent] + b[s.cp.sent..s.cp.sent + k];
      assert LogBytes(s.log) + b[..s.cp.sent] + b[s.cp.sent..s.cp.sent + k] == LogBytes(s.log) + (b[..s.cp.sent] + b[s.cp.sent..s.cp.sent + k]);
    }
  }

  lemma UnlockClientOut(s: Sys)
    requires OutInv(s)
    ensures OutInv(UnlockClient(s))
  {
    hide ValidLog, LogBytes, TornCount, UnderWay, GroupBytes;
    if s.cp.Writing? && s.cp.sent == |GroupBytes(s.cp.group)| {
      LogSnoc(s.log, Synthesized(s.cp.group));
      var b := GroupBytes(s.cp.group);
      assert b[..|b|] == b;
      assert LogBytes(s.log) + b + [] == LogBytes(s.log) + b;
    }
  }

  lemma FrameOut(s: Sys)
    requires OutInv(s)
    ensures OutInv(Frame(s))
  {
    hide ValidLog, LogBytes, TornCount, GroupBytes, ReadHeader, EncodeHeader;
    if s.bp.Framing? && ReadHeader(s.backend).Got? {
      HeaderReadEncodes(s.backend);
      assert s.backend[..5][..5] == s.backend[..5];
      if |s.backend| >= 6 { assert s.backend[..6][..5] == s.backend[..5]; }
    }
  }

  lemma LockBackendOut(s: Sys)
    requires OutInv(s)
    ensures OutInv(LockBackend(s))
  {
    hide ValidLog, LogBytes, TornCount, GroupBytes, UnderWay;
    if s.bp.Queued? { assert [] + s.bp.avail == s.bp.avail; }
  }

  lemma ReadBackendOut(s: Sys, k: nat)
    requires OutInv(s)
    ensures OutInv(ReadBackend(s, k))
  {
    hide ValidLog, LogBytes, TornCount, GroupBytes, EncodeHeader;
    if s.bp.Copying? && k <= |s.backend| {
      assert s.bp.done + (s.bp.avail + s.backend[..k]) == (s.bp.done + s.bp.avail) + s.backend[..k];
      assert ((s.bp.done + s.bp.avail) + s.backend[..k])[..5] == (s.bp.done + s.bp.avail)[..5];
    }
  }

  lemma WriteBackendOut(s: Sys, k: nat)
    requires OutInv(s)
    ensures OutInv(WriteBackend(s, k))
  {
    hide ValidLog, LogBytes, TornCount, GroupBytes, UnderWay;
    if s.bp.Copying? && k <= |s.bp.avail| {
      assert (s.bp.done + s.bp.avail[..k]) + s.bp.avail[k..] == s.bp.done + s.bp.avail;
      assert LogBytes(s.log) + s.bp.done + s.bp.avail[..k] == LogBytes(s.log) + (s.bp.done + s.bp.avail[..k]);
    }
  }

  /** A message that was copied whole is the frame of that message. */
  lemma CopiedWhole(h: Header, done: Bytes)
    requires UnderWay(h, done, 0)
    ensures var m := Message(h.kind, done[5..]); ValidMessage(m) && Encode(m) == done && |done[5..]| == h.payloadLen
  {
    assert done == done[..5] + done[5..];
  }

  lemma UnlockBackendOut(s: Sys)
    requires OutInv(s)
    ensures OutInv(UnlockBackend(s))
  {
    hide ValidLog, LogBytes, TornCount, GroupBytes, UnderWay, Encode, ValidMessage;
    if s.bp.Copying? && s.bp.avail == [] && s.bp.missing == 0 && |s.bp.done| >= 5 {
      assert s.bp.done + [] == s.bp.done;
      CopiedWhole(s.bp.header, s.bp.done);
      LogSnoc(s.log, FromBackend(Message(s.bp.header.kind, s.bp.done[5..])));
      assert LogBytes(s.log) + s.bp.done + [] == LogBytes(s.log) + s.bp.done;
    }
  }

  lemma BreakOut(s: Sys)
    requires OutInv(s)
    ensures OutInv(Break(s))
  {
    hide ValidLog, LogBytes, TornCount, GroupBytes, UnderWay;
    if s.bp.Copying? {
      LogSnoc(s.log, Torn(s.bp.done));
      assert LogBytes(s.log) + s.bp.done + [] == LogBytes(s.log) + s.bp.done;
    }
  }

  lemma DoOut(cfg: Config, s: Sys, mv: Move)
    requires OutInv(s)
    ensures OutInv(Do(cfg, s, mv))
  {
    hide OutInv, Handle, LockClient, WriteClient, UnlockClient, Frame, LockBackend, ReadBackend, WriteBackend, UnlockBackend, Break;
    match mv
    case ClientHandle => HandleOut(cfg, s);
    case ClientLock => LockClientOut(s);
    case ClientWrite(k) => WriteClientOut(s, k);
    case ClientUnlock => UnlockClientOut(s);
    case BackendFrame => FrameOut(s);
    case BackendLock => LockBackendOut(s);
    case BackendRead(k) => ReadBackendOut(s, k);
    case BackendWrite(k) => WriteBackendOut(s, k);
    case BackendUnlock => UnlockBackendOut(s);
    case BackendBreak => BreakOut(s);
  }

  lemma {:induction false} ScheduleOut(cfg: Config, backend: Bytes, client: seq<Message>, moves: seq<Move>)
    ensures OutInv(Schedule(cfg, Start(backend, client), moves))
    decreases |moves|
  {
    hide Do;
    if moves != [] {
      ScheduleOut(cfg, backend, client, moves[..|moves| - 1]);
      DoOut(cfg, Schedule(cfg, Start(backend, client), moves[..|moves| - 1]), moves[|moves| - 1]);
    }
  }

  // ---- The backend's messages, in order and verbatim ----

  function BackendBytes(log: seq<Item>): Bytes {
    if log == [] then []
    else
      var i := log[|log| - 1];
      BackendBytes(log[..|log| - 1]) + if i.Synthesized? then [] else ItemBytes(i)
  }

  /** What the backend pump has read and not yet finished. */
  function InFlight(bp: BackendPump): Bytes {
    match bp
    case Framing => []
    case Queued(_, avail, _) => avail
    case Copying(_, done, avail, _) => done + avail
    case Stopped(lost) => lost
    case Broken => []
  }

  /** The status a ReadyForQuery carries. */
  function StatusOf(m: Message): seq<Byte> {
    if m.kind == 'Z' && |m.payload| == 1 then m.payload else []
  }

  function LogStatuses(log: seq<Item>): seq<Byte> {
    if log == [] then []
    else
      var i := log[|log| - 1];
      LogStatuses(log[..|log| - 1]) + if i.FromBackend? then StatusOf(i.m) else []
  }

  function FrameStatus(h: Header, read: Bytes): seq<Byte> {
    if IsReady(h) then read[if |read| < 5 then |read| else 5..] else []
  }

  /** The status that is recorded but whose message is not finished yet. */
  function PendingStatus(bp: BackendPump): seq<Byte> {
    match bp
    case Queued(h, avail, _) => FrameStatus(h, avail)
    case Copying(h, done, avail, _) => FrameStatus(h, done + avail)
    case _ => []
  }

  function LastStatus(statuses: seq<Byte>): Byte {
    if statuses == [] then 'I' else statuses[|statuses| - 1]
  }

  /** A ReadyForQuery is read whole before it is recorded. */
  predicate ReadyIsWhole(bp: BackendPump) {
    (bp.Queued? && IsReady(bp.header) ==> bp.missing == 0) && (bp.Copying? && IsReady(bp.header) ==> bp.missing == 0)
  }

  ghost predicate BackendInv(backend: Bytes, s: Sys) {
    && BackendBytes(s.log) + InFlight(s.bp) + s.backend == backend
    && s.statuses == LogStatuses(s.log) + PendingStatus(s.bp)
    && s.tx == LastStatus(s.statuses)
    && ReadyIsWhole(s.bp)
  }

  lemma BackendLogSnoc(log: seq<Item>, i: Item)
    ensures BackendBytes(log + [i]) == BackendBytes(log) + if i.Synthesized? then [] else ItemBytes(i)
    ensures LogStatuses(log + [i]) == LogStatuses(log) + if i.FromBackend? then StatusOf(i.m) else []
  {
    assert (log + [i])[..|log|] == log;
  }

  lemma ClientMovesBackend(cfg: Config, backend: Bytes, s: Sys, k: nat)
    requires BackendInv(backend, s)
    ensures BackendInv(backend, Handle(cfg, s)) && BackendInv(backend, LockClient(s))
    ensures BackendInv(backend, WriteClient(s, k)) && BackendInv(backend, UnlockClient(s))
  {
    hide Step, Extend, BackendBytes, LogStatuses, InFlight, PendingStatus, LastStatus, ReadyIsWhole, GroupBytes;
    if s.cp.Writing? {
      BackendLogSnoc(s.log, Synthesized(s.cp.group));
      assert BackendBytes(s.log) + [] == BackendBytes(s.log) && LogStatuses(s.log) + [] == LogStatuses(s.log);
    }
  }

  lemma FrameBackend(backend: Bytes, s: Sys)
    requires BackendInv(backend, s)
    ensures BackendInv(backend, Frame(s))
  {
    hide BackendBytes, LogStatuses, ReadHeader;
    if s.bp.Framing? {
      assert s.statuses == LogStatuses(s.log);
      assert BackendBytes(s.log) + [] + s.backend == BackendBytes(s.log) + s.backend;
      assert BackendBytes(s.log) + s.backend + [] == BackendBytes(s.log) + s.backend;
      SplitAt(BackendBytes(s.log), s.backend, 5);
      SplitAt(BackendBytes(s.log), s.backend, 6);
      assert LogStatuses(s.log) + [] == LogStatuses(s.log);
      if |s.backend| >= 6 { assert s.backend[..6][5..] == [s.backend[5]]; }
    }
  }

  lemma SplitAt(a: Bytes, b: Bytes, k: nat)
    ensures k <= |b| ==> a + b[..k] + b[k..] == a + b
  {
  }

  lemma LockBackendBackend(backend: Bytes, s: Sys)
    requires BackendInv(backend, s)
    ensures BackendInv(backend, LockBackend(s))
  {
    hide BackendBytes, LogStatuses;
    if s.bp.Queued? { assert [] + s.bp.avail == s.bp.avail; }
  }

  lemma ReadBackendBackend(backend: Bytes, s: Sys, k: nat)
    requires BackendInv(backend, s)
    ensures BackendInv(backend, ReadBackend(s, k))
  {
    hide BackendBytes, LogStatuses, LastStatus;
    if s.bp.Copying? && k <= |s.backend| && k <= s.bp.missing {
      var read := s.bp.done + s.bp.avail;
      assert s.bp.done + (s.bp.avail + s.backend[..k]) == read + s.backend[..k];
      assert BackendBytes(s.log) + (read + s.backend[..k]) + s.backend[k..] == BackendBytes(s.log) + read + s.backend;
      if IsReady(s.bp.header) {
        assert s.backend[..k] == [] && read + [] == read;
      }
    }
  }

  lemma WriteBackendBackend(backend: Bytes, s: Sys, k: nat)
    requires BackendInv(backend, s)
    ensures BackendInv(backend, WriteBackend(s, k))
  {
    hide BackendBytes, LogStatuses, LastStatus;
    if s.bp.Copying? && k <= |s.bp.avail| {
      assert (s.bp.done + s.bp.avail[..k]) + s.bp.avail[k..] == s.bp.done + s.bp.avail;
    }
  }

  lemma UnlockBackendBackend(backend: Bytes, s: Sys)
    requires BackendInv(backend, s) && PumpInv(s)
    ensures BackendInv(backend, UnlockBackend(s))
  {
    hide BackendBytes, LogStatuses, LastStatus, Encode, ValidMessage, GroupBytes;
    if s.bp.Copying? && s.bp.avail == [] && s.bp.missing == 0 && |s.bp.done| >= 5 {
      var m := Message(s.bp.header.kind, s.bp.done[5..]);
      assert s.bp.done + [] == s.bp.done;
      CopiedWhole(s.bp.header, s.bp.done);
      BackendLogSnoc(s.log, FromBackend(m));
      assert FrameStatus(s.bp.header, s.bp.done) == StatusOf(m);
      assert BackendBytes(s.log) + s.bp.done + [] == BackendBytes(s.log) + s.bp.done;
      assert LogStatuses(s.log) + StatusOf(m) + [] == LogStatuses(s.log) + StatusOf(m);
    }
  }

  lemma BreakBackend(backend: Bytes, s: Sys)
    requires BackendInv(backend, s)
    ensures BackendInv(backend, Break(s))
  {
    hide BackendBytes, LogStatuses, LastStatus;
    if s.bp.Copying? && s.bp.avail == [] && s.bp.missing > 0 {
      assert s.bp.done + [] == s.bp.done;
      BackendLogSnoc(s.log, Torn(s.bp.done));
      assert BackendBytes(s.log) + s.bp.done + [] == BackendBytes(s.log) + s.bp.done;
      assert LogStatuses(s.log) + [] == LogStatuses(s.log);
    }
  }

  lemma DoBackend(cfg: Config, backend: Bytes, s: Sys, mv: Move)
    requires BackendInv(backend, s) && PumpInv(s)
    ensures BackendInv(backend, Do(cfg, s, mv))
  {
    hide BackendInv, PumpInv, Handle, LockClient, WriteClient, UnlockClient, Frame, LockBackend, ReadBackend, WriteBackend,
      UnlockBackend, Break;
    match mv
    case ClientHandle => ClientMovesBackend(cfg, backend, s, 0);
    case ClientLock => ClientMovesBackend(cfg, backend, s, 0);
    case ClientWrite(k) => ClientMovesBackend(cfg, backend, s, k);
    case ClientUnlock => ClientMovesBackend(cfg, backend, s, 0);
    case BackendFrame => FrameBackend(backend, s);
    case BackendLock => LockBackendBackend(backend, s);
    case BackendRead(k) => ReadBackendBackend(backend, s, k);
    case BackendWrite(k) => WriteBackendBackend(backend, s, k);
    case BackendUnlock => UnlockBackendBackend(backend, s);
    case BackendBreak => BreakBackend(backend, s);
  }

  lemma {:induction false} ScheduleBackend(cfg: Config, backend: Bytes, client: seq<Message>, moves: seq<Move>)
    ensures BackendInv(backend, Schedule(cfg, Start(backend, client), moves))
    decreases |moves|
  {
    hide Do;
    if moves == [] {
      assert [] + [] + backend == backend;
    } else {
      var front := moves[..|moves| - 1];
      ScheduleBackend(cfg, backend, client, front);
      ScheduleOut(cfg, backend, client, front);
      DoBackend(cfg, backend, Schedule(cfg, Start(backend, client), front), moves[|moves| - 1]);
    }
  }

  // ---- The proxy's answers, in order and truthful ----

  function LogGroups(log: seq<Item>): seq<seq<Message>> {
    if log == [] then []
    else
      var i := log[|log| - 1];
      LogGroups(log[..|log| - 1]) + if i.Synthesized? then [i.group] else []
  }

  function PendingGroup(cp: ClientPump): seq<seq<Message>> {
    match cp
    case Reading => []
    case Waiting(group) => [group]
    case Writing(group, _) => [group]
  }

  /** Input j was handled when the first seen[j] statuses had been recorded. */
  ghost predicate Truthful(ins: seq<Input>, seen: seq<nat>, statuses: seq<Byte>) {
    && |seen| == |ins|
    && forall j :: 0 <= j < |ins| ==> seen[j] <= |statuses| && ins[j].tx == LastStatus(statuses[..seen[j]])
  }

  ghost predicate ClientInv(cfg: Config, client: seq<Message>, s: Sys) {
    && s.filter == Run(cfg, IDLE, s.ins)
    && Messages(s.ins) + s.client == client
    && LogGroups(s.log) + PendingGroup(s.cp) == s.filter.replies
    && Truthful(s.ins, s.seen, s.statuses)
  }

  lemma GroupsSnoc(log: seq<Item>, i: Item)
    ensures LogGroups(log + [i]) == LogGroups(log) + if i.Synthesized? then [i.group] else []
  {
    assert (log + [i])[..|log|] == log;
  }

  lemma TruthfulSnoc(ins: seq<Input>, seen: seq<nat>, statuses: seq<Byte>, i: Input)
    requires Truthful(ins, seen, statuses) && i.tx == LastStatus(statuses)
    ensures Truthful(ins + [i], seen + [|statuses|], statuses)
  {
    hide LastStatus;
    assert statuses[..|statuses|] == statuses;
  }

  lemma TruthfulLater(ins: seq<Input>, seen: seq<nat>, statuses: seq<Byte>, status: Byte)
    requires Truthful(ins, seen, statuses)
    ensures Truthful(ins, seen, statuses + [status])
  {
    hide LastStatus;
    forall j | 0 <= j < |ins| ensures (statuses + [status])[..seen[j]] == statuses[..seen[j]] {
    }
  }

  lemma HandleClient(cfg: Config, client: seq<Message>, s: Sys)
    requires ClientInv(cfg, client, s) && s.tx == LastStatus(s.statuses)
    ensures ClientInv(cfg, client, Handle(cfg, s))
  {
    hide Step, Run, Messages, LogGroups, Truthful, LastStatus;
    if s.cp.Reading? && s.client != [] {
      var i := Input(s.client[0], s.tx);
      RunSnoc(cfg, IDLE, s.ins, i);
      TruthfulSnoc(s.ins, s.seen, s.statuses, i);
      assert Messages(s.ins) + [s.client[0]] + s.client[1..] == Messages(s.ins) + s.client;
      assert LogGroups(s.log) + [] == LogGroups(s.log);
    }
  }

  lemma UnlockClientClient(cfg: Config, client: seq<Message>, s: Sys)
    requires ClientInv(cfg, client, s)
    ensures ClientInv(cfg, client, UnlockClient(s))
  {
    hide Run, Messages, LogGroups, Truthful, GroupBytes;
    if s.cp.Writing? {
      GroupsSnoc(s.log, Synthesized(s.cp.group));
      assert LogGroups(s.log) + [s.cp.group] + [] == LogGroups(s.log) + [s.cp.group];
    }
  }

  lemma FrameClient(cfg: Config, client: seq<Message>, s: Sys)
    requires ClientInv(cfg, client, s)
    ensures ClientInv(cfg, client, Frame(s))
  {
    hide Run, Messages, LogGroups, Truthful, ReadHeader;
    if |s.backend| >= 6 {
      TruthfulLater(s.ins, s.seen, s.statuses, s.backend[5]);
    }
  }

  lemma FinishedClient(cfg: Config, client: seq<Message>, s: Sys)
    requires ClientInv(cfg, client, s)
    ensures ClientInv(cfg, client, UnlockBackend(s)) && ClientInv(cfg, client, Break(s))
  {
    hide Run, Messages, LogGroups, Truthful, PendingGroup;
    if s.bp.Copying? {
      GroupsSnoc(s.log, Torn(s.bp.done));
      if |s.bp.done| >= 5 {
        GroupsSnoc(s.log, FromBackend(Message(s.bp.header.kind, s.bp.done[5..])));
      }
      assert LogGroups(s.log) + [] == LogGroups(s.log);
    }
  }

  /** Moves that only shift bytes or the lock. */
  lemma PlainClient(cfg: Config, client: seq<Message>, s: Sys, k: nat)
    requires ClientInv(cfg, client, s)
    ensures ClientInv(cfg, client, LockClient(s)) && ClientInv(cfg, client, WriteClient(s, k))
    ensures ClientInv(cfg, client, LockBackend(s)) && ClientInv(cfg, client, ReadBackend(s, k))
    ensures ClientInv(cfg, client, WriteBackend(s, k))
  {
    hide Run, Messages, LogGroups, Truthful, GroupBytes;
  }

  lemma DoClient(cfg: Config, client: seq<Message>, s: Sys, mv: Move)
    requires ClientInv(cfg, client, s) && s.tx == LastStatus(s.statuses)
    ensures ClientInv(cfg, client, Do(cfg, s, mv))
  {
    hide ClientInv, LastStatus, Handle, LockClient, WriteClient, UnlockClient, Frame, LockBackend, ReadBackend, WriteBackend,
      UnlockBackend, Break;
    match mv
    case ClientHandle => HandleClient(cfg, client, s);
    case ClientLock => PlainClient(cfg, client, s, 0);
    case ClientWrite(k) => PlainClient(cfg, client, s, k);
    case ClientUnlock => UnlockClientClient(cfg, client, s);
    case BackendFrame => FrameClient(cfg, client, s);
    case BackendLock => PlainClient(cfg, client, s, 0);
    case BackendRead(k) => PlainClient(cfg, client, s, k);
    case BackendWrite(k) => PlainClient(cfg, client, s, k);
    case BackendUnlock => FinishedClient(cfg, client, s);
    case BackendBreak => FinishedClient(cfg, client, s);
  }

  lemma {:induction false} ScheduleClient(cfg: Config, backend: Bytes, client: seq<Message>, moves: seq<Move>)
    ensures ClientInv(cfg, client, Schedule(cfg, Start(backend, client), moves))
    decreases |moves|
  {
    hide Do;
    if moves == [] {
      assert Messages([]) + client == client;
    } else {
      var front := moves[..|moves| - 1];
      ScheduleClient(cfg, backend, client, front);
      ScheduleBackend(cfg, backend, client, front);
      DoClient(cfg, client, Schedule(cfg, Start(backend, client), front), moves[|moves| - 1]);
    }
  }
}
