/**
 copyMessages of internal/proxy/pg/pg.go: the loop that reads a client stream to its
 end, proved to have exactly the effects of the message machine for every byte
 stream, and what that means for the bytes the backend receives.
 */
module Session {
  import opened Wire
  import opened Streams
  import opened Policies
  import opened Machine
  import opened Filter

  /** How the client-to-upstream pump ends. */
  datatype Outcome = HalfClose | Disconnected | ProtocolError

  /** The i-th message is answered, if at all, while the backend status tx(i) is recorded. */
  function Inputs(ms: seq<Message>, tx: nat -> Byte): (ins: seq<Input>)
    ensures |ins| == |ms|
  {
    seq(|ms|, i requires 0 <= i < |ms| => Input(ms[i], tx(i)))
  }

  function ClientWrites(replies: seq<seq<Message>>): seq<Bytes>
    requires forall r :: r in replies ==> ValidMessages(r)
  {
    if replies == [] then []
    else ClientWrites(replies[..|replies| - 1]) + ReplyWrites(replies[|replies| - 1])
  }

  predicate ValidTrace(t: Trace) {
    ValidMessages(t.st.held) && ValidMessages(t.up) && forall r :: r in t.replies ==> ValidMessages(r)
  }

  function TraceUp(t: Trace): Bytes
    requires ValidTrace(t)
  {
    EncodeAll(t.up)
  }

  function TraceWrites(t: Trace): seq<Bytes>
    requires ValidTrace(t)
  {
    ClientWrites(t.replies)
  }

  /** The machine's run on the whole messages of a client stream. */
  function SessionRun(cfg: Config, client: Bytes, tx: nat -> Byte): Trace {
    Run(cfg, IDLE, Inputs(Frames(client), tx))
  }

  /** What the backend receives of a client stream. */
  function SessionUp(cfg: Config, scratchMax: nat, client: Bytes, tx: nat -> Byte): Bytes
    requires ValidTrace(SessionRun(cfg, client, tx))
  {
    var t := SessionRun(cfg, client, tx);
    TraceUp(t) + TailUp(cfg, scratchMax, t.st, TailOf(client))
  }

  function TailUp(cfg: Config, scratchMax: nat, st: State, tail: Tail): Bytes
    requires ValidMessages(st.held) && (tail.InPayload? ==> tail.header.payloadLen <= MAX_PAYLOAD)
  {
    if tail.InPayload? then TruncatedUp(cfg, scratchMax, st, tail.header, tail.bytes) else []
  }

  function OutcomeOf(tail: Tail): Outcome {
    match tail
    case AtBoundary => HalfClose
    case InHeader(_) => Disconnected
    case Malformed(_) => ProtocolError
    case InPayload(_, _) => Disconnected
  }

  /**
   A half-close is a stream that is whole messages and nothing else, and a protocol error
   one that goes on with a length out of range.
   */
  lemma OutcomeExactly(client: Bytes)
    ensures OutcomeOf(TailOf(client)) == HalfClose <==> EncodeAll(Frames(client)) == client
    ensures OutcomeOf(TailOf(client)) == ProtocolError <==> TailOf(client).Malformed?
  {
    hide Frames, TailOf, EncodeAll;
    CleanEndMeansWholeFrames(client);
  }

  /** Every reply is one locked write, its messages back to back. */
  lemma {:induction false} RepliesAreWrites(replies: seq<seq<Message>>, k: nat)
    requires k < |replies| && forall r :: r in replies ==> ValidMessages(r) && r != []
    ensures |ClientWrites(replies)| == |replies| && ClientWrites(replies)[k] == EncodeAll(replies[k])
    decreases |replies|
  {
    hide EncodeAll, ValidMessages;
    var front, last := replies[..|replies| - 1], replies[|replies| - 1];
    assert last in replies;
    if front != [] {
      RepliesAreWrites(front, if k < |front| then k else 0);
    }
  }

  // ---- The loop ----

  lemma InputsSnoc(ms: seq<Message>, m: Message, tx: nat -> Byte)
    ensures Inputs(ms + [m], tx) == Inputs(ms, tx) + [Input(m, tx(|ms|))]
    ensures Messages(Inputs(ms, tx)) == ms
  {
  }

  lemma ExtendIsValid(t: Trace, e: Effect)
    requires ValidTrace(t) && ValidEffect(e)
    ensures ValidTrace(Extend(t, e))
    ensures EncodeAll(Extend(t, e).up) == EncodeAll(t.up) + EncodeAll(e.up)
    ensures ClientWrites(Extend(t, e).replies) == ClientWrites(t.replies) + ReplyWrites(e.reply)
  {
    EncodeAllAppend(t.up, e.up);
    hide EncodeAll, ValidMessages;
    var rs := Extend(t, e).replies;
    if e.reply == [] {
      assert rs == t.replies && ClientWrites(t.replies) + [] == ClientWrites(t.replies);
    } else {
      assert rs[..|t.replies|] == t.replies && rs[|t.replies|] == e.reply;
    }
  }

  /** One message: the trace of the messages handled so far grows by one step. */
  lemma RunStep(cfg: Config, ms: seq<Message>, m: Message, tx: nat -> Byte)
    requires ValidTrace(Run(cfg, IDLE, Inputs(ms, tx))) && ValidMessage(m)
    ensures var t := Run(cfg, IDLE, Inputs(ms, tx));
            var e := Step(cfg, t.st, m, tx(|ms|));
            var u := Run(cfg, IDLE, Inputs(ms + [m], tx));
            && ValidEffect(e) && ValidTrace(u) && u.st == e.next
            && TraceUp(u) == TraceUp(t) + EncodeAll(e.up)
            && TraceWrites(u) == TraceWrites(t) + ReplyWrites(e.reply)
  {
    hide Run, Step, Inputs, EncodeAll, ClientWrites, ReplyWrites, ValidMessage, Written;
    InputsSnoc(ms, m, tx);
    RunSnoc(cfg, IDLE, Inputs(ms, tx), Input(m, tx(|ms|)));
    var t := Run(cfg, IDLE, Inputs(ms, tx));
    StepIsValid(cfg, t.st, m, tx(|ms|));
    ExtendIsValid(t, Step(cfg, t.st, m, tx(|ms|)));
  }

  lemma {:induction false} RunIsValid(cfg: Config, ms: seq<Message>, tx: nat -> Byte)
    requires ValidMessages(ms)
    ensures ValidTrace(Run(cfg, IDLE, Inputs(ms, tx)))
    decreases |ms|
  {
    if ms != [] {
      hide Run, Step, Inputs, ValidTrace, ValidMessage, EncodeAll, ClientWrites;
      var front, m := ms[..|ms| - 1], ms[|ms| - 1];
      assert m in ms && ms == front + [m];
      RunIsValid(cfg, front, tx);
      RunStep(cfg, front, m, tx);
    }
  }

  lemma SessionIsValid(cfg: Config, client: Bytes, tx: nat -> Byte)
    ensures ValidTrace(SessionRun(cfg, client, tx))
  {
    RunIsValid(cfg, Frames(client), tx);
  }

  method ReadHeaderFrom(src: Source) returns (r: HeaderRead)
    modifies src
    ensures r == ReadHeader(old(src.rest))
    ensures r.Got? ==> src.rest == old(src.rest)[5..]
  {
    if src.rest == [] {
      return CleanEnd;
    }
    var head := new Byte[5];
    ghost var before := src.rest;
    var ok := src.ReadFull(head, 0, 5);
    if !ok {
      return BrokenHeader;
    }
    assert head[0..5] == before[..5];
    assert head[0] == head[0..5][0] == before[0];
    assert head[1..5] == head[0..5][1..5] == before[1..5];
    var length := FromBe32(head[1..5]);
    if length < 4 || length > MAX_MESSAGE_LENGTH {
      return BadLength;
    }
    r := Got(Header(head[0], length - 4));
  }

  /** The messages handled so far and the stream still to come are the client's stream. */
  ghost predicate Handled(client: Bytes, done: seq<Message>, rest: Bytes) {
    ValidMessages(done) && Frames(client) == done + Frames(rest) && TailOf(client) == TailOf(rest)
  }

  lemma HandledWhole(client: Bytes, done: seq<Message>, rest: Bytes)
    requires Handled(client, done, rest)
    ensures ReadHeader(rest).Got? ==>
            var h := ReadHeader(rest).header;
            var payload := rest[5..];
            if h.payloadLen <= |payload|
            then var m := Message(h.kind, payload[..h.payloadLen]);
                 ValidMessage(m) && Handled(client, done + [m], payload[h.payloadLen..])
            else Frames(client) == done && TailOf(client) == InPayload(h, payload)
    ensures !ReadHeader(rest).Got? ==> Frames(client) == done && TailOf(client) == Incomplete(rest)
  {
    hide ReadHeader;
    if Complete(rest) {
      var h := ReadHeader(rest).header;
      assert rest[5..][..h.payloadLen] == rest[5..5 + h.payloadLen];
      assert rest[5..][h.payloadLen..] == rest[5 + h.payloadLen..];
      assert done + ([FirstMessage(rest)] + Frames(AfterFirst(rest))) == done + [FirstMessage(rest)] + Frames(AfterFirst(rest));
    } else {
      assert done + [] == done;
    }
  }

  lemma NothingHandled(cfg: Config, client: Bytes, tx: nat -> Byte, up: Bytes, writes: seq<Bytes>)
    ensures Handled(client, [], client) && Run(cfg, IDLE, Inputs([], tx)).st == IDLE
    ensures ValidTrace(Run(cfg, IDLE, Inputs([], tx)))
    ensures up + TraceUp(Run(cfg, IDLE, Inputs([], tx))) == up
    ensures writes + TraceWrites(Run(cfg, IDLE, Inputs([], tx))) == writes
  {
    assert Inputs([], tx) == [];
    assert [] + Frames(client) == Frames(client);
  }

  lemma Joined(up: Bytes, a: Bytes, b: Bytes, writes: seq<Bytes>, c: seq<Bytes>, d: seq<Bytes>)
    ensures up + a + b == up + (a + b) && writes + c + d == writes + (c + d)
  {
  }

  /** The stream stopped between messages, in a header, or at a malformed one: nothing more is sent. */
  lemma StoppedAtHeader(cfg: Config, scratchMax: nat, client: Bytes, done: seq<Message>, tx: nat -> Byte, rest: Bytes)
    requires ValidTrace(SessionRun(cfg, client, tx)) && Frames(client) == done
    requires !ReadHeader(rest).Got? && TailOf(client) == Incomplete(rest)
    ensures SessionUp(cfg, scratchMax, client, tx) == TraceUp(Run(cfg, IDLE, Inputs(done, tx)))
    ensures OutcomeOf(TailOf(client)) ==
            if ReadHeader(rest) == CleanEnd then HalfClose
            else if ReadHeader(rest) == BrokenHeader then Disconnected
            else ProtocolError
  {
    hide Run, Inputs, Frames, TailOf, TraceUp;
    var up := TraceUp(Run(cfg, IDLE, Inputs(done, tx)));
    assert up + [] == up;
  }

  /**
   For every client byte stream, every policy and every budget: the bytes sent
   upstream and the locked client writes are those of the machine, and the pump
   reports a half-close exactly when the stream ends between two messages.
   */
  method CopyMessages(
    upstream: Sink, clientW: SyncWriter, src: Source, pol: Policy, tx: nat -> Byte, maxHeld: nat, scratchMax: nat
  ) returns (outcome: Outcome)
    modifies upstream, clientW, src
    ensures var cfg := Config(pol, maxHeld);
            var client := old(src.rest);
            && ValidTrace(SessionRun(cfg, client, tx))
            && upstream.written == old(upstream.written) + SessionUp(cfg, scratchMax, client, tx)
            && clientW.writes == old(clientW.writes) + TraceWrites(SessionRun(cfg, client, tx))
            && outcome == OutcomeOf(TailOf(client))
  {
    hide ReadHeader, Frames, TailOf, Run, Inputs, Step, Handled, ValidTrace, EncodeAll, TruncatedUp, ValidMessage, TraceUp, TraceWrites,
      ReplyWrites, Incomplete;
    var f := new MsgFilter(clientW, upstream, src, pol, maxHeld, scratchMax);
    ghost var cfg := Config(pol, maxHeld);
    ghost var client := src.rest;
    ghost var up0, writes0 := upstream.written, clientW.writes;
    ghost var done: seq<Message> := [];
    var n: nat := 0;
    SessionIsValid(cfg, client, tx);
    NothingHandled(cfg, client, tx, up0, writes0);
    while true
      invariant f.Valid() && f.Cfg() == cfg && f.scratchMax == scratchMax
      invariant f.src == src && f.upstream == upstream && f.clientW == clientW
      invariant fresh(f) && fresh(f.scratch) && fresh(f.heldBuf)
      invariant Handled(client, done, src.rest) && n == |done|
      invariant ValidTrace(Run(cfg, IDLE, Inputs(done, tx))) && f.Abs() == Run(cfg, IDLE, Inputs(done, tx)).st
      invariant upstream.written == up0 + TraceUp(Run(cfg, IDLE, Inputs(done, tx)))
      invariant clientW.writes == writes0 + TraceWrites(Run(cfg, IDLE, Inputs(done, tx)))
      decreases |src.rest|
    {
      ghost var rest := src.rest;
      HandledWhole(client, done, rest);
      ghost var t := Run(cfg, IDLE, Inputs(done, tx));
      var r := ReadHeaderFrom(src);
      if !r.Got? {
        StoppedAtHeader(cfg, scratchMax, client, done, tx, rest);
        return if r == CleanEnd then HalfClose else if r == BrokenHeader then Disconnected else ProtocolError;
      }
      ghost var payload := src.rest;
      var ok := f.Handle(r.header, tx(n));
      if !ok {
        Joined(up0, TraceUp(t), TruncatedUp(cfg, scratchMax, t.st, r.header, payload), [], [], []);
        return Disconnected;
      }
      ghost var m := Message(r.header.kind, payload[..r.header.payloadLen]);
      RunStep(cfg, done, m, tx);
      ghost var e := Step(cfg, t.st, m, tx(n));
      Joined(up0, TraceUp(t), EncodeAll(e.up), writes0, TraceWrites(t), ReplyWrites(e.reply));
      done := done + [m];
      n := n + 1;
    }
  }
}
