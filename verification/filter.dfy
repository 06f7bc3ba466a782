/**
 The policy filter of internal/proxy/pg/pg.go over bytes: one scratch array that is
 reused for every inspected payload, one growing array for the held batch, and
 the four ways to dispose of a payload.  Every method is proved against the pure
 machine, so a client stream has exactly the effects the machine has on its messages.
 */
module Filter {
  import opened Wrappers
  import opened Wire
  import opened Streams
  import opened Policies
  import opened Machine

  const SCRATCH_MAX: nat := 0x1_0000

  lemma {:induction false} WireLenIsLength(ms: seq<Message>)
    requires ValidMessages(ms)
    ensures |EncodeAll(ms)| == WireLen(ms)
    ensures EncodeAll(ms) == [] <==> ms == []
    decreases |ms|
  {
    if ms != [] {
      var front, m := ms[..|ms| - 1], ms[|ms| - 1];
      assert ms == front + [m] && m in ms;
      WireLenIsLength(front);
      EncodeSnoc(front, m);
    }
  }

  lemma EncodeSnoc(ms: seq<Message>, m: Message)
    requires ValidMessages(ms) && ValidMessage(m)
    ensures ValidMessages(ms + [m]) && EncodeAll(ms + [m]) == EncodeAll(ms) + EncodeHeader(HeaderOf(m)) + m.payload
  {
    EncodeAllAppend(ms, [m]);
    EncodeOne(m);
    assert EncodeAll(ms) + (EncodeHeader(HeaderOf(m)) + m.payload) == EncodeAll(ms) + EncodeHeader(HeaderOf(m)) + m.payload;
  }

  /** The locked client write of a reply. */
  function ReplyWrites(reply: seq<Message>): seq<Bytes>
    requires ValidMessages(reply)
  {
    if reply == [] then [] else [EncodeAll(reply)]
  }

  predicate ValidEffect(e: Effect) {
    ValidMessages(e.next.held) && ValidMessages(e.up) && ValidMessages(e.reply)
  }

  lemma ErrorIsValid(c: Cause)
    requires c.ByRule? ==> |c.rule| <= 100
    ensures ValidMessage(ErrorFor(c))
  {
    hide Ascii, ErrorPayload;
    var text := ErrorText(c);
    ErrorPayloadLength("ERROR", SqlState(c), text);
    TextIsShort(c);
  }

  lemma TextIsShort(c: Cause)
    requires c.ByRule? ==> |c.rule| <= 100
    ensures |ErrorText(c)| <= 200 && |SqlState(c)| == 5
  {
    hide ErrorText;
    match c
    case ByRule(rule) => RuleText(rule);
    case MalformedParse => ParseText();
    case FastPathCall => CallText();
  }

  lemma RuleText(rule: Bytes)
    ensures |ErrorText(ByRule(rule))| == 29 + |rule|
  {
    hide Ascii;
  }

  lemma ParseText()
    ensures |ErrorText(MalformedParse)| == 33
  {
    hide Ascii;
  }

  lemma CallText()
    ensures |ErrorText(FastPathCall)| <= 100
  {
    hide Ascii;
  }

  lemma ErrorPayloadLength(severity: Bytes, code: Bytes, message: Bytes)
    ensures |ErrorPayload(severity, code, message)| == 2 * |severity| + |code| + |message| + 9
  {
  }

  lemma AnswersAreValid(tx: Byte)
    ensures ValidMessage(ErrorFor(FastPathCall)) && ValidMessage(Ready(tx))
  {
    hide ErrorFor;
    ErrorIsValid(FastPathCall);
  }

  lemma RuleIsShort(pol: Policy, sql: Bytes)
    ensures Evaluate(pol, sql).Blocked? ==> |Evaluate(pol, sql).rule| <= 100
  {
  }

  lemma RefusalIsValid(pol: Policy, m: Message)
    ensures Refusal(pol, m).Some? ==> ValidMessage(Refusal(pol, m).value)
  {
    hide ParseQueryText, QueryText, Evaluate, ErrorFor, ValidMessage;
    ErrorIsValid(MalformedParse);
    ErrorIsValid(FastPathCall);
    var sql := if m.kind == 'Q' then QueryText(m.payload) else if ParseQueryText(m.payload).Some? then ParseQueryText(m.payload).value else [];
    RuleIsShort(pol, sql);
    if Evaluate(pol, sql).Blocked? {
      ErrorIsValid(ByRule(Evaluate(pol, sql).rule));
    }
  }

  lemma StepIsValid(cfg: Config, st: State, m: Message, tx: Byte)
    requires ValidMessages(st.held) && ValidMessage(m)
    ensures ValidEffect(Step(cfg, st, m, tx))
  {
    RefusalIsValid(cfg.pol, m);
    AnswersAreValid(tx);
    hide Refusal, Ready, ErrorFor, Fits, ValidMessage;
  }

  /**
   What reaches the backend of a message whose payload ends early: nothing while a
   denied batch is skipped and nothing of a message the filter inspects; a header and
   the bytes that came of a message it streams.
   */
  function TruncatedUp(cfg: Config, scratchMax: nat, st: State, h: Header, partial: Bytes): Bytes
    requires ValidMessages(st.held) && h.payloadLen <= MAX_PAYLOAD
  {
    var streamed := EncodeHeader(h) + partial;
    if st.skip then []
    else if !Enforces(cfg.pol) then (if h.payloadLen > scratchMax then streamed else [])
    else if h.kind == 'Q' || h.kind == 'P' || h.kind == 'F' then []
    else if IsBatchKind(h.kind) || h.kind == 'S' || h.kind == 'H' then
      (if Fits(cfg, st.held, h.payloadLen) then [] else EncodeAll(st.held) + streamed)
    else EncodeAll(st.held) + if h.payloadLen > scratchMax then streamed else []
  }

  class MsgFilter {
    const clientW: SyncWriter
    const upstream: Sink
    const src: Source
    const pol: Policy
    const enforce: bool
    const maxHeld: nat
    const scratchMax: nat

    var scratch: array<Byte>
    var heldBuf: array<Byte>
    var heldLen: nat
    var prefixForwarded: bool
    var skipUntilSync: bool
    var forwardSync: bool

    /** The messages whose encoding heldBuf holds. */
    ghost var held: seq<Message>

    /** The held bytes, and the memory bounds that hold at every message boundary. */
    ghost predicate Buffers()
      reads this`scratch, this`heldBuf, this`heldLen, this`held, heldBuf
    {
      && scratch != heldBuf
      && enforce == Enforces(pol)
      && scratch.Length <= scratchMax
      && heldLen <= heldBuf.Length
      && ValidMessages(held)
      && heldBuf[..heldLen] == EncodeAll(held)
      && (heldLen == 0 ==> heldBuf.Length <= scratchMax)
    }

    ghost predicate Valid()
      reads this, heldBuf
    {
      && Buffers()
      && heldLen <= maxHeld
      && (forwardSync <==> skipUntilSync && prefixForwarded)
    }

    ghost function Abs(): State
      reads this
    {
      State(held, prefixForwarded, skipUntilSync)
    }

    ghost function Cfg(): Config {
      Config(pol, maxHeld)
    }

    constructor (clientW: SyncWriter, upstream: Sink, src: Source, pol: Policy, maxHeld: nat, scratchMax: nat)
      ensures this.clientW == clientW && this.upstream == upstream && this.src == src
      ensures this.pol == pol && this.maxHeld == maxHeld && this.scratchMax == scratchMax
      ensures Valid() && Abs() == IDLE && fresh(scratch) && fresh(heldBuf)
    {
      this.clientW, this.upstream, this.src := clientW, upstream, src;
      this.pol, this.enforce := pol, pol.readOnly;
      this.maxHeld, this.scratchMax := maxHeld, scratchMax;
      scratch := new Byte[0];
      heldBuf := new Byte[0];
      heldLen := 0;
      prefixForwarded, skipUntilSync, forwardSync := false, false, false;
      held := [];
    }

    // ---- Reading and forwarding payloads ----

    /** An ordinary payload lands in the scratch array, an outsized one in an array of its own. */
    method InspectPayload(h: Header) returns (buf: array<Byte>, ok: bool)
      requires Buffers()
      modifies this`scratch, scratch, src
      ensures Buffers() && unchanged(heldBuf)
      ensures scratch == old(scratch) || fresh(scratch)
      ensures buf != heldBuf
      ensures buf.Length <= scratchMax || buf.Length <= Max(65536, 2 * |old(src.rest)|)
      ensures ok <==> h.payloadLen <= |old(src.rest)|
      ensures ok ==> h.payloadLen <= buf.Length && buf[..h.payloadLen] == old(src.rest)[..h.payloadLen]
      ensures ok ==> src.rest == old(src.rest)[h.payloadLen..]
      ensures !ok ==> src.rest == []
    {
      if h.payloadLen > scratchMax {
        ghost var allocations, copied;
        buf, ok, allocations, copied := ReadPayload(src, h.payloadLen, CHUNK);
        return;
      }
      if scratch.Length < h.payloadLen {
        scratch := new Byte[h.payloadLen];
      }
      buf := scratch;
      ok := src.ReadFull(scratch, 0, h.payloadLen);
    }

    /** The header, then the payload copied straight from the client as far as it goes. */
    method Stream(h: Header) returns (ok: bool)
      requires h.payloadLen <= MAX_PAYLOAD
      modifies src, upstream
      ensures ok <==> h.payloadLen <= |old(src.rest)|
      ensures ok ==> upstream.written == old(upstream.written) + Encode(Message(h.kind, old(src.rest)[..h.payloadLen]))
      ensures ok ==> src.rest == old(src.rest)[h.payloadLen..]
      ensures !ok ==> upstream.written == old(upstream.written) + (EncodeHeader(h) + old(src.rest)) && src.rest == []
    {
      upstream.Write(EncodeHeader(h));
      ok := true;
      if h.payloadLen > 0 {
        var bytes;
        bytes, ok := src.CopyN(h.payloadLen);
        upstream.Write(bytes);
        if !ok {
          assert bytes == old(src.rest);
        }
      } else {
        assert old(src.rest)[..0] == [];
      }
    }

    method ForwardBuffered(h: Header, buf: array<Byte>)
      requires h.payloadLen <= MAX_PAYLOAD && h.payloadLen <= buf.Length
      modifies upstream
      ensures upstream.written == old(upstream.written) + Encode(Message(h.kind, buf[..h.payloadLen]))
    {
      upstream.Write(Encode(Message(h.kind, buf[..h.payloadLen])));
    }

    method Relay(h: Header) returns (ok: bool)
      requires Buffers() && h.payloadLen <= MAX_PAYLOAD
      modifies this`scratch, scratch, src, upstream
      ensures Buffers() && unchanged(heldBuf)
      ensures scratch == old(scratch) || fresh(scratch)
      ensures ok <==> h.payloadLen <= |old(src.rest)|
      ensures ok ==> upstream.written == old(upstream.written) + Encode(Message(h.kind, old(src.rest)[..h.payloadLen]))
      ensures ok ==> src.rest == old(src.rest)[h.payloadLen..]
      ensures !ok ==> upstream.written == old(upstream.written) + (if h.payloadLen > scratchMax then EncodeHeader(h) + old(src.rest) else [])
      ensures !ok ==> src.rest == []
    {
      if h.payloadLen > scratchMax {
        ok := Stream(h);
        return;
      }
      var buf;
      buf, ok := InspectPayload(h);
      if ok {
        ForwardBuffered(h, buf);
      }
    }

    method DiscardPayload(h: Header) returns (ok: bool)
      modifies src
      ensures ok <==> h.payloadLen <= |old(src.rest)|
      ensures ok ==> src.rest == old(src.rest)[h.payloadLen..]
      ensures !ok ==> src.rest == []
    {
      if h.payloadLen == 0 {
        return true;
      }
      var bytes;
      bytes, ok := src.CopyN(h.payloadLen);
    }

    // ---- The held batch ----

    /** May be negative once the batch is within five bytes of the budget. */
    function HoldBudget(): (n: int)
      reads this
    {
      maxHeld - heldLen - 5
    }

    /** Room for n more bytes; how much more a growing slice takes is left to the runtime. */
    method GrowHeld(n: nat)
      requires scratch != heldBuf && heldLen <= heldBuf.Length
      modifies this`heldBuf
      ensures heldLen + n <= heldBuf.Length && scratch != heldBuf
      ensures heldBuf == old(heldBuf) || fresh(heldBuf)
      ensures heldBuf[..heldLen] == old(heldBuf[..heldLen])
    {
      if heldBuf.Length < heldLen + n {
        var capacity: nat :| heldLen + n <= capacity;
        var grown := new Byte[capacity];
        forall i | 0 <= i < heldLen {
          grown[i] := heldBuf[i];
        }
        heldBuf := grown;
      }
    }

    /** append: the bytes are copied behind the held ones. */
    method AppendHeld(bytes: Bytes)
      requires scratch != heldBuf && heldLen <= heldBuf.Length
      modifies this`heldBuf, this`heldLen, heldBuf
      ensures heldLen == old(heldLen) + |bytes| && heldLen <= heldBuf.Length && scratch != heldBuf
      ensures heldBuf == old(heldBuf) || fresh(heldBuf)
      ensures heldBuf[..heldLen] == old(heldBuf[..heldLen]) + bytes
    {
      GrowHeld(|bytes|);
      ghost var before := heldBuf[..heldLen];
      forall i | 0 <= i < |bytes| {
        heldBuf[heldLen + i] := bytes[i];
      }
      heldLen := heldLen + |bytes|;
      assert heldBuf[..heldLen] == before + bytes;
    }

    /** The buffer is kept for reuse unless it grew unusually large. */
    method ResetHeld()
      requires Buffers()
      modifies this`heldBuf, this`heldLen, this`held
      ensures Buffers() && held == [] && heldLen == 0
      ensures heldBuf == old(heldBuf) || fresh(heldBuf)
    {
      if heldBuf.Length > scratchMax {
        heldBuf := new Byte[0];
      }
      heldLen := 0;
      held := [];
    }

    method FlushHeld()
      requires Buffers()
      modifies this`heldBuf, this`heldLen, this`held, this`prefixForwarded, upstream
      ensures Buffers() && held == [] && heldLen == 0
      ensures heldBuf == old(heldBuf) || fresh(heldBuf)
      ensures upstream.written == old(upstream.written) + EncodeAll(old(held))
      ensures prefixForwarded == (old(prefixForwarded) || old(held) != [])
    {
      WireLenIsLength(held);
      if heldLen == 0 {
        assert upstream.written + [] == upstream.written;
        return;
      }
      upstream.Write(heldBuf[..heldLen]);
      ResetHeld();
      prefixForwarded := true;
    }

    /** Holds a message already read, or forwards it past the batch. */
    method Hold(h: Header, buf: array<Byte>)
      requires Buffers() && heldLen <= maxHeld && h.payloadLen <= MAX_PAYLOAD && h.payloadLen <= buf.Length && buf != heldBuf
      modifies this`heldBuf, this`heldLen, this`held, this`prefixForwarded, heldBuf, upstream
      ensures Buffers() && heldLen <= maxHeld
      ensures heldBuf == old(heldBuf) || fresh(heldBuf)
      ensures var e := Machine.Hold(Cfg(), old(Abs()), Message(h.kind, old(buf[..h.payloadLen])));
              && ValidEffect(e) && Abs() == e.next
              && upstream.written == old(upstream.written) + EncodeAll(e.up)
    {
      hide EncodeAll, Encode, EncodeHeader, WireLen, Machine.Hold, ValidEffect, ValidMessages;
      ghost var m := Message(h.kind, buf[..h.payloadLen]);
      WireLenIsLength(held);
      HoldEffect(Cfg(), Abs(), m);
      NothingEncoded(upstream.written, clientW.writes);
      if h.payloadLen > HoldBudget() {
        ForwardPast(h, buf);
      } else {
        AppendMessage(h, buf);
      }
    }

    /** Forwards a message that was read past the batch, behind what was held. */
    method ForwardPast(h: Header, buf: array<Byte>)
      requires Buffers() && h.payloadLen <= MAX_PAYLOAD && h.payloadLen <= buf.Length && buf != heldBuf
      modifies this`heldBuf, this`heldLen, this`held, this`prefixForwarded, upstream
      ensures Buffers() && heldLen == 0 && held == [] && prefixForwarded
      ensures heldBuf == old(heldBuf) || fresh(heldBuf)
      ensures var ms := old(held) + [Message(h.kind, buf[..h.payloadLen])];
              ValidMessages(ms) && upstream.written == old(upstream.written) + EncodeAll(ms)
    {
      hide EncodeAll, Encode;
      FlushHeld();
      prefixForwarded := true;
      ForwardBuffered(h, buf);
      SentTogether(old(upstream.written), old(held), Message(h.kind, buf[..h.payloadLen]));
    }

    /** Copies a message that was read behind the held ones. */
    method AppendMessage(h: Header, buf: array<Byte>)
      requires Buffers() && h.payloadLen <= MAX_PAYLOAD && h.payloadLen <= buf.Length && buf != heldBuf
      modifies this`heldBuf, this`heldLen, this`held, heldBuf
      ensures Buffers() && heldLen == old(heldLen) + 5 + h.payloadLen
      ensures heldBuf == old(heldBuf) || fresh(heldBuf)
      ensures held == old(held) + [Message(h.kind, old(buf[..h.payloadLen]))]
    {
      hide EncodeAll, Encode, EncodeHeader;
      ghost var m := Message(h.kind, buf[..h.payloadLen]);
      EncodeSnoc(held, m);
      AppendHeld(EncodeHeader(h));
      AppendHeld(buf[..h.payloadLen]);
      held := held + [m];
    }

    /** Streams a message past the batch, behind what was held. */
    method StreamPast(h: Header) returns (ok: bool)
      requires Buffers() && heldLen <= maxHeld && h.payloadLen <= MAX_PAYLOAD
      modifies this`heldBuf, this`heldLen, this`held, this`prefixForwarded, src, upstream
      ensures heldBuf == old(heldBuf) || fresh(heldBuf)
      ensures Buffers() && heldLen == 0 && held == [] && prefixForwarded
      ensures ok <==> h.payloadLen <= |old(src.rest)|
      ensures ok ==> src.rest == old(src.rest)[h.payloadLen..]
      ensures ok ==> var ms := old(held) + [Message(h.kind, old(src.rest)[..h.payloadLen])];
                     ValidMessages(ms) && upstream.written == old(upstream.written) + EncodeAll(ms)
      ensures !ok ==> src.rest == []
      ensures !ok ==> upstream.written == old(upstream.written) + (EncodeAll(old(held)) + (EncodeHeader(h) + old(src.rest)))
    {
      hide EncodeAll, Encode;
      FlushHeld();
      prefixForwarded := true;
      ok := Stream(h);
      if ok {
        SentTogether(old(upstream.written), old(held), Message(h.kind, old(src.rest)[..h.payloadLen]));
      }
    }

    /** Reads n bytes from the client straight behind the held ones. */
    method FillHeld(n: nat) returns (ok: bool)
      requires scratch != heldBuf && heldLen <= heldBuf.Length
      modifies this`heldBuf, this`heldLen, heldBuf, src
      ensures heldLen == old(heldLen) + n && heldLen <= heldBuf.Length && scratch != heldBuf
      ensures heldBuf == old(heldBuf) || fresh(heldBuf)
      ensures ok <==> n <= |old(src.rest)|
      ensures ok ==> src.rest == old(src.rest)[n..]
      ensures ok ==> heldBuf[..heldLen] == old(heldBuf[..heldLen]) + old(src.rest)[..n]
      ensures !ok ==> src.rest == []
    {
      GrowHeld(n);
      var start := heldLen;
      heldLen := start + n;
      ok := src.ReadFull(heldBuf, start, heldLen);
      assert heldBuf[..heldLen] == heldBuf[..start] + heldBuf[start..heldLen];
    }

    /** Reads a message that fits straight into the batch. */
    method ReadHeld(h: Header) returns (ok: bool)
      requires Buffers() && heldLen + 5 + h.payloadLen <= maxHeld && h.payloadLen <= MAX_PAYLOAD
      modifies this`heldBuf, this`heldLen, this`held, heldBuf, src
      ensures heldBuf == old(heldBuf) || fresh(heldBuf)
      ensures ok <==> h.payloadLen <= |old(src.rest)|
      ensures ok ==> src.rest == old(src.rest)[h.payloadLen..]
      ensures ok ==> Buffers() && heldLen <= maxHeld && held == old(held) + [Message(h.kind, old(src.rest)[..h.payloadLen])]
      ensures !ok ==> src.rest == []
    {
      AppendHeld(EncodeHeader(h));
      ok := FillHeld(h.payloadLen);
      if ok {
        ghost var m := Message(h.kind, old(src.rest)[..h.payloadLen]);
        EncodeSnoc(held, m);
        hide EncodeAll, EncodeHeader;
        held := held + [m];
      }
    }

    /** Reads a payload straight into the batch, or streams the message past it. */
    method HoldFromWire(h: Header) returns (ok: bool)
      requires Buffers() && heldLen <= maxHeld && h.payloadLen <= MAX_PAYLOAD
      modifies this`heldBuf, this`heldLen, this`held, this`prefixForwarded, heldBuf, src, upstream
      ensures heldBuf == old(heldBuf) || fresh(heldBuf)
      ensures ok <==> h.payloadLen <= |old(src.rest)|
      ensures ok ==> Buffers() && heldLen <= maxHeld && src.rest == old(src.rest)[h.payloadLen..]
      ensures ok ==> var e := Machine.Hold(Cfg(), old(Abs()), Message(h.kind, old(src.rest)[..h.payloadLen]));
                     && ValidEffect(e) && Abs() == e.next
                     && upstream.written == old(upstream.written) + EncodeAll(e.up)
      ensures !ok ==> src.rest == []
      ensures !ok ==> upstream.written == old(upstream.written) +
                      if Fits(Cfg(), old(held), h.payloadLen) then [] else EncodeAll(old(held)) + (EncodeHeader(h) + old(src.rest))
    {
      hide EncodeAll, Encode, EncodeHeader, WireLen;
      WireLenIsLength(held);
      NothingEncoded(upstream.written, clientW.writes);
      if h.payloadLen > HoldBudget() {
        ok := StreamPast(h);
      } else {
        ok := ReadHeld(h);
      }
    }

    // ---- Disposing of one message ----

    /** The effect e of a message that was read whole; rest, up and writes are what stood before it. */
    ghost predicate Did(h: Header, e: Effect, rest: Bytes, up: Bytes, writes: seq<Bytes>)
      reads this, heldBuf, src, upstream, clientW
    {
      && Valid() && ValidEffect(e) && Abs() == e.next
      && h.payloadLen <= |rest| && src.rest == rest[h.payloadLen..]
      && upstream.written == up + EncodeAll(e.up)
      && clientW.writes == writes + ReplyWrites(e.reply)
    }

    /** The effect of a message whose payload ended early: cut was sent, and nothing answered. */
    ghost predicate Broke(cut: Bytes, up: Bytes, writes: seq<Bytes>)
      reads src, upstream, clientW
    {
      src.rest == [] && upstream.written == up + cut && clientW.writes == writes
    }

    /** The arrays a method may have replaced are new. */
    twostate predicate Owned()
      reads this
    {
      && (scratch == old(scratch) || fresh(scratch))
      && (heldBuf == old(heldBuf) || fresh(heldBuf))
    }

    method DenyBatch(error: Message)
      requires Valid() && ValidMessage(error)
      modifies this`heldBuf, this`heldLen, this`held, this`skipUntilSync, this`forwardSync, clientW
      ensures Valid() && Abs() == State([], old(prefixForwarded), true)
      ensures heldBuf == old(heldBuf) || fresh(heldBuf)
      ensures clientW.writes == old(clientW.writes) + ReplyWrites([error])
    {
      ResetHeld();
      skipUntilSync := true;
      forwardSync := prefixForwarded;
      clientW.WriteMessages([error]);
    }

    method HandleSkipped(h: Header, tx: Byte) returns (ok: bool)
      requires Valid() && skipUntilSync && h.payloadLen <= MAX_PAYLOAD
      modifies this, scratch, heldBuf, src, upstream, clientW
      ensures Owned()
      ensures ok <==> h.payloadLen <= |old(src.rest)|
      ensures ok ==> Did(h, OnSkip(old(Abs()), Message(h.kind, old(src.rest)[..h.payloadLen]), tx), old(src.rest), old(upstream.written), old(clientW.writes))
      ensures !ok ==> Broke([], old(upstream.written), old(clientW.writes))
    {
      hide EncodeAll, Encode, Buffers;
      hide Ready, ErrorFor;
      AnswersAreValid(tx);
      HeldIsValid();
      NothingEncoded(upstream.written, clientW.writes);
      if h.kind != 'S' {
        ok := DiscardPayload(h);
        return;
      }
      skipUntilSync := false;
      if forwardSync {
        forwardSync := false;
        prefixForwarded := false;
        var buf;
        buf, ok := InspectPayload(h);
        if ok {
          EncodeOne(Message(h.kind, buf[..h.payloadLen]));
          ForwardBuffered(h, buf);
        }
        return;
      }
      ok := DiscardPayload(h);
      if ok {
        clientW.WriteMessages([Ready(tx)]);
      }
    }

    lemma HeldIsValid()
      requires Buffers()
      ensures ValidMessages(held)
    {
    }

    /** Evaluates a query that was read, and forwards it or answers it locally. */
    method DecideQuery(h: Header, buf: array<Byte>, tx: Byte)
      requires h.kind == 'Q' && h.payloadLen <= MAX_PAYLOAD && h.payloadLen <= buf.Length
      modifies this`prefixForwarded, upstream, clientW
      ensures var refusal := Refusal(pol, Message(h.kind, buf[..h.payloadLen]));
              refusal.Some? ==>
                && prefixForwarded == old(prefixForwarded) && upstream.written == old(upstream.written)
                && ValidMessages([refusal.value, Ready(tx)])
                && clientW.writes == old(clientW.writes) + ReplyWrites([refusal.value, Ready(tx)])
      ensures var m := Message(h.kind, buf[..h.payloadLen]);
              Refusal(pol, m).None? ==>
                && !prefixForwarded && upstream.written == old(upstream.written) + Encode(m)
                && clientW.writes == old(clientW.writes)
    {
      hide ErrorFor, Refusal, Ready, Evaluate, QueryText, EncodeAll, Encode;
      var m := Message(h.kind, buf[..h.payloadLen]);
      RefusalIsValid(pol, m);
      AnswersAreValid(tx);
      QueryRefusal(pol, m);
      var verdict := EvaluateSql(pol, QueryText(m.payload));
      if verdict.Blocked? {
        clientW.WriteMessages([ErrorFor(ByRule(verdict.rule)), Ready(tx)]);
        return;
      }
      ForwardBuffered(h, buf);
      prefixForwarded := false;
    }

    /** The held batch goes out before the query is decided. */
    method FlushAndDecide(h: Header, buf: array<Byte>, tx: Byte)
      requires Valid() && !skipUntilSync && buf != heldBuf
      requires h.kind == 'Q' && h.payloadLen <= MAX_PAYLOAD && h.payloadLen <= buf.Length
      modifies this`heldBuf, this`heldLen, this`held, this`prefixForwarded, upstream, clientW
      ensures heldBuf == old(heldBuf) || fresh(heldBuf)
      ensures var e := OnQuery(Cfg(), old(Abs()), Message(h.kind, buf[..h.payloadLen]), tx);
              && Valid() && ValidEffect(e) && Abs() == e.next
              && upstream.written == old(upstream.written) + EncodeAll(e.up)
              && clientW.writes == old(clientW.writes) + ReplyWrites(e.reply)
    {
      hide EncodeAll, Encode, Refusal, Ready, Buffers, OnQuery, ValidEffect, ReplyWrites, ErrorFor;
      ghost var m := Message(h.kind, buf[..h.payloadLen]);
      HeldIsValid();
      SentTogether(upstream.written, held, m);
      QueryEffect(Cfg(), Abs(), m, tx);
      FlushHeld();
      DecideQuery(h, buf, tx);
      NothingWritten(clientW.writes);
    }

    method HandleQuery(h: Header, tx: Byte) returns (ok: bool)
      requires Valid() && !skipUntilSync && h.kind == 'Q' && h.payloadLen <= MAX_PAYLOAD
      modifies this, scratch, heldBuf, src, upstream, clientW
      ensures Owned()
      ensures ok <==> h.payloadLen <= |old(src.rest)|
      ensures ok ==> Did(h, OnQuery(Cfg(), old(Abs()), Message(h.kind, old(src.rest)[..h.payloadLen]), tx), old(src.rest), old(upstream.written), old(clientW.writes))
      ensures !ok ==> Broke([], old(upstream.written), old(clientW.writes))
    {
      hide OnQuery, EncodeAll, Buffers, ValidEffect;
      NothingEncoded(upstream.written, clientW.writes);
      var buf;
      buf, ok := InspectPayload(h);
      if ok {
        FlushAndDecide(h, buf, tx);
      }
    }

    /** Evaluates a Parse that was read, and holds it or denies its batch. */
    method DecideParse(h: Header, buf: array<Byte>)
      requires Valid() && !skipUntilSync
      requires h.kind == 'P' && h.payloadLen <= MAX_PAYLOAD && h.payloadLen <= buf.Length && buf != heldBuf
      modifies this`heldBuf, this`heldLen, this`held, this`prefixForwarded, this`skipUntilSync, this`forwardSync
      modifies heldBuf, upstream, clientW
      ensures heldBuf == old(heldBuf) || fresh(heldBuf)
      ensures var e := OnParse(Cfg(), old(Abs()), Message(h.kind, old(buf[..h.payloadLen])));
              && Valid() && ValidEffect(e) && Abs() == e.next
              && upstream.written == old(upstream.written) + EncodeAll(e.up)
              && clientW.writes == old(clientW.writes) + ReplyWrites(e.reply)
    {
      hide Refusal, ErrorFor, Evaluate, ParseQueryText, EncodeAll, Encode, Machine.Hold;
      var m := Message(h.kind, buf[..h.payloadLen]);
      NothingEncoded(upstream.written, clientW.writes);
      RefusalIsValid(pol, m);
      ParseRefusal(pol, m);
      var sql := ParseQueryText(m.payload);
      if sql.None? {
        DenyBatch(ErrorFor(MalformedParse));
        return;
      }
      var verdict := EvaluateSql(pol, sql.value);
      if verdict.Blocked? {
        DenyBatch(ErrorFor(ByRule(verdict.rule)));
        return;
      }
      HoldIsQuiet(Cfg(), Abs(), m);
      Hold(h, buf);
    }

    method HandleParse(h: Header) returns (ok: bool)
      requires Valid() && !skipUntilSync && h.kind == 'P' && h.payloadLen <= MAX_PAYLOAD
      modifies this, scratch, heldBuf, src, upstream, clientW
      ensures Owned()
      ensures ok <==> h.payloadLen <= |old(src.rest)|
      ensures ok ==> Did(h, OnParse(Cfg(), old(Abs()), Message(h.kind, old(src.rest)[..h.payloadLen])), old(src.rest), old(upstream.written), old(clientW.writes))
      ensures !ok ==> Broke([], old(upstream.written), old(clientW.writes))
    {
      hide OnParse, EncodeAll, Buffers;
      NothingEncoded(upstream.written, clientW.writes);
      var buf;
      buf, ok := InspectPayload(h);
      if ok {
        DecideParse(h, buf);
      }
    }

    method HandleHeld(h: Header) returns (ok: bool)
      requires Valid() && !skipUntilSync && h.payloadLen <= MAX_PAYLOAD
      modifies this, scratch, heldBuf, src, upstream, clientW
      ensures Owned()
      ensures ok <==> h.payloadLen <= |old(src.rest)|
      ensures ok ==> Did(h, Machine.Hold(Cfg(), old(Abs()), Message(h.kind, old(src.rest)[..h.payloadLen])), old(src.rest), old(upstream.written), old(clientW.writes))
      ensures !ok ==> Broke(if Fits(Cfg(), old(held), h.payloadLen) then [] else EncodeAll(old(held)) + (EncodeHeader(h) + old(src.rest)), old(upstream.written), old(clientW.writes))
    {
      hide EncodeAll, Encode, Buffers;
      NothingEncoded(upstream.written, clientW.writes);
      ok := HoldFromWire(h);
    }

    /** Sync and Flush are held like any other message and take the batch upstream with them. */
    method HandleRelease(h: Header) returns (ok: bool)
      requires Valid() && !skipUntilSync && (h.kind == 'S' || h.kind == 'H') && h.payloadLen <= MAX_PAYLOAD
      modifies this, scratch, heldBuf, src, upstream, clientW
      ensures Owned()
      ensures ok <==> h.payloadLen <= |old(src.rest)|
      ensures ok ==> var m := Message(h.kind, old(src.rest)[..h.payloadLen]);
                     Did(h, if h.kind == 'S' then OnSync(old(Abs()), m) else OnFlush(old(Abs()), m), old(src.rest), old(upstream.written), old(clientW.writes))
      ensures !ok ==> Broke(if Fits(Cfg(), old(held), h.payloadLen) then [] else EncodeAll(old(held)) + (EncodeHeader(h) + old(src.rest)), old(upstream.written), old(clientW.writes))
    {
      hide Machine.Hold;
      hide EncodeAll, Encode, Buffers;
      HeldIsValid();
      NothingEncoded(upstream.written, clientW.writes);
      ok := HoldFromWire(h);
      if !ok {
        return;
      }
      ghost var m := Message(h.kind, old(src.rest)[..h.payloadLen]);
      HoldThenFlush(Cfg(), old(Abs()), m, old(upstream.written));
      FlushHeld();
      if h.kind == 'S' {
        prefixForwarded := false;
      }
    }

    method HandleFunctionCall(h: Header, tx: Byte) returns (ok: bool)
      requires Valid() && !skipUntilSync && h.payloadLen <= MAX_PAYLOAD
      modifies this, scratch, heldBuf, src, upstream, clientW
      ensures Owned()
      ensures ok <==> h.payloadLen <= |old(src.rest)|
      ensures ok ==> Did(h, Effect(old(Abs()), [], [ErrorFor(FastPathCall), Ready(tx)]), old(src.rest), old(upstream.written), old(clientW.writes))
      ensures !ok ==> Broke([], old(upstream.written), old(clientW.writes))
    {
      hide Ready, ErrorFor, EncodeAll;
      AnswersAreValid(tx);
      NothingEncoded(upstream.written, clientW.writes);
      ok := DiscardPayload(h);
      if ok {
        clientW.WriteMessages([ErrorFor(FastPathCall), Ready(tx)]);
      }
    }

    method HandleOther(h: Header) returns (ok: bool)
      requires Valid() && !skipUntilSync && h.payloadLen <= MAX_PAYLOAD
      modifies this, scratch, heldBuf, src, upstream, clientW
      ensures Owned()
      ensures ok <==> h.payloadLen <= |old(src.rest)|
      ensures ok ==> Did(h, OnOther(old(Abs()), Message(h.kind, old(src.rest)[..h.payloadLen])), old(src.rest), old(upstream.written), old(clientW.writes))
      ensures !ok ==> Broke(EncodeAll(old(held)) + if h.payloadLen > scratchMax then EncodeHeader(h) + old(src.rest) else [], old(upstream.written), old(clientW.writes))
    {
      hide EncodeAll, Encode, Buffers, ReplyWrites;
      NothingEncoded(upstream.written, clientW.writes);
      HeldIsValid();
      FlushHeld();
      ok := Relay(h);
      if ok {
        ghost var m := Message(h.kind, old(src.rest)[..h.payloadLen]);
        SentTogether(old(upstream.written), old(held), m);
      }
    }

    method HandleUnchecked(h: Header) returns (ok: bool)
      requires Valid() && h.payloadLen <= MAX_PAYLOAD
      modifies this, scratch, heldBuf, src, upstream, clientW
      ensures Owned()
      ensures ok <==> h.payloadLen <= |old(src.rest)|
      ensures ok ==> Did(h, Effect(old(Abs()), [Message(h.kind, old(src.rest)[..h.payloadLen])], []), old(src.rest), old(upstream.written), old(clientW.writes))
      ensures !ok ==> Broke(if h.payloadLen > scratchMax then EncodeHeader(h) + old(src.rest) else [], old(upstream.written), old(clientW.writes))
    {
      hide EncodeAll, Encode, EncodeHeader;
      NothingEncoded(upstream.written, clientW.writes);
      ok := Relay(h);
      if ok {
        EncodeOne(Message(h.kind, old(src.rest)[..h.payloadLen]));
      }
    }

    /** handle: exactly the machine's step, or the truncated effect when the payload ends early. */
    method Handle(h: Header, tx: Byte) returns (ok: bool)
      requires Valid() && h.payloadLen <= MAX_PAYLOAD
      modifies this, scratch, heldBuf, src, upstream, clientW
      ensures Owned()
      ensures ok <==> h.payloadLen <= |old(src.rest)|
      ensures ok ==> Did(h, Step(Cfg(), old(Abs()), Message(h.kind, old(src.rest)[..h.payloadLen]), tx), old(src.rest), old(upstream.written), old(clientW.writes))
      ensures !ok ==> Broke(TruncatedUp(Cfg(), scratchMax, old(Abs()), h, old(src.rest)), old(upstream.written), old(clientW.writes))
    {
      hide OnSkip, OnQuery, OnParse, Machine.Hold, OnSync, OnFlush, OnOther, Ready, ErrorFor, Fits, Did, Broke, EncodeAll,
        EncodeHeader, ValidMessages;
      if skipUntilSync {
        ok := HandleSkipped(h, tx);
        return;
      }
      if !enforce {
        ok := HandleUnchecked(h);
        return;
      }
      match h.kind {
        case 'Q' => ok := HandleQuery(h, tx);
        case 'P' => ok := HandleParse(h);
        case 'B' => ok := HandleHeld(h);
        case 'E' => ok := HandleHeld(h);
        case 'D' => ok := HandleHeld(h);
        case 'C' => ok := HandleHeld(h);
        case 'S' => ok := HandleRelease(h);
        case 'H' => ok := HandleRelease(h);
        case 'F' => ok := HandleFunctionCall(h, tx);
        case _ => ok := HandleOther(h);
      }
    }
  }

  lemma NothingEncoded(up: Bytes, writes: seq<Bytes>)
    ensures ReplyWrites([]) == [] && EncodeAll([]) == []
    ensures up + [] == up && writes + [] == writes
  {
  }

  lemma QueryRefusal(pol: Policy, m: Message)
    requires m.kind == 'Q'
    ensures Refusal(pol, m) ==
            match Evaluate(pol, QueryText(m.payload))
            case Allowed => None
            case Blocked(rule) => Some(ErrorFor(ByRule(rule)))
  {
    hide ErrorFor, Evaluate, QueryText;
  }

  lemma ParseRefusal(pol: Policy, m: Message)
    requires m.kind == 'P'
    ensures Refusal(pol, m) ==
            match ParseQueryText(m.payload)
            case None => Some(ErrorFor(MalformedParse))
            case Some(sql) =>
              match Evaluate(pol, sql)
              case Allowed => None
              case Blocked(rule) => Some(ErrorFor(ByRule(rule)))
  {
    hide ErrorFor, Evaluate, ParseQueryText;
  }

  lemma NothingWritten(writes: seq<Bytes>)
    ensures writes + ReplyWrites([]) == writes
  {
  }

  lemma QueryEffect(cfg: Config, st: State, m: Message, tx: Byte)
    requires ValidMessages(st.held) && ValidMessage(m)
    ensures var e := OnQuery(cfg, st, m, tx);
            && ValidEffect(e)
            && (Refusal(cfg.pol, m).Some? ==>
                  e == Effect(State([], st.released || st.held != [], st.skip), st.held, [Refusal(cfg.pol, m).value, Ready(tx)]))
            && (Refusal(cfg.pol, m).None? ==> e == Effect(State([], false, st.skip), st.held + [m], []))
  {
    hide Refusal, Ready, ValidMessages, ValidMessage;
    RefusalIsValid(cfg.pol, m);
    AnswersAreValid(tx);
    OneIsValid(st.held, m);
    if Refusal(cfg.pol, m).Some? {
      PairIsValid(Refusal(cfg.pol, m).value, Ready(tx));
    }
  }

  lemma OneIsValid(ms: seq<Message>, m: Message)
    requires ValidMessages(ms) && ValidMessage(m)
    ensures ValidMessages(ms + [m]) && ValidMessages([])
  {
    hide ValidMessage;
  }

  lemma PairIsValid(a: Message, b: Message)
    requires ValidMessage(a) && ValidMessage(b)
    ensures ValidMessages([a, b])
  {
    hide ValidMessage;
  }

  lemma HoldEffect(cfg: Config, st: State, m: Message)
    requires ValidMessages(st.held) && ValidMessage(m)
    ensures var e := Machine.Hold(cfg, st, m);
            && ValidEffect(e)
            && e == if WireLen(st.held) + 5 + |m.payload| <= cfg.maxHeld
                    then Effect(State(st.held + [m], st.released, st.skip), [], [])
                    else Effect(State([], true, st.skip), st.held + [m], [])
  {
    hide ValidMessage, WireLen;
  }

  lemma HoldIsQuiet(cfg: Config, st: State, m: Message)
    requires ValidMessages(st.held) && ValidMessage(m)
    ensures var e := Machine.Hold(cfg, st, m);
            ValidEffect(e) && e.reply == [] && ReplyWrites(e.reply) == [] && e.next.skip == st.skip
  {
    hide Fits, ValidMessage;
  }

  /** Holding a message and flushing sends the held batch and the message, whether or not it fitted. */
  lemma HoldThenFlush(cfg: Config, st: State, m: Message, before: Bytes)
    requires ValidMessages(st.held) && ValidMessage(m)
    ensures var e := Machine.Hold(cfg, st, m);
            && ValidEffect(e) && ValidMessages(st.held + [m])
            && before + EncodeAll(e.up) + EncodeAll(e.next.held) == before + EncodeAll(st.held + [m])
            && (e.next.released || e.next.held != []) && e.reply == [] && e.next.skip == st.skip
  {
    EncodeAllAppend(st.held, [m]);
    hide Fits, ValidMessage;
    var e := Machine.Hold(cfg, st, m);
    if e.up == [] {
      assert before + [] == before;
    } else {
      assert before + EncodeAll(e.up) + [] == before + EncodeAll(e.up);
    }
  }

  lemma SentTogether(before: Bytes, held: seq<Message>, m: Message)
    requires ValidMessages(held) && ValidMessage(m)
    ensures ValidMessages(held + [m])
    ensures before + EncodeAll(held) + Encode(m) == before + EncodeAll(held + [m])
  {
    EncodeAllAppend(held, [m]);
    EncodeOne(m);
    hide *;
    assert before + (EncodeAll(held) + Encode(m)) == before + EncodeAll(held) + Encode(m);
  }
}
