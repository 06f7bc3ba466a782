/**
 The filter's laws on the wire: statements about the bytes the backend receives for
 an arbitrary client byte stream, including streams cut off at any byte.
 */
module WireLaws {
  import opened Wire
  import opened Policies
  import opened Machine
  import opened FilterLaws
  import opened Filter
  import opened Session
  import Keywords
  import Rendering

  predicate IsInspected(k: Byte) {
    k == 'Q' || k == 'P' || k == 'F'
  }

  /** What a truncated message can leave upstream; a message the filter inspects is never partly sent. */
  lemma TruncatedCases(cfg: Config, scratchMax: nat, st: State, h: Header, partial: Bytes)
    requires ValidMessages(st.held) && h.payloadLen <= MAX_PAYLOAD
    requires !Enforces(cfg.pol) ==> st.held == []
    ensures var u := TruncatedUp(cfg, scratchMax, st, h, partial);
            || u == []
            || u == EncodeAll(st.held)
            || (u == EncodeAll(st.held) + (EncodeHeader(h) + partial) && (Enforces(cfg.pol) ==> !IsInspected(h.kind) && !st.skip))
  {
    hide EncodeHeader, ValidMessages, Fits;
    assert EncodeAll(st.held) + [] == EncodeAll(st.held);
    assert st.held == [] ==> EncodeAll(st.held) + (EncodeHeader(h) + partial) == EncodeHeader(h) + partial;
  }

  /** The backend's view s of messages up, perhaps with held behind them, and of the cut-off end of tail, if any. */
  ghost predicate Decodes(s: Bytes, up: seq<Message>, held: seq<Message>, tail: Tail) {
    && (Frames(s) == up || Frames(s) == up + held)
    && (TailOf(s) == AtBoundary || (tail.InPayload? && TailOf(s) == tail))
  }

  lemma DecodesWhole(up: seq<Message>, held: seq<Message>, tail: Tail)
    requires ValidMessages(up) && ValidMessages(held)
    ensures Decodes(EncodeAll(up) + [], up, held, tail) && TailOf(EncodeAll(up) + []) == AtBoundary
    ensures var s := EncodeAll(up) + EncodeAll(held); Decodes(s, up, held, tail) && TailOf(s) == AtBoundary
  {
    hide Frames, TailOf, EncodeAll, ValidMessages;
    EncodedDecodes(up);
    EncodeAllAppend(up, held);
    EncodedDecodes(up + held);
    assert EncodeAll(up) + [] == EncodeAll(up);
  }

  lemma DecodesCutOff(up: seq<Message>, held: seq<Message>, h: Header, partial: Bytes)
    requires ValidMessages(up) && ValidMessages(held) && h.payloadLen <= MAX_PAYLOAD && |partial| < h.payloadLen
    ensures Decodes(EncodeAll(up) + (EncodeAll(held) + (EncodeHeader(h) + partial)), up, held, InPayload(h, partial))
  {
    hide Frames, TailOf, EncodeAll, ValidMessages, EncodeHeader;
    var streamed := EncodeHeader(h) + partial;
    EncodeAllAppend(up, held);
    EncodedThenStreamed(up + held, h, partial);
    assert EncodeAll(up) + (EncodeAll(held) + streamed) == EncodeAll(up) + EncodeAll(held) + streamed;
  }

  lemma HeldWithoutPolicy(cfg: Config, client: Bytes, tx: nat -> Byte)
    ensures !Enforces(cfg.pol) ==> SessionRun(cfg, client, tx).st.held == []
  {
    hide Run, Inputs, Frames, IsSubsequence;
    RunIsOrdered(cfg, Inputs(Frames(client), tx));
  }

  /**
   The backend decodes exactly the messages the machine sent, perhaps with the held
   batch behind them, and at most one cut-off message at the end: the client's own, and
   under an enforced policy never a Query, a Parse or a function call.
   */
  lemma SessionUpDecodes(cfg: Config, scratchMax: nat, client: Bytes, tx: nat -> Byte)
    ensures var t := SessionRun(cfg, client, tx);
            && ValidTrace(t)
            && var s := SessionUp(cfg, scratchMax, client, tx);
            && Decodes(s, t.up, t.st.held, TailOf(client))
            && (Enforces(cfg.pol) && TailOf(s) != AtBoundary ==> !IsInspected(TailOf(client).header.kind))
  {
    hide Frames, TailOf, SessionRun, EncodeAll, EncodeHeader, TruncatedUp, Enforces, Decodes, IsInspected, ValidMessages;
    SessionIsValid(cfg, client, tx);
    HeldWithoutPolicy(cfg, client, tx);
    var t := SessionRun(cfg, client, tx);
    var tail := TailOf(client);
    DecodesWhole(t.up, t.st.held, tail);
    if tail.InPayload? {
      TruncatedCases(cfg, scratchMax, t.st, tail.header, tail.bytes);
      DecodesCutOff(t.up, t.st.held, tail.header, tail.bytes);
    }
  }

  /** What a session that ends inside a message sends beyond the messages it handled. */
  lemma CutOffMessage(cfg: Config, scratchMax: nat, client: Bytes, tx: nat -> Byte)
    requires Enforces(cfg.pol) && TailOf(client).InPayload?
    ensures var t := SessionRun(cfg, client, tx);
            var h, partial := TailOf(client).header, TailOf(client).bytes;
            && ValidTrace(t)
            && var sent := SessionUp(cfg, scratchMax, client, tx);
            && (t.st.skip || h.kind in ['Q', 'P', 'F'] ==> sent == EncodeAll(t.up))
            && (!t.st.skip && h.kind in ['B', 'E', 'D', 'C', 'S', 'H'] ==>
                  if WireLen(t.st.held) + 5 + h.payloadLen <= cfg.maxHeld then sent == EncodeAll(t.up)
                  else sent == EncodeAll(t.up) + (EncodeAll(t.st.held) + (EncodeHeader(h) + partial)))
            && (!t.st.skip && h.kind !in ['Q', 'P', 'F', 'B', 'E', 'D', 'C', 'S', 'H'] ==>
                  sent == EncodeAll(t.up) + (EncodeAll(t.st.held) + if h.payloadLen > scratchMax then EncodeHeader(h) + partial else []))
  {
    hide Frames, TailOf, SessionRun, EncodeAll, EncodeHeader, Enforces, ValidMessages, WireLen;
    SessionIsValid(cfg, client, tx);
    var t := SessionRun(cfg, client, tx);
    assert EncodeAll(t.up) + [] == EncodeAll(t.up);
  }

  /** Without a policy it sends what came of the message exactly when the payload is too large for the scratch buffer. */
  lemma CutOffWithoutPolicy(cfg: Config, scratchMax: nat, client: Bytes, tx: nat -> Byte)
    requires !Enforces(cfg.pol) && TailOf(client).InPayload?
    ensures ValidTrace(SessionRun(cfg, client, tx))
    ensures SessionUp(cfg, scratchMax, client, tx) ==
            if TailOf(client).header.payloadLen > scratchMax then client else EncodeAll(Frames(client))
  {
    hide Frames, TailOf, Run, Inputs, EncodeAll, EncodeHeader, ValidMessages, Enforces;
    SessionIsValid(cfg, client, tx);
    TransparentWithoutPolicy(cfg, Inputs(Frames(client), tx));
    InputsAreMessages(Frames(client), tx);
    DecodeThenEncode(client);
    assert EncodeAll(Frames(client)) + [] == EncodeAll(Frames(client));
  }

  lemma DecodedIsSentOrHeld(cfg: Config, scratchMax: nat, client: Bytes, tx: nat -> Byte)
    ensures var t := SessionRun(cfg, client, tx);
            ValidTrace(t) && Frames(SessionUp(cfg, scratchMax, client, tx)) <= t.up + t.st.held
  {
    hide Frames, TailOf, SessionRun, SessionUp, ValidTrace;
    SessionUpDecodes(cfg, scratchMax, client, tx);
    var t := SessionRun(cfg, client, tx);
    assert t.up <= t.up + t.st.held;
  }

  /** Every message the backend can decode from an enforcing session is one the policy lets through. */
  lemma WireEnforcement(cfg: Config, scratchMax: nat, client: Bytes, tx: nat -> Byte, m: Message)
    requires Enforces(cfg.pol)
    requires ValidTrace(SessionRun(cfg, client, tx)) && m in Frames(SessionUp(cfg, scratchMax, client, tx))
    ensures m.kind != 'F'
    ensures m.kind == 'Q' ==> Evaluate(cfg.pol, QueryText(m.payload)) == Allowed
    ensures m.kind == 'P' ==>
            ParseQueryText(m.payload).Some? && Evaluate(cfg.pol, ParseQueryText(m.payload).value) == Allowed
  {
    hide Frames, Run, Inputs, EncodeAll, Enforces, Evaluate, QueryText, ParseQueryText, SessionUp;
    DecodedIsSentOrHeld(cfg, scratchMax, client, tx);
    Enforcement(cfg, Inputs(Frames(client), tx), m);
  }

  /** The SQL of every Query that the backend can decode from an enforcing session is statements that may pass. */
  lemma OnlyPassingStatements(
    cfg: Config, scratchMax: nat, client: Bytes, tx: nat -> Byte, m: Message, gs: seq<Rendering.Seg>, e: nat)
    requires Enforces(cfg.pol)
    requires ValidTrace(SessionRun(cfg, client, tx)) && m in Frames(SessionUp(cfg, scratchMax, client, tx))
    requires m.kind == 'Q' && Rendering.Fills(QueryText(m.payload), 0, gs, e)
    ensures forall i :: 0 <= i < |Rendering.StatementWords(gs)| ==> Keywords.MayPass(Rendering.StatementWords(gs)[i])
  {
    hide *;
    WireEnforcement(cfg, scratchMax, client, tx, m);
    AllowedExactly(cfg.pol, QueryText(m.payload), gs, e);
  }

  /** The backend decodes a subsequence of the client's own messages. */
  lemma WireOrder(cfg: Config, scratchMax: nat, client: Bytes, tx: nat -> Byte)
    ensures ValidTrace(SessionRun(cfg, client, tx))
    ensures IsSubsequence(Frames(SessionUp(cfg, scratchMax, client, tx)), Frames(client))
  {
    hide Frames, Run, Inputs, SessionUp, IsSubsequence, ValidTrace;
    DecodedIsSentOrHeld(cfg, scratchMax, client, tx);
    var t := SessionRun(cfg, client, tx);
    var ms := Frames(SessionUp(cfg, scratchMax, client, tx));
    OrderPreserved(cfg, Inputs(Frames(client), tx));
    InputsAreMessages(Frames(client), tx);
    SubsequencePrefix(t.up + t.st.held, Frames(client), |ms|);
    assert (t.up + t.st.held)[..|ms|] == ms;
  }

  lemma InputsAreMessages(ms: seq<Message>, tx: nat -> Byte)
    ensures Messages(Inputs(ms, tx)) == ms
  {
  }

  /** With no policy the backend receives a prefix of the client's bytes, all of them when the stream ends cleanly. */
  lemma WithoutPolicy(cfg: Config, scratchMax: nat, client: Bytes, tx: nat -> Byte)
    requires !Enforces(cfg.pol)
    ensures ValidTrace(SessionRun(cfg, client, tx)) && SessionRun(cfg, client, tx).replies == []
    ensures SessionUp(cfg, scratchMax, client, tx) <= client
    ensures TailOf(client) == AtBoundary ==> SessionUp(cfg, scratchMax, client, tx) == client
  {
    hide Frames, TailOf, Run, Inputs, EncodeAll, EncodeHeader, ValidMessages;
    SessionIsValid(cfg, client, tx);
    TransparentWithoutPolicy(cfg, Inputs(Frames(client), tx));
    InputsAreMessages(Frames(client), tx);
    DecodeThenEncode(client);
    assert EncodeAll(Frames(client)) + [] == EncodeAll(Frames(client));
  }

  // ---- A session in which nothing is denied ----

  lemma QuietWithoutError(cfg: Config, st: State, m: Message, tx: Byte)
    requires !st.skip
    ensures var e := Step(cfg, st, m, tx); ErrorOf(e.reply) == [] ==> e.reply == [] && !e.next.skip
  {
    RefusalIsError(cfg.pol, m);
    hide Refusal, Ready, ErrorFor, Fits;
  }

  predicate Quiet(t: Trace) {
    t.replies == [] && !t.st.skip
  }

  lemma QuietExtends(cfg: Config, t: Trace, i: Input)
    requires Errors(t.replies) == [] ==> Quiet(t)
    ensures var u := Extend(t, Step(cfg, t.st, i.m, i.tx)); Errors(u.replies) == [] ==> Quiet(u)
  {
    hide Step, Errors;
    var e := Step(cfg, t.st, i.m, i.tx);
    ErrorsExtend(t.replies, e.reply);
    if Errors(t.replies + Written(e.reply)) == [] {
      QuietWithoutError(cfg, t.st, i.m, i.tx);
    }
  }

  /** The first thing the proxy ever writes to the client is an error. */
  lemma {:induction false} NoErrorMeansQuiet(cfg: Config, ins: seq<Input>)
    ensures Errors(Run(cfg, IDLE, ins).replies) == [] ==> Quiet(Run(cfg, IDLE, ins))
    decreases |ins|
  {
    if ins != [] {
      hide *;
      var front, i := ins[..|ins| - 1], ins[|ins| - 1];
      assert ins == front + [i];
      NoErrorMeansQuiet(cfg, front);
      RunSnoc(cfg, IDLE, front, i);
      QuietExtends(cfg, Run(cfg, IDLE, front), i);
    }
  }

  /** The stream ends cleanly behind a message at which no batch can be held. */
  predicate EndsAtBoundary(client: Bytes) {
    var ms := Frames(client);
    TailOf(client) == AtBoundary && (ms != [] ==> IsBoundary(ms[|ms| - 1].kind))
  }

  lemma QuietSession(cfg: Config, scratchMax: nat, client: Bytes, tx: nat -> Byte)
    requires Enforces(cfg.pol) && EndsAtBoundary(client)
    requires SessionRun(cfg, client, tx).replies == []
    ensures ValidTrace(SessionRun(cfg, client, tx)) && SessionUp(cfg, scratchMax, client, tx) == client
  {
    hide Frames, TailOf, Run, Inputs, EncodeAll, ValidMessages, Enforces;
    SessionIsValid(cfg, client, tx);
    TransparentWhenQuiet(cfg, Inputs(Frames(client), tx));
    InputsAreMessages(Frames(client), tx);
    LastInput(Frames(client), tx);
    DecodeThenEncode(client);
    assert EncodeAll(Frames(client)) + [] == EncodeAll(Frames(client));
    if Frames(client) == [] {
      NothingRun(cfg, tx);
    }
  }

  lemma LastInput(ms: seq<Message>, tx: nat -> Byte)
    ensures ms != [] ==> Inputs(ms, tx) != [] && Inputs(ms, tx)[|ms| - 1].m == ms[|ms| - 1]
  {
  }

  lemma NothingRun(cfg: Config, tx: nat -> Byte)
    ensures Run(cfg, IDLE, Inputs([], tx)) == Trace(IDLE, [], [])
  {
    assert Inputs([], tx) == [];
  }

  /**
   A session in which nothing is denied under one hold budget is byte for byte
   invisible under every budget: the backend receives the client's stream.
   */
  lemma InvisibleForEveryBudget(a: Config, b: Config, scratchMax: nat, client: Bytes, tx: nat -> Byte)
    requires Enforces(a.pol) && a.pol == b.pol && EndsAtBoundary(client)
    requires SessionRun(a, client, tx).replies == []
    ensures SessionRun(b, client, tx).replies == [] && ValidTrace(SessionRun(b, client, tx))
    ensures SessionUp(b, scratchMax, client, tx) == client
  {
    var ins := Inputs(Frames(client), tx);
    assert Errors([]) == [];
    hide Frames, Run, Inputs, Enforces, EndsAtBoundary, Errors;
    BudgetIndependentVerdicts(a, b, ins);
    NoErrorMeansQuiet(b, ins);
    QuietSession(b, scratchMax, client, tx);
  }
}
