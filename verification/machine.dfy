/**
 The policy filter of internal/proxy/pg/pg.go as a pure machine over whole
 messages: what each client message does to the held batch, what it sends
 upstream, and what it answers to the client.
 */
module Machine {
  import opened Wrappers
  import opened Wire
  import opened Policies

  /** The policy and the hold budget; the code's budget is MAX_HELD. */
  datatype Config = Config(pol: Policy, maxHeld: nat)

  const MAX_HELD: nat := 0x10_0000

  /** The held batch, whether part of the batch was released, and whether a denied batch is being skipped. */
  datatype State = State(held: seq<Message>, released: bool, skip: bool)

  const IDLE := State([], false, false)

  /** The next state, the messages forwarded, and the messages of the one locked client write, if any. */
  datatype Effect = Effect(next: State, up: seq<Message>, reply: seq<Message>)

  predicate IsBatchKind(k: Byte) {
    k == 'P' || k == 'B' || k == 'E' || k == 'D' || k == 'C'
  }

  function WireLen(ms: seq<Message>): nat {
    if ms == [] then 0 else WireLen(ms[..|ms| - 1]) + 5 + |ms[|ms| - 1].payload|
  }

  /** An error inside a transaction aborts it: anything but idle is reported as failed. */
  function ReadyStatus(tx: Byte): Byte {
    if tx == 'I' then 'I' else 'E'
  }

  function Ready(tx: Byte): Message {
    ReadyForQuery(ReadyStatus(tx))
  }

  /** Why the filter refuses a message. */
  datatype Cause = ByRule(rule: Bytes) | MalformedParse | FastPathCall

  /** The standard SQLSTATE closest to the cause. */
  function SqlState(c: Cause): Bytes {
    match c
    case ByRule(_) => Ascii("42501")
    case MalformedParse => Ascii("08P01")
    case FastPathCall => Ascii("0A000")
  }

  function ErrorText(c: Cause): Bytes {
    match c
    case ByRule(rule) => Ascii("blocked by tapaside policy (") + rule + Ascii(")")
    case MalformedParse => Ascii("tapaside: malformed Parse message")
    case FastPathCall => Ascii("tapaside: fast-path function calls are not supported while a policy is active")
  }

  function ErrorFor(c: Cause): (m: Message)
    ensures m.kind == 'E'
  {
    ErrorResponse(SqlState(c), ErrorText(c))
  }

  /** The error a message is refused with, if the filter inspects and refuses it. */
  function Refusal(pol: Policy, m: Message): Option<Message> {
    if m.kind == 'Q' then
      match Evaluate(pol, QueryText(m.payload))
      case Allowed => None
      case Blocked(rule) => Some(ErrorFor(ByRule(rule)))
    else if m.kind == 'P' then
      match ParseQueryText(m.payload)
      case None => Some(ErrorFor(MalformedParse))
      case Some(sql) =>
        (match Evaluate(pol, sql)
         case Allowed => None
         case Blocked(rule) => Some(ErrorFor(ByRule(rule))))
    else if m.kind == 'F' then Some(ErrorFor(FastPathCall))
    else None
  }

  /** Everything held goes upstream, and the batch counts as released. */
  function Flushed(st: State): State {
    if st.held == [] then st else State([], true, st.skip)
  }

  /** holdBudget: there is room for a payload of this length and its header. */
  predicate Fits(cfg: Config, held: seq<Message>, payloadLen: nat) {
    WireLen(held) + 5 + payloadLen <= cfg.maxHeld
  }

  /** A message that cannot fit the budget is forwarded past the batch, behind what was held. */
  function Hold(cfg: Config, st: State, m: Message): Effect {
    if Fits(cfg, st.held, |m.payload|) then Effect(State(st.held + [m], st.released, st.skip), [], [])
    else Effect(State([], true, st.skip), st.held + [m], [])
  }

  function OnSkip(st: State, m: Message, tx: Byte): Effect {
    if m.kind != 'S' then Effect(st, [], [])
    else if st.released then Effect(State(st.held, false, false), [m], [])
    else Effect(State(st.held, false, false), [], [Ready(tx)])
  }

  function OnQuery(cfg: Config, st: State, m: Message, tx: Byte): Effect {
    match Refusal(cfg.pol, m)
    case Some(e) => Effect(Flushed(st), st.held, [e, Ready(tx)])
    case None => Effect(State([], false, st.skip), st.held + [m], [])
  }

  function OnParse(cfg: Config, st: State, m: Message): Effect {
    match Refusal(cfg.pol, m)
    case Some(e) => Effect(State([], st.released, true), [], [e])
    case None => Hold(cfg, st, m)
  }

  function OnSync(st: State, m: Message): Effect {
    Effect(State([], false, st.skip), st.held + [m], [])
  }

  function OnFlush(st: State, m: Message): Effect {
    Effect(State([], true, st.skip), st.held + [m], [])
  }

  function OnOther(st: State, m: Message): Effect {
    Effect(Flushed(st), st.held + [m], [])
  }

  /** One client message; tx is the transaction status recorded when an answer is synthesized. */
  function Step(cfg: Config, st: State, m: Message, tx: Byte): Effect {
    if st.skip then OnSkip(st, m, tx)
    else if !Enforces(cfg.pol) then Effect(st, [m], [])
    else if m.kind == 'Q' then OnQuery(cfg, st, m, tx)
    else if m.kind == 'P' then OnParse(cfg, st, m)
    else if IsBatchKind(m.kind) then Hold(cfg, st, m)
    else if m.kind == 'S' then OnSync(st, m)
    else if m.kind == 'H' then OnFlush(st, m)
    else if m.kind == 'F' then Effect(st, [], [ErrorFor(FastPathCall), Ready(tx)])
    else OnOther(st, m)
  }

  // ---- Runs ----

  datatype Input = Input(m: Message, tx: Byte)

  /** The final state, everything sent upstream, and every locked client write, in order. */
  datatype Trace = Trace(st: State, up: seq<Message>, replies: seq<seq<Message>>)

  function Written(reply: seq<Message>): seq<seq<Message>> {
    if reply == [] then [] else [reply]
  }

  function Extend(t: Trace, e: Effect): Trace {
    Trace(e.next, t.up + e.up, t.replies + Written(e.reply))
  }

  function Run(cfg: Config, start: State, ins: seq<Input>): Trace {
    if ins == [] then Trace(start, [], [])
    else
      var t := Run(cfg, start, ins[..|ins| - 1]);
      Extend(t, Step(cfg, t.st, ins[|ins| - 1].m, ins[|ins| - 1].tx))
  }

  function Messages(ins: seq<Input>): (ms: seq<Message>)
    ensures |ms| == |ins|
  {
    seq(|ins|, i requires 0 <= i < |ins| => ins[i].m)
  }

  lemma RunSnoc(cfg: Config, start: State, ins: seq<Input>, i: Input)
    ensures var t := Run(cfg, start, ins); Run(cfg, start, ins + [i]) == Extend(t, Step(cfg, t.st, i.m, i.tx))
    ensures Messages(ins + [i]) == Messages(ins) + [i.m]
  {
    hide Step, Extend;
    assert (ins + [i])[..|ins|] == ins;
  }

  /** A run is its first part followed by its second. */
  lemma {:induction false} RunAppend(cfg: Config, start: State, a: seq<Input>, b: seq<Input>)
    ensures var t := Run(cfg, start, a);
            var u := Run(cfg, t.st, b);
            Run(cfg, start, a + b) == Trace(u.st, t.up + u.up, t.replies + u.replies)
    decreases |b|
  {
    hide Run, Step, Written, Messages, Extend;
    if b == [] {
      assert a + b == a;
      RunNothing(cfg, Run(cfg, start, a).st);
      assert Run(cfg, start, a).up + [] == Run(cfg, start, a).up;
      assert Run(cfg, start, a).replies + [] == Run(cfg, start, a).replies;
    } else {
      var c, i := b[..|b| - 1], b[|b| - 1];
      var t := Run(cfg, start, a);
      var u := Run(cfg, t.st, c);
      RunAppend(cfg, start, a, c);
      assert a + b == (a + c) + [i] && b == c + [i];
      RunSnoc(cfg, start, a + c, i);
      RunSnoc(cfg, t.st, c, i);
      ExtendBehind(t, u, Step(cfg, u.st, i.m, i.tx));
    }
  }

  lemma RunNothing(cfg: Config, st: State)
    ensures Run(cfg, st, []) == Trace(st, [], [])
  {
  }

  lemma ExtendBehind(t: Trace, u: Trace, e: Effect)
    ensures var v := Extend(u, e);
            Extend(Trace(u.st, t.up + u.up, t.replies + u.replies), e) == Trace(v.st, t.up + v.up, t.replies + v.replies)
  {
    hide Written;
    assert t.up + u.up + e.up == t.up + (u.up + e.up);
    assert t.replies + u.replies + Written(e.reply) == t.replies + (u.replies + Written(e.reply));
  }
}
