/**
 What holds over every run of the policy filter, for every policy and hold budget.
 Each law is an invariant of the run, proved one message at a time.
 */
module FilterLaws {
  import opened Wrappers
  import opened Wire
  import opened Policies
  import opened Machine

  // ---- Release tracking ----

  /** The messages of the extended query protocol that a Sync ends: Parse, Bind, Execute, Describe, Close and Flush. */
  predicate IsExtended(k: Byte) {
    k == 'P' || k == 'B' || k == 'E' || k == 'D' || k == 'C' || k == 'H'
  }

  /** The extended-protocol messages sent upstream since the last Sync or Query that was sent. */
  function Unsynced(up: seq<Message>): seq<Message> {
    if up == [] then []
    else
      var front, last := up[..|up| - 1], up[|up| - 1];
      if last.kind == 'S' || last.kind == 'Q' then []
      else if IsExtended(last.kind) then Unsynced(front) + [last]
      else Unsynced(front)
  }

  predicate BatchOnly(ms: seq<Message>) {
    forall m :: m in ms ==> IsExtended(m.kind) && m.kind != 'H'
  }

  /** The state of a filter that has sent up. */
  ghost predicate Tracks(cfg: Config, st: State, up: seq<Message>) {
    && BatchOnly(st.held)
    && WireLen(st.held) <= cfg.maxHeld
    && (st.skip ==> st.held == [])
    && (st.released <==> Unsynced(up) != [])
  }

  lemma UnsyncedSnoc(up: seq<Message>, m: Message)
    ensures Unsynced(up + [m]) ==
            if m.kind == 'S' || m.kind == 'Q' then []
            else if IsExtended(m.kind) then Unsynced(up) + [m]
            else Unsynced(up)
  {
    assert (up + [m])[..|up|] == up;
  }

  lemma BatchKinds(k: Byte)
    ensures IsBatchKind(k) <==> IsExtended(k) && k != 'H'
    ensures IsExtended(k) ==> k != 'S' && k != 'Q' && k != 'F'
  {
  }

  lemma {:induction false} UnsyncedBatch(up: seq<Message>, b: seq<Message>)
    requires BatchOnly(b)
    ensures Unsynced(up + b) == Unsynced(up) + b
    decreases |b|
  {
    hide Unsynced, IsBatchKind;
    if b == [] {
      assert up + b == up && Unsynced(up) + b == Unsynced(up);
    } else {
      var c, m := b[..|b| - 1], b[|b| - 1];
      assert m in b && IsExtended(m.kind) && m.kind != 'S' && m.kind != 'Q' by { BatchKinds(m.kind); }
      UnsyncedBatch(up, c);
      assert up + b == (up + c) + [m];
      UnsyncedSnoc(up + c, m);
      assert Unsynced(up) + b == (Unsynced(up) + c) + [m];
    }
  }

  lemma WireLenSnoc(ms: seq<Message>, m: Message)
    ensures WireLen(ms + [m]) == WireLen(ms) + 5 + |m.payload|
  {
    assert (ms + [m])[..|ms|] == ms;
  }

  /** Everything a step can send: nothing, the message alone, the held batch, or the held batch and the message. */
  lemma SentUnsynced(up: seq<Message>, held: seq<Message>, m: Message)
    requires BatchOnly(held)
    ensures Unsynced(up + []) == Unsynced(up)
    ensures Unsynced(up + held) == Unsynced(up) + held
    ensures Unsynced(up + [m]) == if m.kind == 'S' || m.kind == 'Q' then [] else if IsExtended(m.kind) then Unsynced(up) + [m] else Unsynced(up)
    ensures Unsynced(up + (held + [m])) ==
            if m.kind == 'S' || m.kind == 'Q' then []
            else if IsExtended(m.kind) then Unsynced(up) + held + [m]
            else Unsynced(up) + held
  {
    hide Unsynced;
    assert up + [] == up;
    UnsyncedBatch(up, held);
    UnsyncedSnoc(up, m);
    assert up + (held + [m]) == (up + held) + [m];
    UnsyncedSnoc(up + held, m);
  }

  lemma HoldTracks(cfg: Config, st: State, up: seq<Message>, m: Message)
    requires Tracks(cfg, st, up) && IsBatchKind(m.kind) && !st.skip
    ensures var e := Hold(cfg, st, m); Tracks(cfg, e.next, up + e.up)
  {
    BatchSnoc(st.held, m);
    if Fits(cfg, st.held, |m.payload|) {
      assert up + [] == up;
      hide Unsynced, WireLen, BatchOnly, IsBatchKind;
    } else {
      OverflowTracks(cfg, st.held, up, m);
      hide Tracks;
    }
  }

  lemma OverflowTracks(cfg: Config, held: seq<Message>, up: seq<Message>, m: Message)
    requires BatchOnly(held) && IsBatchKind(m.kind)
    ensures Tracks(cfg, State([], true, false), up + (held + [m]))
  {
    SentUnsynced(up, held, m);
    BatchSnoc(held, m);
    assert WireLen([]) == 0;
    hide Unsynced, WireLen, BatchOnly;
    assert |Unsynced(up) + held + [m]| > 0;
  }

  lemma BatchSnoc(ms: seq<Message>, m: Message)
    requires BatchOnly(ms) && IsBatchKind(m.kind)
    ensures BatchOnly(ms + [m]) && BatchOnly([]) && WireLen(ms + [m]) == WireLen(ms) + 5 + |m.payload|
  {
    WireLenSnoc(ms, m);
  }

  /** The held batch goes out alone. */
  lemma FlushAloneTracks(cfg: Config, st: State, up: seq<Message>)
    requires Tracks(cfg, st, up) && !st.skip
    ensures Tracks(cfg, Flushed(st), up + st.held)
  {
    UnsyncedBatch(up, st.held);
    hide Unsynced;
    assert up + [] == up;
    assert WireLen([]) == 0;
  }

  /** The held batch goes out followed by a message that does not end the batch. */
  lemma FlushTracks(cfg: Config, st: State, up: seq<Message>, m: Message)
    requires Tracks(cfg, st, up) && !st.skip && m.kind != 'S' && m.kind != 'Q'
    ensures !IsExtended(m.kind) ==> Tracks(cfg, Flushed(st), up + (st.held + [m]))
    ensures m.kind == 'H' ==> Tracks(cfg, State([], true, false), up + (st.held + [m]))
  {
    SentUnsynced(up, st.held, m);
    hide Unsynced;
    assert WireLen([]) == 0;
  }

  /** A Sync or a Query that goes upstream ends the batch there. */
  lemma EndTracks(cfg: Config, st: State, up: seq<Message>, m: Message)
    requires Tracks(cfg, st, up) && (m.kind == 'S' || m.kind == 'Q')
    ensures Tracks(cfg, IDLE, up + [m]) && Tracks(cfg, IDLE, up + (st.held + [m]))
    ensures !st.released ==> Tracks(cfg, IDLE, up + [])
  {
    SentUnsynced(up, st.held, m);
    hide Unsynced;
    assert WireLen([]) == 0;
  }

  /** What is not sent changes nothing, and a denied batch is dropped. */
  lemma NothingSentTracks(cfg: Config, st: State, up: seq<Message>)
    requires Tracks(cfg, st, up)
    ensures Tracks(cfg, st, up + []) && Tracks(cfg, State([], st.released, true), up + [])
  {
    assert up + [] == up;
    assert WireLen([]) == 0;
  }

  lemma StepTracks(cfg: Config, st: State, up: seq<Message>, m: Message, tx: Byte)
    requires Enforces(cfg.pol) && Tracks(cfg, st, up)
    ensures var e := Step(cfg, st, m, tx); Tracks(cfg, e.next, up + e.up)
  {
    hide Tracks, Hold, Flushed, Refusal, Ready, ErrorFor;
    SkipHoldsNothing(cfg, st, up);
    NothingSentTracks(cfg, st, up);
    if m.kind == 'S' || m.kind == 'Q' {
      EndTracks(cfg, st, up, m);
      if !st.skip { FlushAloneTracks(cfg, st, up); }
    } else if !st.skip {
      FlushTracks(cfg, st, up, m);
      if IsBatchKind(m.kind) { HoldTracks(cfg, st, up, m); }
    }
  }

  /**
   At every message boundary of every enforcing run: the release mark is set exactly
   when an extended-protocol message has gone upstream since the last Sync or Query
   that went upstream; nothing is held while a denied batch is skipped; and the held
   batch is only Parse, Bind, Execute, Describe and Close, within the budget.
   */
  lemma {:induction false} ReleaseTracking(cfg: Config, ins: seq<Input>)
    requires Enforces(cfg.pol)
    ensures var t := Run(cfg, IDLE, ins); Tracks(cfg, t.st, t.up)
    decreases |ins|
  {
    hide Step, Tracks, Written;
    if ins == [] {
      IdleTracks(cfg);
    } else {
      var front, i := ins[..|ins| - 1], ins[|ins| - 1];
      ReleaseTracking(cfg, front);
      var t := Run(cfg, IDLE, front);
      StepTracks(cfg, t.st, t.up, i.m, i.tx);
    }
  }

  lemma SkipHoldsNothing(cfg: Config, st: State, up: seq<Message>)
    requires Tracks(cfg, st, up)
    ensures st.skip ==> st.held == []
  {
  }

  lemma IdleTracks(cfg: Config)
    ensures Tracks(cfg, IDLE, [])
  {
  }

  /** With the code's budget no batch of any run holds more than one mebibyte. */
  lemma HeldIsBounded(pol: Policy, ins: seq<Input>)
    requires Enforces(pol)
    ensures WireLen(Run(Config(pol, MAX_HELD), IDLE, ins).st.held) <= 1048576
  {
    hide Run, WireLen, Unsynced, BatchOnly;
    ReleaseTracking(Config(pol, MAX_HELD), ins);
  }

  /** After every client Sync the filter is idle again and the backend is owed none. */
  lemma SyncResynchronizes(cfg: Config, ins: seq<Input>, i: Input)
    requires Enforces(cfg.pol) && i.m.kind == 'S'
    ensures var t := Run(cfg, IDLE, ins + [i]); t.st == IDLE && Unsynced(t.up) == []
  {
    hide *;
    var t := Run(cfg, IDLE, ins);
    ReleaseTracking(cfg, ins);
    ReleaseTracking(cfg, ins + [i]);
    RunSnoc(cfg, IDLE, ins, i);
    SkipHoldsNothing(cfg, t.st, t.up);
    SyncStep(cfg, t.st, i.m, i.tx);
    NextOfExtend(t, Step(cfg, t.st, i.m, i.tx));
    IdleIsSynced(cfg, Run(cfg, IDLE, ins + [i]).up);
  }

  lemma SyncStep(cfg: Config, st: State, m: Message, tx: Byte)
    requires Enforces(cfg.pol) && m.kind == 'S' && (st.skip ==> st.held == [])
    ensures Step(cfg, st, m, tx).next == IDLE
  {
    hide Ready;
  }

  lemma NextOfExtend(t: Trace, e: Effect)
    ensures Extend(t, e).st == e.next
  {
    hide Written;
  }

  lemma IdleIsSynced(cfg: Config, up: seq<Message>)
    ensures Tracks(cfg, IDLE, up) ==> Unsynced(up) == []
  {
    hide Unsynced, WireLen, BatchOnly;
  }

  // ---- Enforcement ----

  /** What may reach the backend under an enforced policy. */
  predicate IsCleared(pol: Policy, m: Message) {
    Refusal(pol, m) == None
  }

  predicate AllCleared(pol: Policy, ms: seq<Message>) {
    forall m :: m in ms ==> IsCleared(pol, m)
  }

  lemma StepClears(cfg: Config, st: State, m: Message, tx: Byte)
    requires Enforces(cfg.pol) && AllCleared(cfg.pol, st.held) && (st.skip ==> st.held == [])
    ensures var e := Step(cfg, st, m, tx);
            AllCleared(cfg.pol, e.up) && AllCleared(cfg.pol, e.next.held) && (e.next.skip ==> e.next.held == [])
  {
    UninspectedIsCleared(cfg.pol, m);
    hide Refusal, Ready, ErrorFor, Fits;
  }

  lemma UninspectedIsCleared(pol: Policy, m: Message)
    ensures m.kind != 'Q' && m.kind != 'P' && m.kind != 'F' ==> IsCleared(pol, m)
  {
  }

  /** Over every enforcing run, nothing the filter refuses is ever sent or held, whatever its size. */
  lemma {:induction false} OnlyClearedMessages(cfg: Config, ins: seq<Input>)
    requires Enforces(cfg.pol)
    ensures var t := Run(cfg, IDLE, ins);
            AllCleared(cfg.pol, t.up) && AllCleared(cfg.pol, t.st.held) && (t.st.skip ==> t.st.held == [])
    decreases |ins|
  {
    hide Step, Written, IsCleared;
    if ins != [] {
      var front, i := ins[..|ins| - 1], ins[|ins| - 1];
      OnlyClearedMessages(cfg, front);
      StepClears(cfg, Run(cfg, IDLE, front).st, i.m, i.tx);
    }
  }

  /** What clearance means: allowed SQL, a Parse with both terminators, and no function call. */
  lemma ClearedMeaning(pol: Policy, m: Message)
    ensures IsCleared(pol, m) <==>
            && (m.kind == 'Q' ==> Evaluate(pol, QueryText(m.payload)) == Allowed)
            && (m.kind == 'P' ==> ParseQueryText(m.payload).Some? && Evaluate(pol, ParseQueryText(m.payload).value) == Allowed)
            && m.kind != 'F'
  {
    hide ParseQueryText, QueryText, Evaluate;
  }

  /** While the policy enforces, every Query and every Parse sent or held carries SQL it allows. */
  lemma Enforcement(cfg: Config, ins: seq<Input>, m: Message)
    requires Enforces(cfg.pol)
    requires var t := Run(cfg, IDLE, ins); m in t.up + t.st.held
    ensures m.kind != 'F'
    ensures m.kind == 'Q' ==> Evaluate(cfg.pol, QueryText(m.payload)) == Allowed
    ensures m.kind == 'P' ==>
            ParseQueryText(m.payload).Some? && Evaluate(cfg.pol, ParseQueryText(m.payload).value) == Allowed
  {
    hide Run, Step, IsCleared;
    OnlyClearedMessages(cfg, ins);
    ClearedMeaning(cfg.pol, m);
  }

  // ---- Order ----

  /** a is b with some messages left out. */
  ghost predicate IsSubsequence(a: seq<Message>, b: seq<Message>)
    decreases |b|
  {
    if b == [] then a == []
    else
      || IsSubsequence(a, b[..|b| - 1])
      || (a != [] && a[|a| - 1] == b[|b| - 1] && IsSubsequence(a[..|a| - 1], b[..|b| - 1]))
  }

  lemma SubsequenceSnoc(a: seq<Message>, b: seq<Message>, m: Message)
    requires IsSubsequence(a, b)
    ensures IsSubsequence(a, b + [m]) && IsSubsequence(a + [m], b + [m])
  {
    assert (b + [m])[..|b|] == b && (a + [m])[..|a|] == a;
  }

  lemma {:induction false} SubsequencePrefix(a: seq<Message>, b: seq<Message>, k: nat)
    requires k <= |a| && IsSubsequence(a, b)
    ensures IsSubsequence(a[..k], b)
    decreases |b|
  {
    if k < |a| {
      var c := b[..|b| - 1];
      if IsSubsequence(a, c) {
        SubsequencePrefix(a, c, k);
      } else {
        SubsequencePrefix(a[..|a| - 1], c, k);
        assert a[..|a| - 1][..k] == a[..k];
      }
    } else {
      assert a[..k] == a;
    }
  }

  /** Where a step puts the held batch and the message. */
  lemma StepShape(cfg: Config, st: State, m: Message, tx: Byte)
    requires st.skip || !Enforces(cfg.pol) ==> st.held == []
    ensures var e := Step(cfg, st, m, tx);
            || (e.up == st.held + [m] && e.next.held == [])
            || (e.up == [] && e.next.held == st.held + [m])
            || (e.up == st.held && e.next.held == [])
            || (e.up == [] && e.next.held == st.held)
            || (e.up == e.next.held == [])
            || (e.up == [m] && e.next.held == st.held == [])
    ensures st.skip || !Enforces(cfg.pol) || Step(cfg, st, m, tx).next.skip ==> Step(cfg, st, m, tx).next.held == []
  {
    hide Refusal, Ready, ErrorFor, Fits, Enforces;
  }

  /** A step keeps or drops the held batch, and keeps or drops the message. */
  lemma StepKeepsOrder(cfg: Config, st: State, m: Message, tx: Byte)
    requires st.skip || !Enforces(cfg.pol) ==> st.held == []
    ensures var e := Step(cfg, st, m, tx);
            || e.up + e.next.held == st.held
            || e.up + e.next.held == st.held + [m]
            || e.up + e.next.held == []
    ensures st.skip || !Enforces(cfg.pol) || Step(cfg, st, m, tx).next.skip ==> Step(cfg, st, m, tx).next.held == []
  {
    hide Step, Enforces;
    StepShape(cfg, st, m, tx);
    assert st.held + [] == st.held && [] + st.held == st.held && [] + [m] == [m];
    assert [] + (st.held + [m]) == st.held + [m] && st.held + [m] + [] == st.held + [m];
  }

  ghost predicate Ordered(cfg: Config, t: Trace, ms: seq<Message>) {
    && IsSubsequence(t.up + t.st.held, ms)
    && (!Enforces(cfg.pol) ==> t.st.held == [])
    && (t.st.skip ==> t.st.held == [])
  }

  lemma OrderedStep(cfg: Config, t: Trace, ms: seq<Message>, i: Input)
    requires Ordered(cfg, t, ms)
    ensures Ordered(cfg, Extend(t, Step(cfg, t.st, i.m, i.tx)), ms + [i.m])
  {
    hide Step, IsSubsequence, Written;
    var e := Step(cfg, t.st, i.m, i.tx);
    StepKeepsOrder(cfg, t.st, i.m, i.tx);
    OrderStep(t.up, t.st.held, e.up, e.next.held, i.m, ms);
  }

  lemma {:induction false} RunIsOrdered(cfg: Config, ins: seq<Input>)
    ensures Ordered(cfg, Run(cfg, IDLE, ins), Messages(ins))
    decreases |ins|
  {
    if ins == [] {
      assert IsSubsequence([], []);
    } else {
      hide *;
      var front, i := ins[..|ins| - 1], ins[|ins| - 1];
      assert ins == front + [i];
      RunIsOrdered(cfg, front);
      RunSnoc(cfg, IDLE, front, i);
      OrderedStep(cfg, Run(cfg, IDLE, front), Messages(front), i);
    }
  }

  /** What was sent and what is held are messages of the client, each whole, in the client's order. */
  lemma OrderPreserved(cfg: Config, ins: seq<Input>)
    ensures var t := Run(cfg, IDLE, ins); IsSubsequence(t.up + t.st.held, Messages(ins))
  {
    RunIsOrdered(cfg, ins);
    hide Run, IsSubsequence;
  }

  lemma OrderStep(up: seq<Message>, held: seq<Message>, sent: seq<Message>, kept: seq<Message>, m: Message, ms: seq<Message>)
    requires IsSubsequence(up + held, ms)
    requires sent + kept == held || sent + kept == held + [m] || sent + kept == []
    ensures IsSubsequence(up + sent + kept, ms + [m])
  {
    hide IsSubsequence;
    assert up + sent + kept == up + (sent + kept);
    SubsequenceSnoc(up + held, ms, m);
    assert up + held + [m] == up + (held + [m]);
    SubsequencePrefix(up + held, ms, |up|);
    assert (up + held)[..|up|] == up && up + [] == up;
    SubsequenceSnoc(up, ms, m);
  }

  // ---- A policy that does not enforce ----

  lemma UncheckedStep(cfg: Config, st: State, m: Message, tx: Byte)
    requires !Enforces(cfg.pol) && !st.skip
    ensures Step(cfg, st, m, tx) == Effect(st, [m], [])
  {
  }

  /** With no policy, every client message goes upstream and nothing is synthesized. */
  lemma {:induction false} TransparentWithoutPolicy(cfg: Config, ins: seq<Input>)
    requires !Enforces(cfg.pol)
    ensures Run(cfg, IDLE, ins) == Trace(IDLE, Messages(ins), [])
    decreases |ins|
  {
    if ins != [] {
      hide Run, Messages, Step, Enforces;
      var front, i := ins[..|ins| - 1], ins[|ins| - 1];
      assert ins == front + [i];
      TransparentWithoutPolicy(cfg, front);
      RunSnoc(cfg, IDLE, front, i);
      UncheckedStep(cfg, IDLE, i.m, i.tx);
    }
  }

  // ---- A policy that denies nothing ----

  /** The kinds at which the batch is over or must reach the backend. */
  predicate IsBoundary(k: Byte) {
    k == 'H' || (!IsExtended(k) && k != 'F')
  }

  /** A step without an answer sends or holds the batch and the message. */
  lemma QuietShape(cfg: Config, st: State, m: Message, tx: Byte)
    requires Enforces(cfg.pol) && !st.skip && Step(cfg, st, m, tx).reply == []
    ensures var e := Step(cfg, st, m, tx);
            && !e.next.skip
            && ((e.up == st.held + [m] && e.next.held == []) || (IsBatchKind(m.kind) && e.up == [] && e.next.held == st.held + [m]))
  {
    hide Ready, ErrorFor, Fits;
  }

  lemma QuietStep(cfg: Config, st: State, m: Message, tx: Byte)
    requires Enforces(cfg.pol) && !st.skip
    ensures var e := Step(cfg, st, m, tx);
            e.reply == [] ==> !e.next.skip && e.up + e.next.held == st.held + [m] && (IsBoundary(m.kind) ==> e.next.held == [])
  {
    hide Step, IsBatchKind;
    BatchKinds(m.kind);
    if Step(cfg, st, m, tx).reply == [] {
      QuietShape(cfg, st, m, tx);
    }
    assert st.held + [m] + [] == st.held + [m] && [] + (st.held + [m]) == st.held + [m];
  }

  lemma Regroup(up: seq<Message>, held: seq<Message>, sent: seq<Message>, kept: seq<Message>, m: Message)
    requires sent + kept == held + [m]
    ensures up + sent + kept == up + held + [m] && (kept == [] ==> up + sent == up + held + [m])
  {
    assert up + sent + kept == up + (sent + kept);
    assert up + held + [m] == up + (held + [m]);
  }

  lemma NothingRuns(cfg: Config)
    ensures var t := Run(cfg, IDLE, []); !t.st.skip && t.st.held == [] && t.up == [] == Messages([]) && t.up + t.st.held == []
  {
  }

  lemma ExtendParts(t: Trace, e: Effect)
    ensures Extend(t, e).st == e.next && Extend(t, e).up == t.up + e.up
  {
    hide Written;
  }

  lemma QuietPrefix(cfg: Config, ins: seq<Input>)
    requires ins != [] && Run(cfg, IDLE, ins).replies == []
    ensures var t := Run(cfg, IDLE, ins[..|ins| - 1]);
            t.replies == [] && Step(cfg, t.st, ins[|ins| - 1].m, ins[|ins| - 1].tx).reply == []
  {
    hide Step;
  }

  /**
   A run in which nothing is answered by the proxy loses nothing: sent and held are
   the client's messages, and at a boundary nothing is held.
   */
  lemma {:induction false} TransparentWhenQuiet(cfg: Config, ins: seq<Input>)
    requires Enforces(cfg.pol) && Run(cfg, IDLE, ins).replies == []
    ensures var t := Run(cfg, IDLE, ins);
            && !t.st.skip
            && t.up + t.st.held == Messages(ins)
            && (ins != [] && IsBoundary(ins[|ins| - 1].m.kind) ==> t.st.held == [] && t.up == Messages(ins))
    decreases |ins|
  {
    hide *;
    if ins == [] {
      NothingRuns(cfg);
    } else {
      var front, i := ins[..|ins| - 1], ins[|ins| - 1];
      assert ins == front + [i];
      var t := Run(cfg, IDLE, front);
      var e := Step(cfg, t.st, i.m, i.tx);
      QuietPrefix(cfg, ins);
      TransparentWhenQuiet(cfg, front);
      QuietStep(cfg, t.st, i.m, i.tx);
      RunSnoc(cfg, IDLE, front, i);
      ExtendParts(t, e);
      Regroup(t.up, t.st.held, e.up, e.next.held, i.m);
    }
  }

  // ---- The hold budget decides nothing but when bytes are released ----

  function Errors(replies: seq<seq<Message>>): seq<Message> {
    if replies == [] then []
    else
      var last := replies[|replies| - 1];
      Errors(replies[..|replies| - 1]) + if last != [] && last[0].kind == 'E' then [last[0]] else []
  }

  lemma ErrorsExtend(replies: seq<seq<Message>>, reply: seq<Message>)
    ensures Errors(replies + Written(reply)) ==
            Errors(replies) + if reply != [] && reply[0].kind == 'E' then [reply[0]] else []
  {
    if reply == [] {
      assert replies + Written(reply) == replies;
    } else {
      assert (replies + [reply])[..|replies|] == replies;
    }
  }

  lemma RefusalIsError(pol: Policy, m: Message)
    ensures Refusal(pol, m).Some? ==> Refusal(pol, m).value.kind == 'E'
    ensures forall tx :: Ready(tx).kind == 'Z'
  {
    hide Evaluate, ParseQueryText, QueryText, ErrorFor, ReadyStatus;
  }

  function ErrorOf(reply: seq<Message>): seq<Message> {
    if reply != [] && reply[0].kind == 'E' then [reply[0]] else []
  }

  lemma StepBudget(a: Config, b: Config, s: State, t: State, m: Message, tx: Byte)
    requires a.pol == b.pol && s.skip == t.skip
    ensures var e, f := Step(a, s, m, tx), Step(b, t, m, tx);
            e.next.skip == f.next.skip && ErrorOf(e.reply) == ErrorOf(f.reply)
  {
    RefusalIsError(a.pol, m);
    hide Refusal, Ready, ErrorFor, Fits;
  }

  /** Under any two budgets the same messages are refused, with the same errors, and the same batches are skipped. */
  lemma {:induction false} BudgetIndependentVerdicts(a: Config, b: Config, ins: seq<Input>)
    requires a.pol == b.pol
    ensures var s, t := Run(a, IDLE, ins), Run(b, IDLE, ins);
            s.st.skip == t.st.skip && Errors(s.replies) == Errors(t.replies)
    decreases |ins|
  {
    if ins != [] {
      hide Step, Errors, Written;
      var front, i := ins[..|ins| - 1], ins[|ins| - 1];
      var s, t := Run(a, IDLE, front), Run(b, IDLE, front);
      BudgetIndependentVerdicts(a, b, front);
      StepBudget(a, b, s.st, t.st, i.m, i.tx);
      ErrorsExtend(s.replies, Step(a, s.st, i.m, i.tx).reply);
      ErrorsExtend(t.replies, Step(b, t.st, i.m, i.tx).reply);
    }
  }
}
