/**
 The connection slots and the shutdown of Server.Serve (internal/proxy/proxy.go) as
 interleaved atomic moves of the accept loop and of every session.  Connections are
 numbered in the order they are accepted.
 */
module Server {
  /** The accept loop and what follows it; mu is held while Sweeping. */
  datatype Loop =
    | Accepting
    | Deciding(conn: nat)
    | Registering(conn: nat)
    | Spawning(conn: nat)
    | Draining
    | Sweeping(left: set<nat>)
    | DrainingAgain
    | Returned

  /** The limits; maxConns zero means no limit, and without a timeout the drain waits forever. */
  datatype Config = Config(maxConns: nat, hasTimeout: bool)

  /**
   slots are the tokens in the semaphore channel.  A session is handling until its
   handler returns, then leaving until it gives its slot back, then lingering until it
   deletes itself from conns: the deferred calls run last-in first-out.
   */
  datatype Sys = Sys(
    loop: Loop, next: nat, slots: nat, conns: set<nat>, closed: set<nat>,
    handling: set<nat>, leaving: set<nat>, lingering: set<nat>)

  datatype Move =
    | Accept
    | StopAccepting
    | Decide
    | Register
    | Spawn
    | HandlerReturns(conn: nat)
    | Release(conn: nat)
    | Unregister(conn: nat)
    | Drained
    | TimedOut
    | Close(conn: nat)
    | SweepDone
    | GiveUp

  function Start(): Sys {
    Sys(Accepting, 0, 0, {}, {}, {}, {}, {})
  }

  function Do(cfg: Config, s: Sys, mv: Move): Sys {
    match mv
    case Accept =>
      if s.loop.Accepting? then s.(loop := Deciding(s.next), next := s.next + 1) else s
    case StopAccepting =>
      if s.loop.Accepting? then s.(loop := Draining) else s
    case Decide =>
      if !s.loop.Deciding? then s
      else if cfg.maxConns == 0 then s.(loop := Registering(s.loop.conn))
      else if s.slots < cfg.maxConns then s.(loop := Registering(s.loop.conn), slots := s.slots + 1)
      else s.(loop := Accepting, closed := s.closed + {s.loop.conn})
    case Register =>
      if s.loop.Registering? then s.(loop := Spawning(s.loop.conn), conns := s.conns + {s.loop.conn}) else s
    case Spawn =>
      if s.loop.Spawning? then s.(loop := Accepting, handling := s.handling + {s.loop.conn}) else s
    case HandlerReturns(c) =>
      if c in s.handling then s.(closed := s.closed + {c}, handling := s.handling - {c}, leaving := s.leaving + {c}) else s
    case Release(c) =>
      if c in s.leaving then
        s.(slots := if s.slots > 0 then s.slots - 1 else 0, leaving := s.leaving - {c}, lingering := s.lingering + {c})
      else s
    case Unregister(c) =>
      if c in s.lingering && !s.loop.Sweeping? then s.(conns := s.conns - {c}, lingering := s.lingering - {c}) else s
    case Drained =>
      if (s.loop.Draining? || s.loop.DrainingAgain?) && s.handling + s.leaving + s.lingering == {} then s.(loop := Returned) else s
    case TimedOut =>
      if s.loop.Draining? && cfg.hasTimeout then s.(loop := Sweeping(s.conns)) else s
    case Close(c) =>
      if s.loop.Sweeping? && c in s.loop.left then s.(closed := s.closed + {c}, loop := Sweeping(s.loop.left - {c})) else s
    case SweepDone =>
      if s.loop.Sweeping? && s.loop.left == {} then s.(loop := DrainingAgain) else s
    case GiveUp =>
      if s.loop.DrainingAgain? then s.(loop := Returned) else s
  }

  function Schedule(cfg: Config, moves: seq<Move>): Sys {
    if moves == [] then Start() else Do(cfg, Schedule(cfg, moves[..|moves| - 1]), moves[|moves| - 1])
  }

  /** The connection the accept loop has in hand. */
  function InHand(loop: Loop): set<nat> {
    match loop
    case Deciding(c) => {c}
    case Registering(c) => {c}
    case Spawning(c) => {c}
    case _ => {}
  }

  /** The connection in hand that already has a slot. */
  function SlotInHand(loop: Loop): set<nat> {
    match loop
    case Registering(c) => {c}
    case Spawning(c) => {c}
    case _ => {}
  }

  function RegisteredInHand(loop: Loop): set<nat> {
    if loop.Spawning? then {loop.conn} else {}
  }

  predicate Below(cs: set<nat>, n: nat) {
    forall c :: c in cs ==> c < n
  }

  ghost predicate Placed(s: Sys) {
    && Below(s.handling + s.leaving + s.lingering + InHand(s.loop), s.next)
    && s.handling !! s.leaving !! s.lingering !! InHand(s.loop)
    && s.conns == s.handling + s.leaving + s.lingering + RegisteredInHand(s.loop)
  }

  /** The sessions between taking a slot and giving it back. */
  function Holders(s: Sys): set<nat> {
    s.handling + s.leaving + SlotInHand(s.loop)
  }

  ghost predicate SlotInv(cfg: Config, s: Sys) {
    if cfg.maxConns == 0 then s.slots == 0
    else s.slots == |Holders(s)| && s.slots <= cfg.maxConns
  }

  /** The forced close has passed over every connection. */
  predicate Swept(loop: Loop) {
    loop.DrainingAgain? || loop.Returned?
  }

  ghost predicate ClosedInv(s: Sys) {
    && (forall c :: 0 <= c < s.next ==> c in s.closed || c in s.handling || c in InHand(s.loop))
    && (s.loop.Sweeping? ==> forall c :: c in s.handling ==> c in s.closed || c in s.loop.left)
    && (Swept(s.loop) ==> forall c :: c in s.handling ==> c in s.closed)
  }

  lemma DoPlaced(cfg: Config, s: Sys, mv: Move)
    requires Placed(s)
    ensures Placed(Do(cfg, s, mv))
  {
  }

  /** Only Decide takes a slot and only Release gives one back. */
  lemma DoHolders(cfg: Config, s: Sys, mv: Move)
    requires Placed(s)
    ensures var t := Do(cfg, s, mv);
            Holders(t) ==
            if mv.Decide? && t.loop.Registering? && s.loop.Deciding? then Holders(s) + {s.loop.conn}
            else if mv.Release? && mv.conn in s.leaving then Holders(s) - {mv.conn}
            else Holders(s)
  {
  }

  lemma SlotsChange(cfg: Config, s: Sys, mv: Move)
    requires Placed(s)
    ensures var t := Do(cfg, s, mv);
            t.slots ==
            if mv.Decide? && t.loop.Registering? && s.loop.Deciding? && cfg.maxConns > 0 then s.slots + 1
            else if mv.Release? && mv.conn in s.leaving then (if s.slots > 0 then s.slots - 1 else 0)
            else s.slots
    ensures mv.Decide? && s.loop.Deciding? && Do(cfg, s, mv).loop.Registering? ==>
            s.loop.conn !in Holders(s) && (cfg.maxConns > 0 ==> s.slots < cfg.maxConns)
    ensures mv.Release? && mv.conn in s.leaving ==> mv.conn in Holders(s)
  {
  }

  lemma DoSlots(cfg: Config, s: Sys, mv: Move)
    requires Placed(s) && SlotInv(cfg, s)
    ensures SlotInv(cfg, Do(cfg, s, mv))
  {
    hide Do, Holders, Placed;
    DoHolders(cfg, s, mv);
    SlotsChange(cfg, s, mv);
  }

  lemma DoClosed(cfg: Config, s: Sys, mv: Move)
    requires Placed(s) && ClosedInv(s)
    ensures ClosedInv(Do(cfg, s, mv))
  {
  }

  lemma {:induction false} ScheduleKeeps(cfg: Config, moves: seq<Move>)
    ensures var s := Schedule(cfg, moves); Placed(s) && SlotInv(cfg, s) && ClosedInv(s)
    decreases |moves|
  {
    hide Do, Placed, SlotInv, ClosedInv;
    if moves == [] {
      StartKeeps(cfg);
    } else {
      ScheduleKeeps(cfg, moves[..|moves| - 1]);
      var s := Schedule(cfg, moves[..|moves| - 1]);
      DoPlaced(cfg, s, moves[|moves| - 1]);
      DoSlots(cfg, s, moves[|moves| - 1]);
      DoClosed(cfg, s, moves[|moves| - 1]);
    }
  }

  lemma StartKeeps(cfg: Config)
    ensures Placed(Start()) && SlotInv(cfg, Start()) && ClosedInv(Start())
  {
    assert Holders(Start()) == {};
  }

  /**
   Over every interleaving: the occupied slots are exactly the sessions between taking
   a slot and giving it back and never exceed the limit, and every session that is
   still in its handler can be reached by the forced close.
   */
  lemma SlotsAreSessions(cfg: Config, moves: seq<Move>)
    ensures var s := Schedule(cfg, moves);
            && (cfg.maxConns > 0 ==> s.slots == |Holders(s)| <= cfg.maxConns)
            && s.handling <= s.conns
  {
    hide Schedule;
    ScheduleKeeps(cfg, moves);
  }

  /** Once the forced close is through, and whenever Serve has returned, every connection ever accepted is closed. */
  lemma NothingStaysOpen(cfg: Config, moves: seq<Move>, c: nat)
    ensures var s := Schedule(cfg, moves); Swept(s.loop) && c < s.next ==> c in s.closed
  {
    hide Schedule;
    ScheduleKeeps(cfg, moves);
  }

  lemma UnionSize(a: set<nat>, b: set<nat>)
    requires a !! b
    ensures |a + b| == |a| + |b|
  {
  }

  // ---- The map of connections ----

  /**
   The map of connections holds more than the occupied slots, because a session gives its
   slot back before it leaves the map.
   */
  lemma RegisteredConnections(cfg: Config, moves: seq<Move>)
    requires cfg.maxConns > 0
    ensures var s := Schedule(cfg, moves);
            |s.conns| == s.slots - (if s.loop.Registering? then 1 else 0) + |s.lingering|
  {
    hide Schedule;
    ScheduleKeeps(cfg, moves);
    var s := Schedule(cfg, moves);
    var held := s.handling + s.leaving;
    UnionSize(held, SlotInHand(s.loop));
    UnionSize(held, s.lingering);
    UnionSize(held + s.lingering, RegisteredInHand(s.loop));
  }

  /** The accept loop takes a slot. */
  predicate Grants(cfg: Config, s: Sys, mv: Move) {
    mv.Decide? && s.loop.Deciding? && s.slots < cfg.maxConns
  }

  /** The most sessions that were lingering whenever a slot was taken. */
  function LingeringAtGrants(cfg: Config, moves: seq<Move>): nat {
    if moves == [] then 0
    else
      var s := Schedule(cfg, moves[..|moves| - 1]);
      var before := LingeringAtGrants(cfg, moves[..|moves| - 1]);
      if Grants(cfg, s, moves[|moves| - 1]) && |s.lingering| > before then |s.lingering| else before
  }

  /** Only taking a slot makes the slots and the lingering sessions more. */
  lemma DoLingers(cfg: Config, s: Sys, mv: Move)
    requires cfg.maxConns > 0 && (s.leaving != {} ==> s.slots > 0)
    ensures var t := Do(cfg, s, mv);
            if Grants(cfg, s, mv) then t.slots == s.slots + 1 && t.lingering == s.lingering
            else t.slots + |t.lingering| <= s.slots + |s.lingering|
  {
    if mv.Release? && mv.conn in s.leaving {
      assert |s.lingering + {mv.conn}| <= |s.lingering| + 1;
    } else if mv.Unregister? {
      assert |s.lingering - {mv.conn}| <= |s.lingering|;
    }
  }

  lemma LeavingHoldsSlot(cfg: Config, s: Sys)
    requires SlotInv(cfg, s) && cfg.maxConns > 0
    ensures s.leaving != {} ==> s.slots > 0
  {
    if s.leaving != {} {
      var c :| c in s.leaving;
      assert c in Holders(s);
    }
  }

  lemma {:induction false} LingerersAreBounded(cfg: Config, moves: seq<Move>)
    requires cfg.maxConns > 0
    ensures var s := Schedule(cfg, moves); s.slots + |s.lingering| <= cfg.maxConns + LingeringAtGrants(cfg, moves)
    decreases |moves|
  {
    hide Do, SlotInv, Placed, ClosedInv, Grants;
    if moves == [] {
      assert |Start().lingering| == 0;
    } else {
      var front, mv := moves[..|moves| - 1], moves[|moves| - 1];
      var s := Schedule(cfg, front);
      LingerersAreBounded(cfg, front);
      ScheduleKeeps(cfg, front);
      LeavingHoldsSlot(cfg, s);
      DoLingers(cfg, s, mv);
      GrantsBelowLimit(cfg, s, mv);
    }
  }

  lemma GrantsBelowLimit(cfg: Config, s: Sys, mv: Move)
    ensures Grants(cfg, s, mv) ==> s.slots < cfg.maxConns
  {
  }

  /** The map never exceeds the limit by more than the sessions that were lingering when a slot was taken. */
  lemma ExcessIsBounded(cfg: Config, moves: seq<Move>)
    requires cfg.maxConns > 0
    ensures |Schedule(cfg, moves).conns| <= cfg.maxConns + LingeringAtGrants(cfg, moves)
  {
    hide Schedule, LingeringAtGrants;
    RegisteredConnections(cfg, moves);
    LingerersAreBounded(cfg, moves);
  }

  lemma ScheduleSnoc(cfg: Config, moves: seq<Move>, mv: Move)
    ensures Schedule(cfg, moves + [mv]) == Do(cfg, Schedule(cfg, moves), mv)
    ensures LingeringAtGrants(cfg, moves + [mv]) ==
            var s := Schedule(cfg, moves);
            var before := LingeringAtGrants(cfg, moves);
            if Grants(cfg, s, mv) && |s.lingering| > before then |s.lingering| else before
  {
    hide Do, Grants;
    assert (moves + [mv])[..|moves|] == moves;
  }

  /** The connections a, a + 1, ..., b - 1. */
  function Range(a: nat, b: nat): (cs: set<nat>)
    requires a <= b
    ensures |cs| == b - a && forall c :: c in cs ==> a <= c < b
  {
    if a == b then {} else Range(a, b - 1) + {b - 1}
  }

  lemma RangeSnoc(a: nat, b: nat)
    requires a <= b
    ensures Range(a, b + 1) == Range(a, b) + {b} && Range(a, a) == {}
  {
  }

  /** A connection is accepted and gets a slot. */
  function AdmitMoves(moves: seq<Move>): seq<Move> {
    moves + [Accept] + [Decide] + [Register] + [Spawn]
  }

  /** Its session ends and gives the slot back, but stays in the map. */
  function LeaveMoves(moves: seq<Move>, c: nat): seq<Move> {
    moves + [HandlerReturns(c)] + [Release(c)]
  }

  /** n sessions come and linger, one after the other. */
  function LingerMoves(n: nat): seq<Move> {
    if n == 0 then [] else LeaveMoves(AdmitMoves(LingerMoves(n - 1)), n - 1)
  }

  /** Then k more are admitted. */
  function CrowdMoves(n: nat, k: nat): seq<Move> {
    if k == 0 then LingerMoves(n) else AdmitMoves(CrowdMoves(n, k - 1))
  }

  /** n sessions linger, and k sessions behind them are in their handlers. */
  function Crowd(n: nat, k: nat): Sys {
    Sys(Accepting, n + k, k, Range(0, n + k), Range(0, n), Range(n, n + k), {}, Range(0, n))
  }

  /** The connection n + k is in hand. */
  function CrowdDeciding(n: nat, k: nat): Sys {
    Crowd(n, k).(loop := Deciding(n + k), next := n + k + 1)
  }

  lemma AdmitOne(cfg: Config, n: nat, k: nat)
    requires k < cfg.maxConns
    ensures Do(cfg, Crowd(n, k), Accept) == CrowdDeciding(n, k)
    ensures Do(cfg, Do(cfg, Do(cfg, CrowdDeciding(n, k), Decide), Register), Spawn) == Crowd(n, k + 1)
  {
    hide Range;
    RangeSnoc(0, n + k);
    RangeSnoc(n, n + k);
  }

  lemma Admitted(cfg: Config, moves: seq<Move>, n: nat, k: nat)
    requires k < cfg.maxConns && Schedule(cfg, moves) == Crowd(n, k) && LingeringAtGrants(cfg, moves) <= n
    ensures Schedule(cfg, AdmitMoves(moves)) == Crowd(n, k + 1) && LingeringAtGrants(cfg, AdmitMoves(moves)) <= n
  {
    hide Schedule, LingeringAtGrants, Range, Do;
    var m1 := moves + [Accept];
    var m2 := m1 + [Decide];
    var m3 := m2 + [Register];
    ScheduleSnoc(cfg, moves, Accept);
    ScheduleSnoc(cfg, m1, Decide);
    ScheduleSnoc(cfg, m2, Register);
    ScheduleSnoc(cfg, m3, Spawn);
    AdmitOne(cfg, n, k);
    assert |Range(0, n)| == n;
  }

  lemma Left(cfg: Config, moves: seq<Move>, n: nat)
    requires Schedule(cfg, moves) == Crowd(n, 1) && LingeringAtGrants(cfg, moves) <= n
    ensures Schedule(cfg, LeaveMoves(moves, n)) == Crowd(n + 1, 0) && LingeringAtGrants(cfg, LeaveMoves(moves, n)) <= n
  {
    hide Schedule, LingeringAtGrants, Range;
    var m1 := moves + [HandlerReturns(n)];
    ScheduleSnoc(cfg, moves, HandlerReturns(n));
    ScheduleSnoc(cfg, m1, Release(n));
    RangeSnoc(0, n);
    RangeSnoc(n, n);
    RangeSnoc(n + 1, n + 1);
    assert {} + {n} == {n} && {n} - {n} == {};
  }

  lemma {:induction false} ManyLinger(cfg: Config, n: nat)
    requires cfg.maxConns > 0
    ensures Schedule(cfg, LingerMoves(n)) == Crowd(n, 0) && LingeringAtGrants(cfg, LingerMoves(n)) <= n
  {
    hide Schedule, LingeringAtGrants, Crowd, AdmitMoves, LeaveMoves;
    if n == 0 {
      NobodyLingers(cfg);
    } else {
      ManyLinger(cfg, n - 1);
      Admitted(cfg, LingerMoves(n - 1), n - 1, 0);
      Left(cfg, AdmitMoves(LingerMoves(n - 1)), n - 1);
    }
  }

  lemma NobodyLingers(cfg: Config)
    ensures Schedule(cfg, []) == Crowd(0, 0) && LingeringAtGrants(cfg, []) == 0
  {
  }

  lemma {:induction false} CrowdGathers(cfg: Config, n: nat, k: nat)
    requires 0 < cfg.maxConns && k <= cfg.maxConns
    ensures Schedule(cfg, CrowdMoves(n, k)) == Crowd(n, k) && LingeringAtGrants(cfg, CrowdMoves(n, k)) <= n
    decreases k
  {
    hide Schedule, LingeringAtGrants, Crowd, AdmitMoves, LingerMoves;
    if k == 0 {
      ManyLinger(cfg, n);
    } else {
      CrowdGathers(cfg, n, k - 1);
      Admitted(cfg, CrowdMoves(n, k - 1), n, k - 1);
    }
  }

  /** Whatever the limit, the map can exceed it by any number of connections. */
  lemma MapCanExceedLimit(cfg: Config, n: nat)
    requires cfg.maxConns > 0
    ensures var moves := CrowdMoves(n, cfg.maxConns);
            |Schedule(cfg, moves).conns| == cfg.maxConns + n && LingeringAtGrants(cfg, moves) <= n
  {
    hide Schedule, LingeringAtGrants, CrowdMoves, Range;
    CrowdGathers(cfg, n, cfg.maxConns);
  }

  /** At most k sessions linger whenever a slot is taken. */
  predicate LingersAtMost(cfg: Config, k: nat, moves: seq<Move>) {
    LingeringAtGrants(cfg, moves) <= k
  }

  /**
   Schedules in which at most k sessions linger whenever a slot is taken all keep the map
   within bound connections if and only if bound is at least the limit and k: in
   particular within the limit if and only if none lingers then.
   */
  lemma MapBoundExactly(cfg: Config, k: nat, bound: nat)
    requires cfg.maxConns > 0
    ensures (forall moves: seq<Move> :: LingersAtMost(cfg, k, moves) ==> |Schedule(cfg, moves).conns| <= bound) <==>
            cfg.maxConns + k <= bound
  {
    hide Schedule, LingeringAtGrants;
    MapCanExceedLimit(cfg, k);
    assert LingersAtMost(cfg, k, CrowdMoves(k, cfg.maxConns));
    forall moves: seq<Move> | LingersAtMost(cfg, k, moves)
      ensures |Schedule(cfg, moves).conns| <= cfg.maxConns + k
    {
      ExcessIsBounded(cfg, moves);
    }
  }

  // ---- Sessions are left alone until the drain has timed out ----

  /** The listener stopped and, behind that, the drain timed out. */
  ghost predicate TimedOutBehindStop(moves: seq<Move>) {
    exists i, j :: 0 <= i < j < |moves| && moves[i] == StopAccepting && moves[j] == TimedOut
  }

  predicate Stopped(loop: Loop) {
    loop.Draining? || loop.Sweeping? || loop.DrainingAgain? || loop.Returned?
  }

  /** What a schedule must have done to be where it is. */
  ghost predicate DrainInv(cfg: Config, s: Sys, moves: seq<Move>) {
    && Below(s.closed, s.next)
    && (s.loop.Sweeping? ==> Below(s.loop.left, s.next))
    && InHand(s.loop) !! s.closed
    && (Stopped(s.loop) ==> StopAccepting in moves)
    && (s.loop.Sweeping? || s.loop.DrainingAgain? ==> cfg.hasTimeout && TimedOutBehindStop(moves))
    && (s.handling !! s.closed || (cfg.hasTimeout && TimedOutBehindStop(moves)))
    && (s.loop.Returned? && GiveUp !in moves ==> s.handling + s.leaving + s.lingering == {})
  }

  lemma BehindStopGrows(moves: seq<Move>, mv: Move)
    ensures TimedOutBehindStop(moves) ==> TimedOutBehindStop(moves + [mv])
    ensures StopAccepting in moves && mv == TimedOut ==> TimedOutBehindStop(moves + [mv])
    ensures forall m :: m in moves + [mv] <==> m in moves || m == mv
  {
    var more := moves + [mv];
    if TimedOutBehindStop(moves) {
      var i, j :| 0 <= i < j < |moves| && moves[i] == StopAccepting && moves[j] == TimedOut;
      assert more[i] == StopAccepting && more[j] == TimedOut;
    }
    if StopAccepting in moves && mv == TimedOut {
      var i :| 0 <= i < |moves| && moves[i] == StopAccepting;
      assert more[i] == StopAccepting && more[|moves|] == TimedOut;
    }
  }

  lemma DoDrain(cfg: Config, s: Sys, moves: seq<Move>, mv: Move)
    requires Placed(s) && DrainInv(cfg, s, moves)
    ensures DrainInv(cfg, Do(cfg, s, mv), moves + [mv])
  {
    hide TimedOutBehindStop;
    BehindStopGrows(moves, mv);
  }

  lemma {:induction false} ScheduleDrains(cfg: Config, moves: seq<Move>)
    ensures DrainInv(cfg, Schedule(cfg, moves), moves)
    decreases |moves|
  {
    hide Do, Placed, SlotInv, ClosedInv, DrainInv;
    if moves == [] {
      StartDrains(cfg);
    } else {
      var front, mv := moves[..|moves| - 1], moves[|moves| - 1];
      assert moves == front + [mv];
      ScheduleDrains(cfg, front);
      ScheduleKeeps(cfg, front);
      DoDrain(cfg, Schedule(cfg, front), front, mv);
    }
  }

  lemma StartDrains(cfg: Config)
    ensures DrainInv(cfg, Start(), [])
  {
  }

  /**
   A session that is still in its handler finds its connection closed only when there is a
   drain timeout and it ran out after the listener had stopped; without one no connection
   is ever force-closed.
   */
  lemma ForcedOnlyAfterDrain(cfg: Config, moves: seq<Move>, c: nat)
    ensures var s := Schedule(cfg, moves);
            && (c in s.handling && c in s.closed ==>
                  cfg.hasTimeout && exists i, j :: 0 <= i < j < |moves| && moves[i] == StopAccepting && moves[j] == TimedOut)
            && (s.loop.Sweeping? ==> cfg.hasTimeout)
  {
    hide Schedule;
    ScheduleDrains(cfg, moves);
  }

  /** Once Serve has returned without giving up, no session is left, the map is empty and every slot is free. */
  lemma ReturnedIsDrained(cfg: Config, moves: seq<Move>)
    requires GiveUp !in moves && Schedule(cfg, moves).loop == Returned
    ensures var s := Schedule(cfg, moves);
            s.handling == s.leaving == s.lingering == s.conns == {} && s.slots == 0
  {
    hide Schedule;
    ScheduleDrains(cfg, moves);
    ScheduleKeeps(cfg, moves);
    var s := Schedule(cfg, moves);
    assert s.handling <= s.handling + s.leaving + s.lingering;
    assert s.leaving <= s.handling + s.leaving + s.lingering;
    assert s.lingering <= s.handling + s.leaving + s.lingering;
    assert Holders(s) == {};
  }

  /** A connection in hand is turned away exactly when there is a limit and sessions hold all of its slots. */
  lemma TurnedAwayExactly(cfg: Config, moves: seq<Move>)
    requires Schedule(cfg, moves).loop.Deciding?
    ensures var s := Schedule(cfg, moves);
            var c := s.loop.conn;
            var t := Schedule(cfg, moves + [Decide]);
            && (c in t.closed <==> cfg.maxConns > 0 && |Holders(s)| == cfg.maxConns)
            && (c !in t.closed <==> t.loop == Registering(c))
  {
    hide Schedule, LingeringAtGrants;
    ScheduleSnoc(cfg, moves, Decide);
    ScheduleKeeps(cfg, moves);
    ScheduleDrains(cfg, moves);
    hide TimedOutBehindStop;
    var s := Schedule(cfg, moves);
    assert s.loop.conn in InHand(s.loop);
  }

  lemma StoppedStays(cfg: Config, s: Sys, mv: Move)
    requires Stopped(s.loop)
    ensures Stopped(Do(cfg, s, mv).loop) && Do(cfg, s, mv).next == s.next
  {
  }

  /** Nothing is accepted any more behind a StopAccepting that the accept loop has seen. */
  lemma {:induction false} NothingAcceptedBehindStop(cfg: Config, moves: seq<Move>, more: seq<Move>)
    requires Schedule(cfg, moves).loop == Accepting
    ensures Schedule(cfg, moves + [StopAccepting] + more).next == Schedule(cfg, moves).next
    ensures Stopped(Schedule(cfg, moves + [StopAccepting] + more).loop)
    decreases |more|
  {
    hide Schedule, LingeringAtGrants, Stopped;
    if more == [] {
      ScheduleSnoc(cfg, moves, StopAccepting);
      assert moves + [StopAccepting] + more == moves + [StopAccepting];
      JustStopped(cfg, Schedule(cfg, moves));
    } else {
      hide Do;
      var front, mv := more[..|more| - 1], more[|more| - 1];
      NothingAcceptedBehindStop(cfg, moves, front);
      assert moves + [StopAccepting] + more == (moves + [StopAccepting] + front) + [mv];
      ScheduleSnoc(cfg, moves + [StopAccepting] + front, mv);
      StoppedStays(cfg, Schedule(cfg, moves + [StopAccepting] + front), mv);
    }
  }

  lemma JustStopped(cfg: Config, s: Sys)
    requires s.loop == Accepting
    ensures var t := Do(cfg, s, StopAccepting); Stopped(t.loop) && t.next == s.next
  {
  }

  // ---- What a server can always do ----

  lemma Admits(cfg: Config, s: Sys)
    requires Placed(s) && s.loop == Accepting && (cfg.maxConns == 0 || s.slots < cfg.maxConns)
    ensures var c := s.next;
            Do(cfg, Do(cfg, Do(cfg, Do(cfg, s, Accept), Decide), Register), Spawn) ==
            s.(next := c + 1, slots := if cfg.maxConns == 0 then s.slots else s.slots + 1,
               conns := s.conns + {c}, handling := s.handling + {c})
  {
  }

  lemma Leaves(cfg: Config, s: Sys, c: nat)
    requires s.loop == Accepting && c in s.handling && c !in s.leaving && c !in s.lingering
    ensures Do(cfg, Do(cfg, Do(cfg, s, HandlerReturns(c)), Release(c)), Unregister(c)) ==
            s.(slots := if s.slots > 0 then s.slots - 1 else 0, conns := s.conns - {c}, handling := s.handling - {c},
               closed := s.closed + {c})
  {
    assert s.leaving + {c} - {c} == s.leaving && s.lingering + {c} - {c} == s.lingering;
  }

  lemma AdmitSchedule(cfg: Config, moves: seq<Move>)
    ensures Schedule(cfg, AdmitMoves(moves)) ==
            Do(cfg, Do(cfg, Do(cfg, Do(cfg, Schedule(cfg, moves), Accept), Decide), Register), Spawn)
  {
    hide Schedule, LingeringAtGrants, Do;
    var m1 := moves + [Accept];
    var m2 := m1 + [Decide];
    var m3 := m2 + [Register];
    ScheduleSnoc(cfg, moves, Accept);
    ScheduleSnoc(cfg, m1, Decide);
    ScheduleSnoc(cfg, m2, Register);
    ScheduleSnoc(cfg, m3, Spawn);
  }

  lemma LeaveSchedule(cfg: Config, moves: seq<Move>, c: nat)
    ensures Schedule(cfg, LeaveMoves(moves, c) + [Unregister(c)]) ==
            Do(cfg, Do(cfg, Do(cfg, Schedule(cfg, moves), HandlerReturns(c)), Release(c)), Unregister(c))
  {
    hide Schedule, LingeringAtGrants, Do;
    var m1 := moves + [HandlerReturns(c)];
    ScheduleSnoc(cfg, moves, HandlerReturns(c));
    ScheduleSnoc(cfg, m1, Release(c));
    ScheduleSnoc(cfg, LeaveMoves(moves, c), Unregister(c));
  }

  /** A session that finds a free slot can run to its end, and then nothing of it is left but its closed connection. */
  lemma SessionLeavesNothing(cfg: Config, moves: seq<Move>)
    requires var s := Schedule(cfg, moves); s.loop == Accepting && (cfg.maxConns == 0 || s.slots < cfg.maxConns)
    ensures var s := Schedule(cfg, moves);
            Schedule(cfg, LeaveMoves(AdmitMoves(moves), s.next) + [Unregister(s.next)]) ==
            s.(next := s.next + 1, closed := s.closed + {s.next})
  {
    hide Schedule, Do, SlotInv, ClosedInv, Placed, AdmitMoves, LeaveMoves;
    var s := Schedule(cfg, moves);
    var c := s.next;
    ScheduleKeeps(cfg, moves);
    AdmitSchedule(cfg, moves);
    LeaveSchedule(cfg, AdmitMoves(moves), c);
    Admits(cfg, s);
    NextIsNew(s);
    Leaves(cfg, Schedule(cfg, AdmitMoves(moves)), c);
    NoSlots(cfg, s);
    assert s.conns + {c} - {c} == s.conns && s.handling + {c} - {c} == s.handling;
  }

  lemma NextIsNew(s: Sys)
    requires Placed(s)
    ensures s.next !in s.handling && s.next !in s.leaving && s.next !in s.lingering && (s.loop == Accepting ==> s.next !in s.conns)
  {
    assert forall c :: c in s.handling + s.leaving + s.lingering ==> c < s.next;
  }

  lemma NoSlots(cfg: Config, s: Sys)
    requires SlotInv(cfg, s)
    ensures cfg.maxConns == 0 ==> s.slots == 0
  {
    hide Holders;
  }

  /** The sweep can close every connection it still has to, one by one. */
  lemma {:induction false} SweepEnds(cfg: Config, moves: seq<Move>, left: set<nat>) returns (more: seq<Move>)
    requires Schedule(cfg, moves).loop == Sweeping(left)
    ensures Schedule(cfg, moves + more).loop == Sweeping({})
    decreases |left|
  {
    hide Schedule, LingeringAtGrants;
    if left == {} {
      more := [];
      assert moves + [] == moves;
    } else {
      var c :| c in left;
      ScheduleSnoc(cfg, moves, Close(c));
      var rest := SweepEnds(cfg, moves + [Close(c)], left - {c});
      more := [Close(c)] + rest;
      assert moves + more == moves + [Close(c)] + rest;
    }
  }

  /** With a drain timeout Serve can always return once the listener has stopped, whatever its sessions do. */
  lemma TimeoutLetsReturn(cfg: Config, moves: seq<Move>) returns (more: seq<Move>)
    requires cfg.hasTimeout && Schedule(cfg, moves).loop == Draining
    ensures Schedule(cfg, moves + more).loop == Returned
  {
    hide Schedule, LingeringAtGrants;
    ScheduleSnoc(cfg, moves, TimedOut);
    var m1 := moves + [TimedOut];
    var closes := SweepEnds(cfg, m1, Schedule(cfg, moves).conns);
    var m2 := m1 + closes;
    ScheduleSnoc(cfg, m2, SweepDone);
    var m3 := m2 + [SweepDone];
    ScheduleSnoc(cfg, m3, GiveUp);
    more := [TimedOut] + closes + [SweepDone] + [GiveUp];
    assert moves + more == m3 + [GiveUp];
  }

  /** Without sessions it can return at once. */
  lemma IdleReturns(cfg: Config, moves: seq<Move>)
    requires var s := Schedule(cfg, moves); s.loop == Draining && s.handling == s.leaving == s.lingering == {}
    ensures Schedule(cfg, moves + [Drained]).loop == Returned
  {
    hide Schedule, LingeringAtGrants;
    ScheduleSnoc(cfg, moves, Drained);
  }
}
