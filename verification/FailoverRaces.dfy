/** Concurrent switchMaster and Close calls on one database client (riverqueue/database.go): who owns
    each connection pool under every interleaving. One step is one atomic action. */
module FailoverRaces {
  import opened Wrappers
  import opened Ledgers
  import opened Failover

  /** Where a thread is. Pools are named by the order in which they were opened. In `switchMaster`:
      the active pool was loaded (`seen`); the lock is held; master number `k` of the order is tried,
      its pool pinged, or closed after a failed ping; a pool was swapped in for `before`; the index was
      updated; a result is about to be returned. In `Close`: the flag was set; `before` was swapped
      out. */
  datatype Thread =
    | Idle
    | Loaded(seen: Option<nat>)
    | Locked(seen: Option<nat>)
    | Trying(seen: Option<nat>, k: nat)
    | Pinging(seen: Option<nat>, k: nat, pool: nat)
    | Rejecting(seen: Option<nat>, k: nat, pool: nat)
    | Swapped(k: nat, before: Option<nat>)
    | Indexed(before: Option<nat>)
    | Returning(ok: bool)
    | CloseMarked
    | CloseSwapped(before: Option<nat>)

  /** `urls[p]` is the master of pool `p`; `disposed` lists the pools closed. */
  datatype System = System(
    masters: nat,
    active: Option<nat>,
    currentIndex: nat,
    closedFlag: bool,
    lock: Option<nat>,
    threads: seq<Thread>,
    urls: seq<nat>,
    disposed: seq<nat>
  )

  datatype Action =
    | LoadActive
    | Lock
    | Recheck
    | ConnectFails
    | ConnectSucceeds
    | PingFails
    | CloseRejected
    | SwapIn
    | SetIndex
    | CloseOld
    | GiveUp
    | Unlock
    | MarkClosed
    | SwapOut
    | CloseActive

  datatype Step = Step(t: nat, action: Action)

  /** A client just made by `newDatabaseClient`, with one pool. */
  function Initial(masters: nat, first: nat, threads: nat): System {
    System(masters, Some(0), first, false, None, seq(threads, _ => Idle), [first], [])
  }

  predicate Enabled(s: System, step: Step) {
    step.t < |s.threads| &&
    var th := s.threads[step.t];
    match step.action
    case LoadActive => th.Idle?
    case Lock => th.Loaded? && s.lock.None?
    case Recheck => th.Locked?
    case ConnectFails => th.Trying? && th.k < s.masters
    case ConnectSucceeds => th.Trying? && th.k < s.masters
    case PingFails => th.Pinging?
    case CloseRejected => th.Rejecting?
    case SwapIn => th.Pinging?
    case SetIndex => th.Swapped? && th.k < s.masters
    case CloseOld => th.Indexed?
    case GiveUp => th.Trying? && th.k >= s.masters
    case Unlock => th.Returning?
    case MarkClosed => th.Idle?
    case SwapOut => th.CloseMarked?
    case CloseActive => th.CloseSwapped?
  }

  /** The master tried as number `k`; the lock holder reads a fixed `currentIndex`. */
  function MasterAt(s: System, k: nat): nat {
    if k < s.masters then Rotation(s.masters, s.currentIndex)[k] else 0
  }

  function Disposed(s: System, p: Option<nat>): seq<nat> {
    if p.Some? then s.disposed + [p.value] else s.disposed
  }

  function Put(s: System, t: nat, th: Thread): System
    requires t < |s.threads|
  {
    s.(threads := s.threads[t := th])
  }

  function Next(s: System, step: Step): System
    requires Enabled(s, step)
  {
    var t := step.t;
    var th := s.threads[t];
    match step.action
    case LoadActive => Put(s, t, Loaded(s.active))
    case Lock => Put(s, t, Locked(th.seen)).(lock := Some(t))
    case Recheck => Put(s, t, if th.seen.Some? && th.seen != s.active then Returning(true) else Trying(th.seen, 0))
    case ConnectFails => Put(s, t, Trying(th.seen, th.k + 1))
    case ConnectSucceeds => Put(s, t, Pinging(th.seen, th.k, |s.urls|)).(urls := s.urls + [MasterAt(s, th.k)])
    case PingFails => Put(s, t, Rejecting(th.seen, th.k, th.pool))
    case CloseRejected => Put(s, t, Trying(th.seen, th.k + 1)).(disposed := s.disposed + [th.pool])
    case SwapIn => Put(s, t, Swapped(th.k, s.active)).(active := Some(th.pool))
    case SetIndex => Put(s, t, Indexed(th.before)).(currentIndex := MasterAt(s, th.k))
    case CloseOld => Put(s, t, Returning(th.before.Some?)).(disposed := Disposed(s, th.before))
    case GiveUp => Put(s, t, Returning(false))
    case Unlock => Put(s, t, Idle).(lock := None)
    case MarkClosed => Put(s, t, CloseMarked).(closedFlag := true)
    case SwapOut => Put(s, t, CloseSwapped(s.active)).(active := None)
    case CloseActive => Put(s, t, Idle).(disposed := Disposed(s, th.before))
  }

  predicate Possible(s: System, run: seq<Step>)
    decreases |run|, 0
  {
    run == [] || (Possible(s, run[..|run| - 1]) && Enabled(After(s, run[..|run| - 1]), run[|run| - 1]))
  }

  function After(s: System, run: seq<Step>): System
    requires Possible(s, run)
    decreases |run|, 1
  {
    if run == [] then s else Next(After(s, run[..|run| - 1]), run[|run| - 1])
  }

  lemma Extend(s: System, run: seq<Step>, step: Step)
    requires Possible(s, run) && Enabled(After(s, run), step)
    ensures Possible(s, run + [step]) && After(s, run + [step]) == Next(After(s, run), step)
  {
    assert (run + [step])[..|run + [step]| - 1] == run;
  }

  lemma LastStep(s: System, run: seq<Step>) returns (init: seq<Step>, last: Step)
    requires run != [] && Possible(s, run)
    ensures run == init + [last] && Possible(s, init) && Enabled(After(s, init), last)
    ensures After(s, run) == Next(After(s, init), last)
  {
    init, last := run[..|run| - 1], run[|run| - 1];
  }

  lemma {:induction false} Join(s: System, run: seq<Step>, more: seq<Step>)
    requires Possible(s, run) && Possible(After(s, run), more)
    ensures Possible(s, run + more) && After(s, run + more) == After(After(s, run), more)
    decreases |more|
  {
    if more == [] {
      assert run + more == run;
    } else {
      var init, last := LastStep(After(s, run), more);
      Join(s, run, init);
      Extend(s, run + init, last);
      assert run + more == (run + init) + [last];
    }
  }

  lemma One(s: System, step: Step)
    requires Enabled(s, step)
    ensures Possible(s, [step]) && After(s, [step]) == Next(s, step)
  {
    Extend(s, [], step);
    assert [] + [step] == [step];
  }

  // Ownership.

  function OptionToSeq(p: Option<nat>): seq<nat> {
    if p.Some? then [p.value] else []
  }

  /** The pool a thread must still install or close. */
  function Held(th: Thread): seq<nat> {
    match th
    case Pinging(_, _, pool) => [pool]
    case Rejecting(_, _, pool) => [pool]
    case Swapped(_, before) => OptionToSeq(before)
    case Indexed(before) => OptionToSeq(before)
    case CloseSwapped(before) => OptionToSeq(before)
    case _ => []
  }

  function Shares(threads: seq<Thread>, p: nat): seq<nat> {
    seq(|threads|, t requires 0 <= t < |threads| => Occurrences(Held(threads[t]), p))
  }

  /** In how many hands pool `p` is: active, held by a thread, closed. */
  function Owners(s: System, p: nat): nat {
    Occurrences(OptionToSeq(s.active), p) + Sum(Shares(s.threads, p)) + Occurrences(s.disposed, p)
  }

  predicate InLock(th: Thread) {
    th.Locked? || th.Trying? || th.Pinging? || th.Rejecting? || th.Swapped? || th.Indexed? || th.Returning?
  }

  ghost predicate Exclusive(s: System) {
    forall t :: 0 <= t < |s.threads| ==> (InLock(s.threads[t]) <==> s.lock == Some(t))
  }

  /** Every pool opened is in exactly one hand. */
  ghost predicate Owned(s: System) {
    forall p: nat :: Owners(s, p) == if p < |s.urls| then 1 else 0
  }

  ghost predicate Bounds(s: System) {
    && s.currentIndex < s.masters
    && (s.active.Some? ==> s.active.value < |s.urls|)
    && (s.lock.Some? ==> s.lock.value < |s.threads|)
    && forall t :: 0 <= t < |s.threads| ==> GoodThread(s, s.threads[t])
  }

  ghost predicate GoodThread(s: System, th: Thread) {
    && (th.Pinging? ==> th.k < s.masters && th.pool < |s.urls| && s.urls[th.pool] == MasterAt(s, th.k))
    && (th.Swapped? ==> th.k < s.masters)
  }

  /** The master that `CurrentIndex` names, or will name once the lock holder has set it. */
  function NamedMaster(s: System): nat {
    if s.lock.Some? && s.lock.value < |s.threads| && s.threads[s.lock.value].Swapped?
    then MasterAt(s, s.threads[s.lock.value].k)
    else s.currentIndex
  }

  ghost predicate Named(s: System) {
    s.active.Some? && s.active.value < |s.urls| ==> s.urls[s.active.value] == NamedMaster(s)
  }

  ghost predicate Inv(s: System) {
    Exclusive(s) && Bounds(s) && Named(s) && Owned(s)
  }

  lemma ThreadChange(s: System, t: nat, th: Thread, p: nat)
    requires t < |s.threads|
    ensures Sum(Shares(s.threads[t := th], p)) + Occurrences(Held(s.threads[t]), p) ==
            Sum(Shares(s.threads, p)) + Occurrences(Held(th), p)
  {
    var share := Occurrences(Held(th), p);
    assert Shares(s.threads[t := th], p) == Shares(s.threads, p)[t := share];
    SumUpdate(Shares(s.threads, p), t, share);
  }

  lemma ClosingKeepsOwners(s: System, step: Step, p: nat)
    requires Enabled(s, step) && (step.action.CloseRejected? || step.action.CloseOld? || step.action.CloseActive?)
    ensures Owners(Next(s, step), p) == Owners(s, p)
  {
    var th := s.threads[step.t];
    var n := Next(s, step);
    ThreadChange(s, step.t, n.threads[step.t], p);
    OccursAppend(s.disposed, Held(th), p);
    assert s.disposed + [] == s.disposed;
    assert n.disposed == s.disposed + Held(th) && Held(n.threads[step.t]) == [];
  }

  lemma SwappingKeepsOwners(s: System, step: Step, p: nat)
    requires Enabled(s, step) && (step.action.SwapIn? || step.action.SwapOut?)
    ensures Owners(Next(s, step), p) == Owners(s, p)
  {
    var th := s.threads[step.t];
    var n := Next(s, step);
    ThreadChange(s, step.t, n.threads[step.t], p);
    assert Held(n.threads[step.t]) == OptionToSeq(s.active) && Held(th) == OptionToSeq(n.active);
  }

  lemma OpeningAddsOwner(s: System, t: nat, p: nat)
    requires Enabled(s, Step(t, ConnectSucceeds))
    ensures Owners(Next(s, Step(t, ConnectSucceeds)), p) == Owners(s, p) + if p == |s.urls| then 1 else 0
  {
    ThreadChange(s, t, Next(s, Step(t, ConnectSucceeds)).threads[t], p);
    assert [|s.urls|][1..] == [];
  }

  predicate KeepsHand(a: Action) {
    a.LoadActive? || a.Lock? || a.Recheck? || a.ConnectFails? || a.PingFails? || a.SetIndex? || a.GiveUp? ||
    a.Unlock? || a.MarkClosed?
  }

  lemma HandKept(s: System, step: Step)
    requires Enabled(s, step) && KeepsHand(step.action)
    ensures var n := Next(s, step);
            && n.active == s.active && n.disposed == s.disposed && |n.threads| == |s.threads|
            && n.threads == s.threads[step.t := n.threads[step.t]]
            && Held(n.threads[step.t]) == Held(s.threads[step.t])
  {
  }

  lemma OthersKeepOwners(s: System, step: Step, p: nat)
    requires Enabled(s, step) && KeepsHand(step.action)
    ensures Owners(Next(s, step), p) == Owners(s, p)
  {
    HandKept(s, step);
    ThreadChange(s, step.t, Next(s, step).threads[step.t], p);
  }

  lemma KeepsOwned(s: System, step: Step)
    requires Owned(s) && Enabled(s, step)
    ensures Owned(Next(s, step))
  {
    var n := Next(s, step);
    forall p: nat
      ensures Owners(n, p) == if p < |n.urls| then 1 else 0
    {
      assert Owners(s, p) == if p < |s.urls| then 1 else 0;
      if KeepsHand(step.action) {
        OthersKeepOwners(s, step, p);
      } else if step.action.ConnectSucceeds? {
        OpeningAddsOwner(s, step.t, p);
      } else if step.action.SwapIn? || step.action.SwapOut? {
        SwappingKeepsOwners(s, step, p);
      } else {
        ClosingKeepsOwners(s, step, p);
      }
    }
  }

  lemma KeepsExclusive(s: System, step: Step)
    requires Exclusive(s) && Enabled(s, step)
    ensures Exclusive(Next(s, step))
  {
  }

  lemma ThreadStaysGood(s: System, step: Step, t: nat)
    requires Exclusive(s) && Bounds(s) && Enabled(s, step) && t < |s.threads|
    ensures GoodThread(Next(s, step), Next(s, step).threads[t])
  {
    assert GoodThread(s, s.threads[t]);
    assert t != step.t ==> Next(s, step).threads[t] == s.threads[t];
    if step.action.SetIndex? && t != step.t {
      assert !InLock(s.threads[t]);
    }
  }

  lemma KeepsBounds(s: System, step: Step)
    requires Exclusive(s) && Bounds(s) && Enabled(s, step)
    ensures Bounds(Next(s, step))
  {
    assert GoodThread(s, s.threads[step.t]);
    forall t | 0 <= t < |s.threads|
      ensures GoodThread(Next(s, step), Next(s, step).threads[t])
    {
      ThreadStaysGood(s, step, t);
    }
  }

  lemma KeepsNamed(s: System, step: Step)
    requires Exclusive(s) && Bounds(s) && Named(s) && Enabled(s, step)
    ensures Named(Next(s, step))
  {
    assert GoodThread(s, s.threads[step.t]);
  }

  lemma {:induction false} Reachable(masters: nat, first: nat, threads: nat, run: seq<Step>)
    requires first < masters && Possible(Initial(masters, first, threads), run)
    ensures Inv(After(Initial(masters, first, threads), run))
  {
    var start := Initial(masters, first, threads);
    if run == [] {
      forall p: nat
        ensures Owners(start, p) == if p < 1 then 1 else 0
      {
        SumZero(Shares(start.threads, p));
        assert forall t :: 0 <= t < threads ==> Shares(start.threads, p)[t] == 0;
        assert OptionToSeq(start.active) == [0] && [0][1..] == [];
      }
    } else {
      var init := run[..|run| - 1];
      Reachable(masters, first, threads, init);
      var s := After(start, init);
      KeepsExclusive(s, run[|run| - 1]);
      KeepsBounds(s, run[|run| - 1]);
      KeepsNamed(s, run[|run| - 1]);
      KeepsOwned(s, run[|run| - 1]);
    }
  }

  // Main results.

  /** Every pool opened is active, held by exactly one thread, or closed, and only one of these; no
      pool is closed twice, and the active one is open. */
  lemma OneOwner(masters: nat, first: nat, threads: nat, run: seq<Step>, p: nat) returns (holder: Option<nat>)
    requires first < masters && Possible(Initial(masters, first, threads), run)
    requires p < |After(Initial(masters, first, threads), run).urls|
    ensures var s := After(Initial(masters, first, threads), run);
            && Occurrences(s.disposed, p) <= 1
            && (holder.Some? ==> holder.value < |s.threads| && p in Held(s.threads[holder.value]))
            && (holder.Some? ==> s.active != Some(p) && p !in s.disposed)
            && (holder.None? ==> (s.active == Some(p) <==> p !in s.disposed))
            && (forall t :: 0 <= t < |s.threads| && Some(t) != holder ==> p !in Held(s.threads[t]))
  {
    var s := After(Initial(masters, first, threads), run);
    Reachable(masters, first, threads, run);
    assert Owners(s, p) == 1;
    var shares := Shares(s.threads, p);
    SumZero(shares);
    OccursMember(OptionToSeq(s.active), p);
    OccursMember(s.disposed, p);
    holder := if t: nat :| t < |shares| && shares[t] != 0 then Some(t) else None;
    forall t | 0 <= t < |s.threads|
      ensures p in Held(s.threads[t]) <==> holder == Some(t)
    {
      OccursMember(Held(s.threads[t]), p);
      assert shares[t] == Occurrences(Held(s.threads[t]), p);
      if holder.Some? && holder.value != t {
        SumPair(shares, holder.value, t);
      }
    }
    if holder.Some? {
      SumPart(shares, holder.value);
    }
  }

  /** Whenever the lock is free and a pool is active, `CurrentIndex` names its master. */
  lemma IndexNamesActive(masters: nat, first: nat, threads: nat, run: seq<Step>)
    requires first < masters && Possible(Initial(masters, first, threads), run)
    ensures var s := After(Initial(masters, first, threads), run);
            s.lock.None? && s.active.Some? ==> s.active.value < |s.urls| && s.urls[s.active.value] == s.currentIndex
  {
    Reachable(masters, first, threads, run);
  }

  // What a switch tries.

  /** The masters that thread `t` has tried since it last rechecked, in order. */
  function TriedBy(s: System, run: seq<Step>, t: nat): seq<nat>
    requires Possible(s, run)
    decreases |run|
  {
    if run == [] then [] else
    var before, step, tried := After(s, run[..|run| - 1]), run[|run| - 1], TriedBy(s, run[..|run| - 1], t);
    if step.t != t then tried
    else if step.action.Recheck? then []
    else if step.action.ConnectFails? || step.action.ConnectSucceeds?
    then tried + [MasterAt(before, before.threads[t].k)]
    else tried
  }

  /** The number of masters a switch past its recheck has tried. */
  function TriesSoFar(th: Thread): nat
    requires Passed(th)
  {
    if th.Trying? then th.k else th.k + 1
  }

  ghost predicate InRotation(s: System, tried: seq<nat>) {
    |tried| <= s.masters && forall j :: 0 <= j < |tried| ==> tried[j] == MasterAt(s, j)
  }

  ghost predicate Tries(s: System, t: nat, tried: seq<nat>) {
    t < |s.threads| && Passed(s.threads[t]) ==> |tried| == TriesSoFar(s.threads[t]) && InRotation(s, tried)
  }

  lemma OthersKeepTries(s: System, step: Step, t: nat, tried: seq<nat>)
    requires Exclusive(s) && Tries(s, t, tried) && Enabled(s, step) && step.t != t
    ensures Tries(Next(s, step), t, tried)
  {
    if t < |s.threads| && step.action.SetIndex? {
      assert !InLock(s.threads[t]);
    }
  }

  lemma OwnStepTries(s: System, step: Step, tried: seq<nat>)
    requires Tries(s, step.t, tried) && Enabled(s, step)
    ensures Tries(Next(s, step), step.t,
                  if step.action.Recheck? then []
                  else if step.action.ConnectFails? || step.action.ConnectSucceeds?
                  then tried + [MasterAt(s, s.threads[step.t].k)] else tried)
  {
  }

  lemma {:induction false} RunTries(masters: nat, first: nat, threads: nat, run: seq<Step>, t: nat)
    requires first < masters && Possible(Initial(masters, first, threads), run)
    ensures var start := Initial(masters, first, threads); Tries(After(start, run), t, TriedBy(start, run, t))
  {
    if run != [] {
      var start, init, step := Initial(masters, first, threads), run[..|run| - 1], run[|run| - 1];
      Reachable(masters, first, threads, init);
      RunTries(masters, first, threads, init, t);
      if step.t == t {
        OwnStepTries(After(start, init), step, TriedBy(start, init, t));
      } else {
        OthersKeepTries(After(start, init), step, t, TriedBy(start, init, t));
      }
    }
  }

  lemma {:induction false} MastersFixed(masters: nat, first: nat, threads: nat, run: seq<Step>)
    requires Possible(Initial(masters, first, threads), run)
    ensures After(Initial(masters, first, threads), run).masters == masters
  {
    if run != [] {
      MastersFixed(masters, first, threads, run[..|run| - 1]);
    }
  }

  /** Whatever the other threads do, the masters a switch tries are those after the current one, going
      round, each once; it gives up only after all of them, the current one last; and the pool it pings
      leads to the one tried last. */
  lemma TriesTheRotation(masters: nat, first: nat, threads: nat, run: seq<Step>, t: nat)
    requires first < masters && Possible(Initial(masters, first, threads), run)
    requires t < |After(Initial(masters, first, threads), run).threads|
    requires Passed(After(Initial(masters, first, threads), run).threads[t])
    ensures var s := After(Initial(masters, first, threads), run);
            var tried := TriedBy(Initial(masters, first, threads), run, t);
            && |tried| <= masters
            && (forall j :: 0 <= j < |tried| ==> tried[j] == (s.currentIndex + 1 + j) % masters)
            && (Enabled(s, Step(t, GiveUp)) ==> |tried| == masters)
            && (s.threads[t].Pinging? ==>
                  s.threads[t].pool < |s.urls| && tried != [] && s.urls[s.threads[t].pool] == tried[|tried| - 1])
  {
    Reachable(masters, first, threads, run);
    RunTries(masters, first, threads, run, t);
    MastersFixed(masters, first, threads, run);
    var s := After(Initial(masters, first, threads), run);
    assert GoodThread(s, s.threads[t]);
    RotationTried(s, TriedBy(Initial(masters, first, threads), run, t));
  }

  lemma RotationTried(s: System, tried: seq<nat>)
    requires InRotation(s, tried) && s.currentIndex < s.masters
    ensures forall j :: 0 <= j < |tried| ==> tried[j] == (s.currentIndex + 1 + j) % s.masters
  {
    forall j | 0 <= j < |tried|
      ensures tried[j] == (s.currentIndex + 1 + j) % s.masters
    {
      RotationIsModular(s.masters, s.currentIndex, j);
    }
  }

  /** The pool that thread `t` has replaced since it last rechecked. */
  function ReplacedBy(s: System, run: seq<Step>, t: nat): Option<nat>
    requires Possible(s, run)
    decreases |run|
  {
    if run == [] then None else
    var before, step := After(s, run[..|run| - 1]), run[|run| - 1];
    if step.t == t && step.action.Recheck? then None
    else if step.t == t && step.action.SwapIn? then before.active
    else ReplacedBy(s, run[..|run| - 1], t)
  }

  /** What is known of a switch from what it has tried and replaced. */
  ghost predicate Did(th: Thread, tried: seq<nat>, replaced: Option<nat>) {
    && (Passed(th) ==> replaced.None?)
    && (th.Rejecting? || th.Pinging? || (th.Trying? && th.k > 0) ==> tried != [])
    && (th.Swapped? || th.Indexed? ==> th.before == replaced && tried != [])
    && (th.Returning? ==> (th.ok <==> tried == [] || replaced.Some?))
  }

  lemma OwnStepDid(s: System, step: Step, tried: seq<nat>, replaced: Option<nat>)
    requires Enabled(s, step) && s.masters > 0 && Did(s.threads[step.t], tried, replaced)
    ensures Did(Next(s, step).threads[step.t],
                if step.action.Recheck? then []
                else if step.action.ConnectFails? || step.action.ConnectSucceeds?
                then tried + [MasterAt(s, s.threads[step.t].k)] else tried,
                if step.action.Recheck? then None else if step.action.SwapIn? then s.active else replaced)
  {
  }

  lemma ThreadCount(s: System, step: Step)
    requires Enabled(s, step)
    ensures |Next(s, step).threads| == |s.threads|
    ensures forall t :: 0 <= t < |s.threads| && t != step.t ==> Next(s, step).threads[t] == s.threads[t]
  {
  }

  /** A switch reports success iff it had nothing to do, because the pool it had loaded was no longer
      active at its recheck, or it replaced a pool. */
  lemma {:induction false} ReportsWhatItDid(masters: nat, first: nat, threads: nat, run: seq<Step>, t: nat)
    requires first < masters && Possible(Initial(masters, first, threads), run) && t < threads
    ensures var start := Initial(masters, first, threads);
            && t < |After(start, run).threads|
            && Did(After(start, run).threads[t], TriedBy(start, run, t), ReplacedBy(start, run, t))
            && (After(start, run).threads[t].Returning? ==>
                  (After(start, run).threads[t].ok <==>
                   TriedBy(start, run, t) == [] || ReplacedBy(start, run, t).Some?))
  {
    if run != [] {
      var start, init, step := Initial(masters, first, threads), run[..|run| - 1], run[|run| - 1];
      ReportsWhatItDid(masters, first, threads, init, t);
      MastersFixed(masters, first, threads, init);
      ThreadCount(After(start, init), step);
      if step.t == t {
        OwnStepDid(After(start, init), step, TriedBy(start, init, t), ReplacedBy(start, init, t));
      }
    }
  }

  // Which pool a switch replaces, and what it then reports.

  /** The active pool a switch loaded, for as long as it matters. */
  function SeenBy(th: Thread): Option<nat> {
    if th.Loaded? || th.Locked? || th.Trying? || th.Pinging? || th.Rejecting? then th.seen else None
  }

  /** A switch past its recheck, with nothing installed yet. */
  predicate Passed(th: Thread) {
    th.Trying? || th.Pinging? || th.Rejecting?
  }

  /** Pool `p` is open no longer, or about to be closed: nobody can make it active again. */
  ghost predicate Gone(s: System, p: nat) {
    && p < |s.urls| && s.active != Some(p)
    && forall u :: 0 <= u < |s.threads| ==> !(s.threads[u].Pinging? && s.threads[u].pool == p)
  }

  /** Pools that were seen active are not pools still to be installed. */
  ghost predicate Witnessed(s: System) {
    forall t, u :: 0 <= t < |s.threads| && 0 <= u < |s.threads| && SeenBy(s.threads[t]).Some? ==>
                     && SeenBy(s.threads[t]).value < |s.urls|
                     && !(s.threads[u].Pinging? && Some(s.threads[u].pool) == SeenBy(s.threads[t]))
  }

  /** The pools that a Close took out of the client. */
  function TakenByClose(s: System, run: seq<Step>): set<nat>
    requires Possible(s, run)
    decreases |run|
  {
    if run == [] then {} else
    var before := After(s, run[..|run| - 1]);
    TakenByClose(s, run[..|run| - 1]) +
    if run[|run| - 1].action.SwapOut? && before.active.Some? then {before.active.value} else {}
  }

  /** How many switches that had loaded `seen` installed a pool. */
  function Installs(s: System, run: seq<Step>, seen: Option<nat>): nat
    requires Possible(s, run)
    decreases |run|
  {
    if run == [] then 0 else
    var before, step := After(s, run[..|run| - 1]), run[|run| - 1];
    Installs(s, run[..|run| - 1], seen) +
    if step.action.SwapIn? && SeenBy(before.threads[step.t]) == seen then 1 else 0
  }

  /** The pool a switch past its recheck has loaded is still active, or a Close took it. */
  ghost predicate Rechecked(s: System, taken: set<nat>) {
    forall t :: 0 <= t < |s.threads| && Passed(s.threads[t]) && s.threads[t].seen.Some? ==>
                  s.active == s.threads[t].seen || (s.active.None? && s.threads[t].seen.value in taken)
  }

  lemma ActiveNotHeld(s: System, p: nat, u: nat)
    requires Owned(s) && s.active == Some(p) && u < |s.threads|
    ensures p !in Held(s.threads[u])
  {
    assert Owners(s, p) <= 1;
    OccursMember(OptionToSeq(s.active), p);
    OccursMember(Held(s.threads[u]), p);
    SumPart(Shares(s.threads, p), u);
    assert Shares(s.threads, p)[u] == Occurrences(Held(s.threads[u]), p);
  }

  lemma LoadKeepsWitnessed(s: System, t: nat)
    requires Owned(s) && Bounds(s) && Witnessed(s) && Enabled(s, Step(t, LoadActive))
    ensures Witnessed(Next(s, Step(t, LoadActive)))
  {
    if s.active.Some? {
      forall u | 0 <= u < |s.threads|
        ensures s.active.value !in Held(s.threads[u])
      {
        ActiveNotHeld(s, s.active.value, u);
      }
    }
  }

  lemma OpeningKeepsWitnessed(s: System, t: nat)
    requires Witnessed(s) && Enabled(s, Step(t, ConnectSucceeds))
    ensures Witnessed(Next(s, Step(t, ConnectSucceeds)))
  {
  }

  lemma OthersKeepWitnessed(s: System, step: Step)
    requires Witnessed(s) && Enabled(s, step) && !step.action.LoadActive? && !step.action.ConnectSucceeds?
    ensures Witnessed(Next(s, step))
  {
    var th := Next(s, step).threads[step.t];
    assert SeenBy(th).Some? ==> SeenBy(th) == SeenBy(s.threads[step.t]);
    assert !th.Pinging?;
  }

  lemma KeepsWitnessed(s: System, step: Step)
    requires Owned(s) && Bounds(s) && Witnessed(s) && Enabled(s, step)
    ensures Witnessed(Next(s, step))
  {
    if step.action.LoadActive? {
      LoadKeepsWitnessed(s, step.t);
    } else if step.action.ConnectSucceeds? {
      OpeningKeepsWitnessed(s, step.t);
    } else {
      OthersKeepWitnessed(s, step);
    }
  }

  lemma StaysGone(s: System, step: Step, p: nat)
    requires Gone(s, p) && Enabled(s, step)
    ensures Gone(Next(s, step), p)
  {
  }

  lemma TakenIsGone(s: System, t: nat)
    requires Owned(s) && Bounds(s) && Enabled(s, Step(t, SwapOut)) && s.active.Some?
    ensures Gone(Next(s, Step(t, SwapOut)), s.active.value)
  {
    forall u | 0 <= u < |s.threads|
      ensures s.active.value !in Held(s.threads[u])
    {
      ActiveNotHeld(s, s.active.value, u);
    }
  }

  lemma KeepsRechecked(s: System, step: Step, taken: set<nat>)
    requires Exclusive(s) && Rechecked(s, taken) && Enabled(s, step)
    ensures Rechecked(Next(s, step), taken + if step.action.SwapOut? && s.active.Some? then {s.active.value} else {})
  {
  }

  lemma {:induction false} History(masters: nat, first: nat, threads: nat, run: seq<Step>)
    requires first < masters && Possible(Initial(masters, first, threads), run)
    ensures var start := Initial(masters, first, threads);
            && Witnessed(After(start, run))
            && Rechecked(After(start, run), TakenByClose(start, run))
            && forall p :: p in TakenByClose(start, run) ==> Gone(After(start, run), p)
  {
    if run != [] {
      var start, init, step := Initial(masters, first, threads), run[..|run| - 1], run[|run| - 1];
      var s := After(start, init);
      History(masters, first, threads, init);
      Reachable(masters, first, threads, init);
      KeepsWitnessed(s, step);
      KeepsRechecked(s, step, TakenByClose(start, init));
      forall p | p in TakenByClose(start, run)
        ensures Gone(After(start, run), p)
      {
        if p in TakenByClose(start, init) {
          StaysGone(s, step, p);
        } else {
          TakenIsGone(s, step.t);
        }
      }
    }
  }

  /** A switch that loaded pool `p` and now installs its healthy one replaces `p`, and reports success,
      unless a Close took `p` meanwhile: then it replaces nothing, installs its pool all the same, and
      reports that no master was found. */
  lemma SwitchAfterClose(masters: nat, first: nat, threads: nat, run: seq<Step>, t: nat, p: nat)
    requires first < masters && Possible(Initial(masters, first, threads), run)
    requires Enabled(After(Initial(masters, first, threads), run), Step(t, SwapIn))
    requires SeenBy(After(Initial(masters, first, threads), run).threads[t]) == Some(p)
    ensures var s := After(Initial(masters, first, threads), run);
            var n := Next(s, Step(t, SwapIn));
            var taken := p in TakenByClose(Initial(masters, first, threads), run);
            && n.active == Some(s.threads[t].pool) && n.threads[t].before == (if taken then None else Some(p))
            && n.threads[t].k < n.masters
            && Next(Next(n, Step(t, SetIndex)), Step(t, CloseOld)).threads[t] == Returning(!taken)
  {
    History(masters, first, threads, run);
    Reachable(masters, first, threads, run);
    var start := Initial(masters, first, threads);
    InstallAndReport(After(start, run), t, p, TakenByClose(start, run));
  }

  lemma InstallAndReport(s: System, t: nat, p: nat, taken: set<nat>)
    requires Bounds(s) && Rechecked(s, taken) && Enabled(s, Step(t, SwapIn)) && SeenBy(s.threads[t]) == Some(p)
    requires p in taken ==> Gone(s, p)
    ensures var n := Next(s, Step(t, SwapIn));
            && n.active == Some(s.threads[t].pool)
            && n.threads[t].before == (if p in taken then None else Some(p)) && n.threads[t].k < n.masters
            && Next(Next(n, Step(t, SetIndex)), Step(t, CloseOld)).threads[t] == Returning(p !in taken)
  {
    assert GoodThread(s, s.threads[t]) && Passed(s.threads[t]);
  }

  /** No switch past its recheck has loaded pool `p`, and none will be. */
  ghost predicate Spent(s: System, p: nat) {
    Gone(s, p) && forall t :: 0 <= t < |s.threads| && Passed(s.threads[t]) ==> s.threads[t].seen != Some(p)
  }

  lemma StaysSpent(s: System, step: Step, p: nat)
    requires Spent(s, p) && Enabled(s, step)
    ensures Spent(Next(s, step), p)
    ensures step.action.SwapIn? ==> SeenBy(s.threads[step.t]) != Some(p)
  {
  }

  lemma InstallSpends(s: System, t: nat, p: nat)
    requires Exclusive(s) && Witnessed(s) && Enabled(s, Step(t, SwapIn)) && SeenBy(s.threads[t]) == Some(p)
    ensures Spent(Next(s, Step(t, SwapIn)), p)
  {
    assert forall u :: 0 <= u < |s.threads| && u != t ==> !InLock(s.threads[u]);
  }

  /** No double switch: of all the switches that loaded the same active pool, whatever else runs, at
      most one installs a pool. */
  lemma {:induction false} NoDoubleSwitch(masters: nat, first: nat, threads: nat, run: seq<Step>, p: nat)
    requires first < masters && Possible(Initial(masters, first, threads), run)
    ensures Installs(Initial(masters, first, threads), run, Some(p)) <= 1
    ensures Installs(Initial(masters, first, threads), run, Some(p)) == 1 ==>
              Spent(After(Initial(masters, first, threads), run), p)
  {
    if run != [] {
      var start, init, step := Initial(masters, first, threads), run[..|run| - 1], run[|run| - 1];
      NoDoubleSwitch(masters, first, threads, init, p);
      if Installs(start, init, Some(p)) == 1 {
        StaysSpent(After(start, init), step, p);
      } else if step.action.SwapIn? && SeenBy(After(start, init).threads[step.t]) == Some(p) {
        Reachable(masters, first, threads, init);
        History(masters, first, threads, init);
        InstallSpends(After(start, init), step.t, p);
      }
    }
  }

  // Whether a closed client stays closed.

  /** A thread that can still install a pool while none is active. One that loaded a pool and has not
      rechecked yet cannot: it will find the pool replaced. */
  predicate MayInstall(s: System, th: Thread) {
    match th
    case Loaded(seen) => seen.None?
    case Locked(seen) => seen.None?
    case Trying(_, k) => k < s.masters
    case Pinging(_, _, _) => true
    case Rejecting(_, k, _) => k + 1 < s.masters
    case _ => false
  }

  predicate NoNewSwitch(run: seq<Step>) {
    forall k :: 0 <= k < |run| ==> !run[k].action.LoadActive?
  }

  ghost predicate Shut(s: System) {
    s.active.None? && forall t :: 0 <= t < |s.threads| ==> !MayInstall(s, s.threads[t])
  }

  lemma StepStaysShut(s: System, step: Step)
    requires Shut(s) && Enabled(s, step) && !step.action.LoadActive?
    ensures Shut(Next(s, step))
  {
    assert !MayInstall(s, s.threads[step.t]);
  }

  lemma {:induction false} StaysShut(s: System, more: seq<Step>)
    requires Shut(s) && Possible(s, more) && NoNewSwitch(more)
    ensures Shut(After(s, more))
  {
    if more != [] {
      StaysShut(s, more[..|more| - 1]);
      StepStaysShut(After(s, more[..|more| - 1]), more[|more| - 1]);
    }
  }

  /** What the lock holder does next to get its switch done. */
  function Finishing(s: System, th: Thread): Action {
    match th
    case Locked(_) => Recheck
    case Trying(_, k) => if k < s.masters then ConnectSucceeds else GiveUp
    case Pinging(_, _, _) => SwapIn
    case Rejecting(_, _, _) => CloseRejected
    case Swapped(_, _) => SetIndex
    case Indexed(_) => CloseOld
    case _ => Unlock
  }

  /** How many steps away a switch is from installing a pool, at most, or from giving up the lock. */
  function Distance(th: Thread): nat {
    match th
    case Locked(_) => 6
    case Rejecting(_, _, _) => 5
    case Trying(_, _) => 4
    case Swapped(_, _) => 4
    case Pinging(_, _, _) => 3
    case Indexed(_) => 3
    case Returning(_) => 2
    case _ => 1
  }

  lemma HolderMoves(s: System, u: nat)
    requires Exclusive(s) && Bounds(s) && s.active.None? && s.lock == Some(u) && !s.threads[u].Pinging?
    ensures var step := Step(u, Finishing(s, s.threads[u]));
            && Enabled(s, step) && Next(s, step).active.None?
            && (MayInstall(s, s.threads[u]) ==>
                  Next(s, step).lock == Some(u) && MayInstall(Next(s, step), Next(s, step).threads[u]))
            && (!MayInstall(s, s.threads[u]) ==> !MayInstall(Next(s, step), Next(s, step).threads[u]))
            && (Next(s, step).lock == Some(u) ==>
                  Distance(Next(s, step).threads[u]) < Distance(s.threads[u]))
            && (Next(s, step).lock != Some(u) ==> Next(s, step).lock.None?)
            && forall t :: 0 <= t < |s.threads| && t != u ==> Next(s, step).threads[t] == s.threads[t]
  {
    assert InLock(s.threads[u]) && GoodThread(s, s.threads[u]);
  }

  /** How far a switch that may install is from doing so: the lock holder comes first. */
  function Far(s: System): nat {
    if s.lock.None? || s.lock.value >= |s.threads| then 10 else
    var holder := s.threads[s.lock.value];
    Distance(holder) + if MayInstall(s, holder) then 0 else 20
  }

  /** The next step on the way, and the thread that may install after it. */
  lemma NextMove(s: System, t: nat) returns (step: Step, next: nat)
    requires Exclusive(s) && Bounds(s) && s.active.None? && t < |s.threads| && MayInstall(s, s.threads[t])
    ensures Enabled(s, step) && !step.action.LoadActive?
    ensures var n := Next(s, step);
            n.active.Some? || (next < |n.threads| && MayInstall(n, n.threads[next]) && Far(n) < Far(s))
  {
    if s.lock.None? {
      step, next := Step(t, Lock), t;
    } else {
      var u := s.lock.value;
      step, next := Step(u, Finishing(s, s.threads[u])), if MayInstall(s, s.threads[u]) then u else t;
      if !s.threads[u].Pinging? {
        HolderMoves(s, u);
      }
    }
  }

  lemma {:induction false} Reopens(s: System, t: nat) returns (more: seq<Step>)
    requires Exclusive(s) && Bounds(s) && s.active.None? && t < |s.threads| && MayInstall(s, s.threads[t])
    ensures NoNewSwitch(more) && Possible(s, more) && After(s, more).active.Some?
    decreases Far(s)
  {
    var step, next := NextMove(s, t);
    KeepsExclusive(s, step);
    KeepsBounds(s, step);
    var n := Next(s, step);
    if n.active.Some? {
      more := [];
      assert Possible(n, []) && After(n, []) == n;
    } else {
      more := Reopens(n, next);
    }
    One(s, step);
    Join(s, [step], more);
    more := [step] + more;
  }

  /** Main result: a client without an active pool can be given one again, without any further call of
      `switchMaster`, iff some call in progress may still install: it is trying masters, or pinging,
      or has more to try, or it loaded no pool. */
  lemma ReopensIff(masters: nat, first: nat, threads: nat, run: seq<Step>)
    requires first < masters && Possible(Initial(masters, first, threads), run)
    requires After(Initial(masters, first, threads), run).active.None?
    ensures var s := After(Initial(masters, first, threads), run);
            (exists t :: 0 <= t < |s.threads| && MayInstall(s, s.threads[t])) <==>
            (exists more :: NoNewSwitch(more) && Possible(s, more) && After(s, more).active.Some?)
  {
    var s := After(Initial(masters, first, threads), run);
    Reachable(masters, first, threads, run);
    if t :| 0 <= t < |s.threads| && MayInstall(s, s.threads[t]) {
      var more := Reopens(s, t);
    } else {
      forall more | NoNewSwitch(more) && Possible(s, more)
        ensures After(s, more).active.None?
      {
        StaysShut(s, more);
      }
    }
  }

  /** When every call has returned, every pool but the active one has been closed, exactly once. */
  lemma ActiveAtRest(masters: nat, first: nat, threads: nat, run: seq<Step>)
    requires first < masters && Possible(Initial(masters, first, threads), run)
    requires forall th :: th in After(Initial(masters, first, threads), run).threads ==> th.Idle?
    ensures var s := After(Initial(masters, first, threads), run);
            forall p: nat :: p < |s.urls| ==> Occurrences(s.disposed, p) == if s.active == Some(p) then 0 else 1
  {
    var s := After(Initial(masters, first, threads), run);
    forall p: nat | p < |s.urls|
      ensures Occurrences(s.disposed, p) == if s.active == Some(p) then 0 else 1
    {
      IdleOwner(masters, first, threads, run, p);
    }
  }

  lemma IdleOwner(masters: nat, first: nat, threads: nat, run: seq<Step>, p: nat)
    requires first < masters && Possible(Initial(masters, first, threads), run)
    requires forall th :: th in After(Initial(masters, first, threads), run).threads ==> th.Idle?
    requires p < |After(Initial(masters, first, threads), run).urls|
    ensures var s := After(Initial(masters, first, threads), run);
            Occurrences(s.disposed, p) == if s.active == Some(p) then 0 else 1
  {
    var s := After(Initial(masters, first, threads), run);
    assert forall t :: 0 <= t < |s.threads| ==> s.threads[t] in s.threads && Held(s.threads[t]) == [];
    var holder := OneOwner(masters, first, threads, run, p);
    OccursMember(s.disposed, p);
  }

  /** For the caller: once no call in progress may install and none is started, the closed client
      stays closed, and when the calls have returned every pool ever opened has been closed. */
  lemma ClosedForGood(masters: nat, first: nat, threads: nat, run: seq<Step>, more: seq<Step>)
    requires first < masters && Possible(Initial(masters, first, threads), run)
    requires Shut(After(Initial(masters, first, threads), run))
    requires Possible(After(Initial(masters, first, threads), run), more) && NoNewSwitch(more)
    ensures var e := After(After(Initial(masters, first, threads), run), more);
            && e.active.None?
            && ((forall th :: th in e.threads ==> th.Idle?) ==>
                  forall p: nat :: p < |e.urls| ==> Occurrences(e.disposed, p) == 1)
  {
    var start := Initial(masters, first, threads);
    var e := After(After(start, run), more);
    StaysShut(After(start, run), more);
    Join(start, run, more);
    if forall th :: th in e.threads ==> th.Idle? {
      ActiveAtRest(masters, first, threads, run + more);
    }
  }

  lemma InstallsExtend(s: System, run: seq<Step>, step: Step, seen: Option<nat>)
    requires Possible(s, run) && Enabled(After(s, run), step)
    ensures Possible(s, run + [step])
    ensures Installs(s, run + [step], seen) ==
            Installs(s, run, seen) +
            if step.action.SwapIn? && SeenBy(After(s, run).threads[step.t]) == seen then 1 else 0
  {
    Extend(s, run, step);
    assert (run + [step])[..|run + [step]| - 1] == run;
  }

  lemma {:induction false} InstallsJoin(s: System, run: seq<Step>, more: seq<Step>, seen: Option<nat>)
    requires Possible(s, run) && Possible(After(s, run), more)
    ensures Possible(s, run + more)
    ensures Installs(s, run + more, seen) == Installs(s, run, seen) + Installs(After(s, run), more, seen)
    decreases |more|
  {
    Join(s, run, more);
    if more == [] {
      assert run + more == run;
    } else {
      var m := After(s, run);
      var init, last := LastStep(m, more);
      assert more[..|more| - 1] == init;
      Join(s, run, init);
      InstallsJoin(s, run, init, seen);
      InstallsExtend(m, init, last, seen);
      InstallsExtend(s, run + init, last, seen);
      assert run + more == (run + init) + [last];
    }
  }

  /** One step more, and what it installs. */
  lemma Go(s: System, run: seq<Step>, step: Step) returns (longer: seq<Step>)
    requires Possible(s, run) && Enabled(After(s, run), step)
    ensures longer == run + [step] && Possible(s, longer) && After(s, longer) == Next(After(s, run), step)
    ensures Installs(s, longer, None) ==
            Installs(s, run, None) + if step.action.SwapIn? && SeenBy(After(s, run).threads[step.t]).None? then 1 else 0
  {
    longer := run + [step];
    Extend(s, run, step);
    InstallsExtend(s, run, step, None);
  }

  lemma Onward(s: System, run: seq<Step>, more: seq<Step>) returns (longer: seq<Step>)
    requires Possible(s, run) && Possible(After(s, run), more)
    ensures longer == run + more && Possible(s, longer) && After(s, longer) == After(After(s, run), more)
    ensures Installs(s, longer, None) == Installs(s, run, None) + Installs(After(s, run), more, None)
  {
    longer := run + more;
    Join(s, run, more);
    InstallsJoin(s, run, more, None);
  }

  lemma CloseRun(s: System) returns (run: seq<Step>)
    requires s.threads != [] && s.threads[0].Idle? && s.active == Some(0)
    ensures Possible(s, run) && Installs(s, run, None) == 0
    ensures After(s, run) == s.(active := None, closedFlag := true, disposed := s.disposed + [0])
  {
    run := Go(s, [], Step(0, MarkClosed));
    run := Go(s, run, Step(0, SwapOut));
    run := Go(s, run, Step(0, CloseActive));
    assert After(s, run).threads == s.threads;
  }

  lemma Rewritten(threads: seq<Thread>, t: nat, a: Thread, b: Thread)
    requires t < |threads|
    ensures threads[t := a][t := b] == threads[t := b] && threads[t := a][t] == a
  {
  }

  /** A switch that loaded no pool, up to its first ping. */
  lemma ConnectAlone(s: System, t: nat) returns (run: seq<Step>)
    requires s.masters > 0 && t < |s.threads| && s.threads[t] == Loaded(None) && s.lock.None?
    ensures Possible(s, run) && Installs(s, run, None) == 0
    ensures After(s, run) == s.(threads := s.threads[t := Pinging(None, 0, |s.urls|)], lock := Some(t),
                             urls := s.urls + [MasterAt(s, 0)])
  {
    run := Go(s, [], Step(t, Lock));
    var locked := s.(threads := s.threads[t := Locked(None)], lock := Some(t));
    assert After(s, run) == locked;
    var more := RecheckAndConnect(locked, t);
    Rewritten(s.threads, t, Locked(None), Pinging(None, 0, |s.urls|));
    run := Onward(s, run, more);
  }

  lemma RecheckAndConnect(s: System, t: nat) returns (run: seq<Step>)
    requires s.masters > 0 && t < |s.threads| && s.threads[t] == Locked(None)
    ensures Possible(s, run) && Installs(s, run, None) == 0
    ensures After(s, run) == s.(threads := s.threads[t := Pinging(None, 0, |s.urls|)],
                             urls := s.urls + [MasterAt(s, 0)])
  {
    run := Go(s, [], Step(t, Recheck));
    var trying := Put(s, t, Trying(None, 0));
    assert After(s, run) == trying;
    var connecting := Connects(trying, t);
    Rewritten(s.threads, t, Trying(None, 0), Pinging(None, 0, |s.urls|));
    run := Onward(s, run, connecting);
  }

  lemma Connects(s: System, t: nat) returns (run: seq<Step>)
    requires s.masters > 0 && t < |s.threads| && s.threads[t] == Trying(None, 0)
    ensures Possible(s, run) && Installs(s, run, None) == 0
    ensures After(s, run) == s.(threads := s.threads[t := Pinging(None, 0, |s.urls|)],
                             urls := s.urls + [MasterAt(s, 0)])
  {
    run := Go(s, [], Step(t, ConnectSucceeds));
  }

  /** The rest of it, when no pool is active. */
  lemma InstallAlone(s: System, t: nat) returns (run: seq<Step>)
    requires s.masters > 0 && t < |s.threads| && s.active.None?
    requires s.threads[t].Pinging? && s.threads[t].k < s.masters && s.threads[t].seen.None?
    ensures Possible(s, run) && Installs(s, run, None) == 1
    ensures After(s, run) == s.(threads := s.threads[t := Returning(false)], active := Some(s.threads[t].pool),
                             currentIndex := MasterAt(s, s.threads[t].k))
  {
    var th := s.threads[t];
    run := Go(s, [], Step(t, SwapIn));
    var swapped := s.(threads := s.threads[t := Swapped(th.k, None)], active := Some(th.pool));
    assert After(s, run) == swapped;
    var more := IndexAndReturn(swapped, t);
    Rewritten(s.threads, t, Swapped(th.k, None), Returning(false));
    run := Onward(s, run, more);
  }

  lemma IndexAndReturn(s: System, t: nat) returns (run: seq<Step>)
    requires t < |s.threads| && s.threads[t].Swapped? && s.threads[t].before.None? && s.threads[t].k < s.masters
    ensures Possible(s, run) && Installs(s, run, None) == 0
    ensures After(s, run) == s.(threads := s.threads[t := Returning(false)],
                             currentIndex := MasterAt(s, s.threads[t].k))
  {
    run := Go(s, [], Step(t, SetIndex));
    assert After(s, run) == Put(s, t, Indexed(None)).(currentIndex := MasterAt(s, s.threads[t].k));
    run := Go(s, run, Step(t, CloseOld));
    Rewritten(s.threads, t, Indexed(None), Returning(false));
  }

  /** A switch that loaded no pool, all of it but the unlocking. */
  lemma SwitchAlone(s: System, t: nat) returns (run: seq<Step>)
    requires s.masters > 0 && t < |s.threads| && s.threads[t] == Loaded(None) && s.active.None? && s.lock.None?
    ensures Possible(s, run) && Installs(s, run, None) == 1
    ensures After(s, run) == s.(threads := s.threads[t := Returning(false)], active := Some(|s.urls|), lock := Some(t),
                             urls := s.urls + [MasterAt(s, 0)], currentIndex := MasterAt(s, 0))
  {
    run := ConnectAlone(s, t);
    var connected := After(s, run);
    var installing := InstallAlone(connected, t);
    run := Onward(s, run, installing);
  }

  /** For instance one thread that closes the client and then switches the master: it is told that
      no master was found, and leaves an open pool behind in a closed client. */
  lemma ReopenedAfterClose(masters: nat)
    requires masters > 0
    ensures exists run :: Possible(Initial(masters, 0, 1), run) &&
                          var e := After(Initial(masters, 0, 1), run);
                          e.closedFlag && e.threads == [Returning(false)] && e.active == Some(1) && 1 !in e.disposed
  {
    var s := Initial(masters, 0, 1);
    var run := CloseRun(s);
    run := Go(s, run, Step(0, LoadActive));
    var switching := SwitchAlone(After(s, run), 0);
    run := Onward(s, run, switching);
    assert After(s, run).threads == [Returning(false)];
  }

  /** A client closed, and then two switches begun. */
  lemma CloseAndLoadTwice(masters: nat) returns (run: seq<Step>)
    ensures Possible(Initial(masters, 0, 2), run) && Installs(Initial(masters, 0, 2), run, None) == 0
    ensures After(Initial(masters, 0, 2), run) ==
            System(masters, None, 0, true, None, [Loaded(None), Loaded(None)], [0], [0])
  {
    var s := Initial(masters, 0, 2);
    run := CloseRun(s);
    var closed := After(s, run);
    assert closed == System(masters, None, 0, true, None, [Idle, Idle], [0], [0]);
    run := Go(s, run, Step(0, LoadActive));
    run := Go(s, run, Step(1, LoadActive));
  }

  /** Of two switches that loaded no pool, the first finishes and the second replaces its pool. */
  lemma BothSwitch(s: System) returns (run: seq<Step>)
    requires s.masters > 0 && s.threads == [Loaded(None), Loaded(None)] && s.active.None? && s.lock.None?
    requires |s.urls| == 1 && s.disposed == [0]
    ensures Possible(s, run) && Installs(s, run, None) == 2
    ensures var e := After(s, run);
            e.active == Some(2) && e.threads == [Idle, Swapped(0, Some(1))] && e.disposed == [0]
  {
    run := SwitchAlone(s, 0);
    var switched := After(s, run);
    assert switched.threads == [Returning(false), Loaded(None)];
    run := Go(s, run, Step(0, Unlock));
    var unlocked := After(s, run);
    assert unlocked.threads == [Idle, Loaded(None)] && unlocked.active == Some(1) && |unlocked.urls| == 2;
    var second := ConnectAlone(unlocked, 1);
    run := Onward(s, run, second);
    var connected := After(s, run);
    assert connected.threads == [Idle, Pinging(None, 0, 2)] && connected.active == Some(1);
    run := Go(s, run, Step(1, SwapIn));
  }

  /** The recheck does not help switches that loaded no pool: on a client that was closed, two of them
      can each install one, the second replacing the first's. */
  lemma TwoSwitchesAfterClose(masters: nat) returns (run: seq<Step>)
    requires masters > 0
    ensures Possible(Initial(masters, 0, 2), run) && Installs(Initial(masters, 0, 2), run, None) == 2
    ensures var e := After(Initial(masters, 0, 2), run);
            e.active == Some(2) && e.threads == [Idle, Swapped(0, Some(1))] && 1 !in e.disposed
  {
    var s := Initial(masters, 0, 2);
    run := CloseAndLoadTwice(masters);
    var more := BothSwitch(After(s, run));
    run := Onward(s, run, more);
  }
}
