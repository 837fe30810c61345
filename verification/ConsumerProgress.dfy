/** When the poll loop of the Kafka consumer can still reach its barrier
    (connectors/message_broker/consumer.go): polling, stopping and replacing consumers wait for each
    other, and never for ever unless the not-found path has leaked, or is bound to. */
module ConsumerProgress {
  import opened Wrappers
  import opened Ledgers
  import opened Consumer

  // How far a state is from the barrier, the coarsest measure first.

  function PollsLeft(s: System): nat {
    if s.poller.Polling? then 1 else 0
  }

  function FetchesLeft(s: System): nat {
    if s.poller.Dispatching? then |s.poller.todo| else 0
  }

  function Unprocessed(s: System): nat {
    if |s.processed| <= |s.dispatched| then |s.dispatched| - |s.processed| else 0
  }

  function Load(w: Worker): nat {
    3 * |w.channel| + (if w.lanes.Some? then 1 else 0) + if w.done then 0 else 1
  }

  function Loads(workers: seq<Worker>): seq<nat> {
    seq(|workers|, i requires 0 <= i < |workers| => Load(workers[i]))
  }

  function Waits(s: System): nat {
    if s.stopping.Some? then 1 else 0
  }

  predicate Closer(t: System, s: System) {
    || PollsLeft(t) < PollsLeft(s)
    || (PollsLeft(t) == PollsLeft(s) && FetchesLeft(t) < FetchesLeft(s))
    || (PollsLeft(t) == PollsLeft(s) && FetchesLeft(t) == FetchesLeft(s) && WorkCloser(t, s))
  }

  predicate WorkCloser(t: System, s: System) {
    || Unprocessed(t) < Unprocessed(s)
    || (Unprocessed(t) == Unprocessed(s) && Sum(Loads(t.workers)) < Sum(Loads(s.workers)))
    || (Unprocessed(t) == Unprocessed(s) && Sum(Loads(t.workers)) == Sum(Loads(s.workers)) && Waits(t) < Waits(s))
  }

  // Consumers with something to do can do it.

  predicate Busy(w: Worker) {
    w.channel != [] || w.lanes.Some?
  }

  lemma LoadChange(workers: seq<Worker>, i: nat, w: Worker)
    requires i < |workers| && Load(w) < Load(workers[i])
    ensures Sum(Loads(workers[i := w])) < Sum(Loads(workers))
  {
    assert Loads(workers[i := w]) == Loads(workers)[i := Load(w)];
    SumUpdate(Loads(workers), i, Load(w));
  }

  lemma KeepsCounted(s: System, step: Step)
    requires Counted(s) && Enabled(s, step)
    ensures Counted(Next(s, step))
  {
  }

  lemma KeepsInv(s: System, step: Step)
    requires Inv(s) && Enabled(s, step)
    ensures Inv(Next(s, step))
  {
    KeepsRegistered(s, step);
    KeepsOrdered(s, step);
    KeepsCounted(s, step);
  }

  /** Steps of one consumer: they leave the poller, the registry and the `closing` flags alone. */
  predicate WorkStep(step: Step) {
    step.TakeBatch? || step.ProcessRecord? || step.EndBatch? || step.EndWorker?
  }

  lemma ProcessingAdvances(s: System, i: nat, c: Class)
    requires Inv(s) && Enabled(s, ProcessRecord(i, c))
    ensures WorkCloser(Next(s, ProcessRecord(i, c)), s)
  {
    KeepsInv(s, ProcessRecord(i, c));
    AllProcessed(Next(s, ProcessRecord(i, c)));
  }

  lemma WorkerAdvances(s: System, i: nat) returns (step: Step)
    requires Inv(s) && i < |s.workers| && !s.workers[i].done && (Busy(s.workers[i]) || s.workers[i].closing)
    ensures Enabled(s, step) && WorkStep(step) && WorkCloser(Next(s, step), s)
  {
    var w := s.workers[i];
    if w.lanes.Some? {
      if c :| c in w.lanes.value && w.lanes.value[c] != [] {
        step := ProcessRecord(i, c);
        ProcessingAdvances(s, i, c);
      } else {
        step := EndBatch(i);
        LoadChange(s.workers, i, Next(s, step).workers[i]);
      }
    } else if w.channel != [] {
      step := TakeBatch(i);
      LoadChange(s.workers, i, Next(s, step).workers[i]);
    } else {
      step := EndWorker(i);
      LoadChange(s.workers, i, Next(s, step).workers[i]);
    }
  }

  /** If no consumer has anything to do, everything dispatched has been processed. */
  lemma IdleMeansProcessed(s: System)
    requires Inv(s) && forall i :: 0 <= i < |s.workers| ==> !Busy(s.workers[i])
    ensures s.wg == s.leaked
  {
    forall c
      ensures Select(s.single, s.processed, c) == Select(s.single, s.dispatched, c)
    {
      assert OrderedFor(s, c);
      assert Outstanding(s, c) == [];
    }
    AllProcessed(s);
  }

  lemma BusyIsNotDone(s: System, i: nat)
    requires Registered(s) && i < |s.workers| && Busy(s.workers[i])
    ensures !s.workers[i].done
  {
    assert GoodWorker(s.single, s.workers[i]);
  }

  // When the barrier can be reached.

  /** Nothing leaked, and nothing still to be dispatched will have to take the not-found path. */
  predicate Servable(s: System) {
    && s.leaked == 0
    && (s.poller.Dispatching? ==> forall k :: 0 <= k < |s.poller.todo| ==> ServableFetch(s, s.poller.todo[k]))
  }

  predicate ServableFetch(s: System, f: Fetch) {
    f.failed || f.records == [] || Found(s, f.partition)
  }

  lemma WorkKeepsServable(s: System, step: Step)
    requires Servable(s) && Enabled(s, step) && WorkStep(step)
    ensures Servable(Next(s, step))
    ensures PollsLeft(Next(s, step)) == PollsLeft(s) && FetchesLeft(Next(s, step)) == FetchesLeft(s)
  {
    var t := Next(s, step);
    forall p
      ensures Found(s, p) ==> Found(t, p)
    {
    }
  }

  lemma DispatchKeepsServable(s: System)
    requires Servable(s) && Enabled(s, Dispatch)
    ensures Servable(Next(s, Dispatch)) && Closer(Next(s, Dispatch), s)
  {
    forall p
      ensures Found(s, p) ==> Found(Next(s, Dispatch), p)
    {
    }
  }

  lemma NotFoundKeepsServable(s: System)
    requires Servable(s) && Enabled(s, DispatchNotFound) && s.poller.todo[0].records == []
    ensures Servable(Next(s, DispatchNotFound)) && Closer(Next(s, DispatchNotFound), s)
  {
    forall p
      ensures Found(s, p) ==> Found(Next(s, DispatchNotFound), p)
    {
    }
  }

  lemma WorkerAdvancesAll(s: System, i: nat) returns (step: Step)
    requires Inv(s) && Servable(s) && i < |s.workers| && !s.workers[i].done
    requires Busy(s.workers[i]) || s.workers[i].closing
    ensures Enabled(s, step) && Servable(Next(s, step)) && Closer(Next(s, step), s)
  {
    step := WorkerAdvances(s, i);
    WorkKeepsServable(s, step);
  }

  /** The head of the fetches is skipped, dispatched, or waits for a consumer that can go on. */
  lemma FetchAdvances(s: System) returns (step: Step)
    requires Inv(s) && Servable(s) && s.stopping.None? && s.poller.Dispatching? && s.poller.todo != []
    ensures Enabled(s, step) && Servable(Next(s, step)) && Closer(Next(s, step), s)
  {
    var f := s.poller.todo[0];
    var p := f.partition;
    if f.failed {
      step := SkipFailed;
    } else if Found(s, p) {
      var i := s.current[p];
      if |s.workers[i].channel| < CHANNEL_CAPACITY {
        step := Dispatch;
        DispatchKeepsServable(s);
      } else {
        BusyIsNotDone(s, i);
        step := WorkerAdvancesAll(s, i);
      }
    } else if Replaceable(s, p) {
      step := DispatchNotFound;
      NotFoundKeepsServable(s);
    } else {
      step := WorkerAdvancesAll(s, s.current[p]);
    }
  }

  lemma Advances(s: System) returns (step: Step)
    requires Inv(s) && Servable(s) && !Enabled(s, AllowRebalance)
    ensures Enabled(s, step) && Servable(Next(s, step)) && Closer(Next(s, step), s)
  {
    if s.stopping.Some? {
      if s.workers[s.stopping.value].done {
        step := StopReturns;
      } else {
        step := WorkerAdvancesAll(s, s.stopping.value);
      }
    } else if s.poller.Polling? {
      step := Poll([]);
    } else if s.poller.todo != [] {
      step := FetchAdvances(s);
    } else if i :| 0 <= i < |s.workers| && Busy(s.workers[i]) {
      BusyIsNotDone(s, i);
      step := WorkerAdvancesAll(s, i);
    } else {
      IdleMeansProcessed(s);
      assert false;
    }
  }

  // Runs.

  lemma Extend(s: System, run: seq<Step>, step: Step)
    requires Possible(s, run) && Enabled(After(s, run), step)
    ensures Possible(s, run + [step]) && After(s, run + [step]) == Next(After(s, run), step)
  {
    assert (run + [step])[..|run + [step]| - 1] == run;
  }

  lemma One(s: System, step: Step)
    requires Enabled(s, step)
    ensures Possible(s, [step]) && After(s, [step]) == Next(s, step)
  {
    Extend(s, [], step);
    assert [] + [step] == [step];
  }

  lemma LastStep(s: System, run: seq<Step>) returns (init: seq<Step>, last: Step)
    requires run != [] && Possible(s, run)
    ensures run == init + [last] && Possible(s, init) && Enabled(After(s, init), last)
    ensures After(s, run) == Next(After(s, init), last)
  {
    init, last := run[..|run| - 1], run[|run| - 1];
  }

  lemma {:induction false} Join(s: System, run: seq<Step>, more: seq<Step>)
    requires Possible(s, run) && Possible(After(s, run), more)
    ensures Possible(s, run + more) && After(s, run + more) == After(After(s, run), more)
    decreases |more|
  {
    if more == [] {
      assert run + more == run;
    } else {
      var init, last := LastStep(After(s, run), more);
      Join(s, run, init);
      Extend(s, run + init, last);
      assert run + more == (run + init) + [last];
    }
  }

  lemma {:induction false} RunsOn(s: System) returns (more: seq<Step>)
    requires Inv(s) && Servable(s)
    ensures Possible(s, more) && Enabled(After(s, more), AllowRebalance)
    decreases PollsLeft(s), FetchesLeft(s), Unprocessed(s), Sum(Loads(s.workers)), Waits(s)
  {
    if Enabled(s, AllowRebalance) {
      more := [];
    } else {
      var step := Advances(s);
      KeepsInv(s, step);
      more := RunsOn(Next(s, step));
      One(s, step);
      Join(s, [step], more);
      more := [step] + more;
    }
  }

  /** A fetch that has to take the not-found path with records, or already did, closes the way. */
  lemma StepKeepsUnservable(s: System, step: Step)
    requires !Servable(s) && Enabled(s, step)
    ensures !Servable(Next(s, step))
  {
    if s.leaked == 0 {
      var k :| 0 <= k < |s.poller.todo| && !ServableFetch(s, s.poller.todo[k]);
      var t := Next(s, step);
      var f := s.poller.todo[k];
      assert t.poller.Dispatching? && !ServableFetch(t, f) by {
        assert !Found(t, f.partition);
      }
      if step.SkipFailed? || step.Dispatch? || step.DispatchNotFound? {
        if k > 0 {
          assert t.poller.todo[k - 1] == f;
        }
      } else {
        assert t.poller.todo[k] == f;
      }
    }
  }

  lemma {:induction false} RunKeepsUnservable(s: System, more: seq<Step>)
    requires !Servable(s) && Possible(s, more)
    ensures !Servable(After(s, more))
  {
    if more != [] {
      var init, last := LastStep(s, more);
      RunKeepsUnservable(s, more[..|more| - 1]);
      StepKeepsUnservable(After(s, init), last);
    }
  }

  predicate LeadsToBarrier(s: System, more: seq<Step>) {
    Possible(s, more) && Enabled(After(s, more), AllowRebalance)
  }

  /** Main result: from any reachable state the poll loop can get to the barrier and past it iff nothing
      has leaked and every fetch it still holds failed, is empty, or has a consumer. */
  lemma BarrierReachable(single: set<nat>, run: seq<Step>)
    requires Possible(Initial(single), run)
    ensures var s := After(Initial(single), run);
            Servable(s) <==> exists more :: LeadsToBarrier(s, more)
  {
    var start := Initial(single);
    var s := After(start, run);
    Reachable(single, run);
    if Servable(s) {
      var more := RunsOn(s);
      assert LeadsToBarrier(s, more);
    } else {
      forall more | Possible(s, more)
        ensures !LeadsToBarrier(s, more)
      {
        RunKeepsUnservable(s, more);
        Join(start, run, more);
        WaitGroupCounts(single, run + more);
      }
    }
  }
}
