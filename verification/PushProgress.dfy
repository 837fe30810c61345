/** The push pipeline cannot deadlock (notifications/push/sink.go): `accept` and `stop` hold the mutex
    while they send on a bounded channel, and `stop` while it waits for the workers, and still every
    reachable state can run on, without further notifications, to a complete stop. */
module PushProgress {
  import opened Ledgers
  import opened PushSink
  import opened PushPipeline
  import B = PushBatch

  // How far a state is from a complete stop, the coarsest measure first.

  /** A flush in progress ends in a free mutex, a stop in a closed sink, a late call in a free mutex. */
  function Stage(s: System): nat {
    match s.lock
    case Flushing(_) => 5
    case Free => if s.closed then 0 else 4
    case Stopping(_) => 3
    case Joining => 2
    case Inline => 1
  }

  function Engagement(status: Status): nat {
    match status case Unstarted => 2 case Running => 1 case Exited => 0
  }

  function Engagements(status: seq<Status>): seq<nat> {
    seq(|status|, w requires 0 <= w < |status| => Engagement(status[w]))
  }

  function Queue(s: System): nat {
    if s.taken <= |s.sent| then |s.sent| - s.taken else 0
  }

  /** One attempt, giving up, and an answer each are enough to finish a batch. */
  function Effort(job: Job): nat {
    match job
    case NoJob => 0
    case Sending(batch, rounds) => |batch| + if rounds == [] then 3 else 2
    case Answering(todo) => |todo| + 1
  }

  function Efforts(jobs: seq<Job>): seq<nat> {
    seq(|jobs|, k requires 0 <= k < |jobs| => Effort(jobs[k]))
  }

  predicate Same(t: System, s: System, upTo: nat) {
    && (upTo > 0 ==> Stage(t) == Stage(s))
    && (upTo > 1 ==> |Out(t.lock)| == |Out(s.lock)|)
    && (upTo > 2 ==> Sum(Engagements(t.status)) == Sum(Engagements(s.status)))
    && (upTo > 3 ==> Queue(t) == Queue(s))
  }

  predicate Closer(t: System, s: System) {
    || Stage(t) < Stage(s)
    || (Same(t, s, 1) && |Out(t.lock)| < |Out(s.lock)|)
    || (Same(t, s, 2) && Sum(Engagements(t.status)) < Sum(Engagements(s.status)))
    || (Same(t, s, 3) && Queue(t) < Queue(s))
    || (Same(t, s, 4) && Sum(Efforts(t.jobs)) < Sum(Efforts(s.jobs)))
  }

  // From every state that has not come to a complete stop some step leads closer to one.

  lemma EffortChange(jobs: seq<Job>, k: nat, job: Job)
    requires k < |jobs| && Effort(job) < Effort(jobs[k])
    ensures Sum(Efforts(jobs[k := job])) < Sum(Efforts(jobs))
  {
    assert Efforts(jobs[k := job]) == Efforts(jobs)[k := Effort(job)];
    SumUpdate(Efforts(jobs), k, Effort(job));
  }

  lemma EngagementChange(status: seq<Status>, w: nat, changed: Status)
    requires w < |status| && Engagement(changed) < Engagement(status[w])
    ensures Sum(Engagements(status[w := changed])) < Sum(Engagements(status))
  {
    assert Engagements(status[w := changed]) == Engagements(status)[w := Engagement(changed)];
    SumUpdate(Engagements(status), w, Engagement(changed));
  }

  function JobStep(s: System, k: nat): Step
    requires k < |s.jobs|
  {
    match s.jobs[k]
    case Sending(_, rounds) => if rounds == [] then Attempt(k, B.Refused(true)) else GiveUp(k)
    case Answering(todo) => if todo == [] then Finish(k) else Answer(k, 0)
    case NoJob => Finish(k)
  }

  lemma SendingAdvances(s: System, k: nat)
    requires Shape(s) && k < |s.jobs| && s.jobs[k].Sending?
    ensures Enabled(s, JobStep(s, k)) && Closer(Next(s, JobStep(s, k)), s)
  {
    var batch, rounds := s.jobs[k].batch, s.jobs[k].rounds;
    if rounds == [] {
      assert rounds + [B.Refused(true)] == [B.Refused(true)];
      EffortChange(s.jobs, k, Sending(batch, [B.Refused(true)]));
    } else {
      EffortChange(s.jobs, k, Answering(RepliesOf(batch, rounds)));
    }
  }

  lemma AnsweringAdvances(s: System, k: nat)
    requires Shape(s) && k < |s.jobs| && s.jobs[k].Answering? && s.jobs[k].todo != []
    ensures Enabled(s, Answer(k, 0)) && Closer(Next(s, Answer(k, 0)), s)
  {
    var todo := s.jobs[k].todo;
    EffortChange(s.jobs, k, Answering(todo[..0] + todo[1..]));
  }

  lemma FinishingAdvances(s: System, k: nat)
    requires Shape(s) && Closing(s) && k < |s.jobs| && s.jobs[k] == Answering([])
    ensures Enabled(s, Finish(k)) && Closer(Next(s, Finish(k)), s)
  {
    EffortChange(s.jobs, k, NoJob);
  }

  /** A goroutine with a batch can always finish it. */
  lemma JobAdvances(s: System, k: nat)
    requires Shape(s) && Closing(s) && k < |s.jobs| && !s.jobs[k].NoJob?
    ensures Enabled(s, JobStep(s, k)) && Closer(Next(s, JobStep(s, k)), s)
  {
    if s.jobs[k].Sending? {
      SendingAdvances(s, k);
    } else if s.jobs[k].todo != [] {
      AnsweringAdvances(s, k);
    } else {
      FinishingAdvances(s, k);
    }
  }

  /** Someone can take a waiting batch: a worker that runs or, if none does, one that starts. No worker
      has exited while there is one. */
  lemma ChannelAdvances(s: System) returns (step: Step)
    requires Shape(s) && Closing(s) && |s.status| >= 2 && s.taken < |s.sent|
    requires forall k :: 0 <= k < |s.jobs| ==> s.jobs[k].NoJob?
    ensures Enabled(s, step) && !step.BeginAccept? && Closer(Next(s, step), s)
  {
    assert !s.status[1].Exited?;
    if s.status[1].Running? {
      step := TakeBatch(1);
    } else {
      step := StartWorker(1);
      EngagementChange(s.status, 1, Running);
    }
  }

  lemma RunningOne(s: System) returns (w: nat)
    requires Shape(s) && s.wg != 0
    ensures 0 < w < |s.status| && s.status[w].Running?
  {
    SumZero(Weights(s.status));
    w :| w < |s.status| && Weights(s.status)[w] != 0;
  }

  /** With every batch taken and finished, whoever holds the mutex goes on, and if nobody does, a stop
      can begin. */
  lemma LockAdvances(s: System) returns (step: Step)
    requires Shape(s) && Closing(s) && s.capacity > 0 && s.taken == |s.sent|
    requires forall k :: 0 <= k < |s.jobs| ==> s.jobs[k].NoJob?
    requires !(s.lock.Free? && s.closed)
    ensures Enabled(s, step) && !step.BeginAccept? && Closer(Next(s, step), s)
  {
    if Out(s.lock) != [] {
      step := SendBatch;
    } else if s.lock.Flushing? {
      step := EndAccept;
    } else if s.lock.Stopping? {
      step := CloseChannel;
    } else if s.lock.Free? {
      step := BeginStop(0);
    } else if s.wg == 0 {
      step := EndStop;
    } else {
      var w := RunningOne(s);
      step := ExitWorker(w);
      EngagementChange(s.status, w, Exited);
    }
  }

  lemma Advances(s: System) returns (step: Step)
    requires Shape(s) && Closing(s) && s.capacity > 0 && |s.status| >= 2 && !Quiescent(s)
    ensures Enabled(s, step) && !step.BeginAccept? && Closer(Next(s, step), s)
  {
    if k :| 0 <= k < |s.jobs| && !s.jobs[k].NoJob? {
      step := JobStep(s, k);
      JobAdvances(s, k);
    } else if s.taken < |s.sent| {
      step := ChannelAdvances(s);
    } else {
      step := LockAdvances(s);
    }
  }

  // Runs.

  lemma One(s: System, step: Step)
    requires Enabled(s, step)
    ensures Possible(s, [step]) && After(s, [step]) == Next(s, step)
  {
    Extend(s, [], step);
    assert [] + [step] == [step];
  }

  lemma LastStep(s: System, run: seq<Step>) returns (init: seq<Step>, last: Step)
    requires run != [] && Possible(s, run)
    ensures run == init + [last] && Possible(s, init) && Enabled(After(s, init), last)
    ensures After(s, run) == Next(After(s, init), last)
  {
    init, last := run[..|run| - 1], run[|run| - 1];
  }

  lemma {:induction false} Join(s: System, run: seq<Step>, more: seq<Step>)
    requires Possible(s, run) && Possible(After(s, run), more)
    ensures Possible(s, run + more) && After(s, run + more) == After(After(s, run), more)
    decreases |more|
  {
    if more == [] {
      assert run + more == run;
    } else {
      var init, last := LastStep(After(s, run), more);
      Join(s, run, init);
      Extend(s, run + init, last);
      assert run + more == (run + init) + [last];
    }
  }

  predicate NothingNew(run: seq<Step>) {
    forall k :: 0 <= k < |run| ==> !run[k].BeginAccept?
  }

  lemma StepKeepsFrame(s: System, step: Step)
    requires Enabled(s, step)
    ensures Next(s, step).capacity == s.capacity && |Next(s, step).status| == |s.status|
  {
  }

  lemma {:induction false} RunKeepsFrame(s: System, run: seq<Step>)
    requires Possible(s, run)
    ensures After(s, run).capacity == s.capacity && |After(s, run).status| == |s.status|
  {
    if run != [] {
      var init, last := LastStep(s, run);
      RunKeepsFrame(s, run[..|run| - 1]);
      StepKeepsFrame(After(s, init), last);
    }
  }

  lemma {:induction false} RunsOn(s: System) returns (more: seq<Step>)
    requires Inv(s) && s.capacity > 0 && |s.status| >= 2
    ensures NothingNew(more) && Possible(s, more) && Quiescent(After(s, more))
    decreases Stage(s), |Out(s.lock)|, Sum(Engagements(s.status)), Queue(s), Sum(Efforts(s.jobs))
  {
    if Quiescent(s) {
      more := [];
    } else {
      var step := Advances(s);
      KeepsInvariant(s, step);
      StepKeepsFrame(s, step);
      more := RunsOn(Next(s, step));
      One(s, step);
      Join(s, [step], more);
      more := [step] + more;
    }
  }

  /** Main result, no deadlock: with at least one worker and a channel that holds a batch, whatever has
      happened, the pipeline can run on without further notifications until it is closed, nothing is in
      process, and every notification ever accepted has been answered exactly once. */
  lemma CanAlwaysStop(workers: nat, capacity: nat, run: seq<Step>) returns (more: seq<Step>)
    requires workers > 0 && capacity > 0 && Possible(Initial(workers, capacity), run)
    ensures NothingNew(more) && Possible(After(Initial(workers, capacity), run), more)
    ensures var e := After(After(Initial(workers, capacity), run), more); Quiescent(e) && AllAnswered(e)
  {
    var start := Initial(workers, capacity);
    Reachable(workers, capacity, run);
    RunKeepsFrame(start, run);
    more := RunsOn(After(start, run));
    Join(start, run, more);
    AnsweredExactlyOnce(workers, capacity, run + more);
  }

  // Without workers.

  lemma {:induction false} NobodyTakes(capacity: nat, run: seq<Step>)
    requires Possible(Initial(0, capacity), run) && run != [] && run[0] == BeginAccept(true, 0)
    ensures var s := After(Initial(0, capacity), run);
            s.taken == 0 && |s.status| == 1 && s.issued > 0 && s.queued != [] && s.queued[0] == Item(0, 0)
  {
    var init, last := LastStep(Initial(0, capacity), run);
    if init == [] {
      assert After(Initial(0, capacity), init) == Initial(0, capacity) && last == run[0];
    } else {
      assert init == run[..|run| - 1] && init[0] == run[0];
      NobodyTakes(capacity, init);
    }
  }

  /** The worker is needed: without one, a notification accepted first of all is never answered. */
  lemma NeverAnsweredWithoutWorkers(capacity: nat, run: seq<Step>)
    requires Possible(Initial(0, capacity), run) && run != [] && run[0] == BeginAccept(true, 0)
    ensures !AllAnswered(After(Initial(0, capacity), run))
  {
    var s := After(Initial(0, capacity), run);
    NobodyTakes(capacity, run);
    Reachable(0, capacity, run);
    assert s.sent[0..] == s.sent;
    assert Ids(Waiting(s))[0] == 0;
    OccursMember(Ids(Waiting(s)), 0);
    assert Places(s, 0) == 1;
  }
}
