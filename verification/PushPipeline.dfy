/** The whole push pipeline as a state machine over all interleavings of `accept`, ticks, `stop`,
    and the workers (notifications/push/sink.go, notifications/push/batch.go). One step is one action that another
    goroutine can observe: taking the mutex, a channel operation, a wait-group operation, one
    `SendAll` attempt, one answer. */
module PushPipeline {
  import opened Wrappers
  import opened Ledgers
  import opened PushSink
  import B = PushBatch

  datatype Reply = Reply(id: nat, err: Option<B.SendError>)

  /** What a goroutine inside `notificationBatch.process` is doing. */
  datatype Job = NoJob | Sending(batch: Batch, rounds: seq<B.Round>) | Answering(todo: seq<Reply>)

  datatype Status = Unstarted | Running | Exited

  /** Who holds the mutex: `accept` with batches still to send, `stop` likewise or waiting for the
      workers, or `accept` on a closed sink processing one notification itself. */
  datatype Lock = Free | Flushing(out: seq<Batch>) | Stopping(out: seq<Batch>) | Joining | Inline

  /** `jobs[0]` belongs to the lock holder, `jobs[w]` to worker `w`. `heard` is FCM's own record: every
      reply it gave for a notification, in order. */
  datatype System = System(
    capacity: nat,
    sink: State,
    closed: bool,
    lock: Lock,
    channelClosed: bool,
    sent: seq<Batch>,
    taken: nat,
    status: seq<Status>,
    jobs: seq<Job>,
    wg: int,
    queued: Batch,
    issued: nat,
    heard: map<nat, seq<B.Response>>,
    answers: seq<Reply>
  )

  datatype Step =
    | BeginAccept(incoming: bool, now: int)
    | SendBatch
    | EndAccept
    | BeginStop(now: int)
    | CloseChannel
    | EndStop
    | StartWorker(w: nat)
    | TakeBatch(w: nat)
    | ExitWorker(w: nat)
    | Attempt(k: nat, round: B.Round)
    | GiveUp(k: nat)
    | Answer(k: nat, j: nat)
    | Finish(k: nat)

  function Initial(workers: nat, capacity: nat): System {
    System(capacity, State([], None), false, Free, false, [], 0,
           seq(workers + 1, _ => Unstarted), seq(workers + 1, _ => NoJob), 0, [], 0, map[], [])
  }

  function Out(lock: Lock): seq<Batch> {
    if lock.Flushing? || lock.Stopping? then lock.out else []
  }

  predicate Enabled(s: System, step: Step) {
    match step
    case BeginAccept(_, _) => s.lock.Free?
    case SendBatch => Out(s.lock) != [] && |s.sent| - s.taken < s.capacity
    case EndAccept => s.lock == Flushing([])
    case BeginStop(_) => s.lock.Free?
    case CloseChannel => s.lock == Stopping([])
    case EndStop => s.lock.Joining? && s.wg == 0
    case StartWorker(w) => 0 < w < |s.status| && s.status[w].Unstarted?
    case TakeBatch(w) => IdleWorker(s, w) && s.taken < |s.sent|
    case ExitWorker(w) => IdleWorker(s, w) && s.channelClosed && s.taken == |s.sent|
    case Attempt(k, round) =>
      k < |s.jobs| && s.jobs[k].Sending? && !B.Over(s.jobs[k].rounds, |s.jobs[k].batch|) &&
      B.WellFormed([round], |s.jobs[k].batch|)
    case GiveUp(k) => k < |s.jobs| && s.jobs[k].Sending? && s.jobs[k].rounds != []
    case Answer(k, j) => k < |s.jobs| && s.jobs[k].Answering? && j < |s.jobs[k].todo|
    case Finish(k) => k < |s.jobs| && s.jobs[k] == Answering([])
  }

  predicate IdleWorker(s: System, w: nat) {
    0 < w < |s.status| && s.status[w].Running? && w < |s.jobs| && s.jobs[w].NoJob?
  }

  /** The notifications of `batch` that are among the messages of the next attempt. */
  predicate Asked(batch: Batch, rounds: seq<B.Round>, replies: seq<B.Response>, i: nat) {
    i < |batch| && i < |replies| && !B.Terminal(B.VerdictOf(rounds, i))
  }

  function Told(heard: map<nat, seq<B.Response>>, id: nat): seq<B.Response> {
    if id in heard then heard[id] else []
  }

  /** FCM's record after it has replied to the first `k` notifications of `batch`, as far as it was
      asked for them. */
  function Hear(heard: map<nat, seq<B.Response>>, batch: Batch, rounds: seq<B.Round>, replies: seq<B.Response>, k: nat)
    : map<nat, seq<B.Response>>
    requires k <= |batch|
  {
    if k == 0 then heard else
    var before := Hear(heard, batch, rounds, replies, k - 1);
    if Asked(batch, rounds, replies, k - 1)
    then before[batch[k - 1].id := Told(before, batch[k - 1].id) + [replies[k - 1]]]
    else before
  }

  function RepliesOf(batch: Batch, rounds: seq<B.Round>): seq<Reply> {
    seq(|batch|, i requires 0 <= i < |batch| => Reply(batch[i].id, B.AnswerOf(rounds, i)))
  }

  function Next(s: System, step: Step): System
    requires Enabled(s, step)
  {
    match step
    case BeginAccept(incoming, now) => AfterAccept(s, incoming, now)
    case SendBatch =>
      var rest := s.lock.out[1..];
      s.(sent := s.sent + [s.lock.out[0]], lock := if s.lock.Flushing? then Flushing(rest) else Stopping(rest))
    case EndAccept => s.(lock := Free)
    case BeginStop(now) =>
      if s.closed then s else
      s.(lock := Stopping(Drain(s.sink.buffer)),
      sink := State([], if s.sink.buffer == [] then s.sink.resetAt else Some(now)))
    case CloseChannel => s.(channelClosed := true, lock := Joining)
    case EndStop => s.(closed := true, lock := Free)
    case StartWorker(w) => s.(status := s.status[w := Running], wg := s.wg + 1)
    case TakeBatch(w) => s.(jobs := s.jobs[w := Sending(s.sent[s.taken], [])], taken := s.taken + 1)
    case ExitWorker(w) => s.(status := s.status[w := Exited], wg := s.wg - 1)
    case Attempt(k, round) =>
      var job := s.jobs[k];
      s.(jobs := s.jobs[k := Sending(job.batch, job.rounds + [round])],
      heard := if round.Refused? then s.heard
      else Hear(s.heard, job.batch, job.rounds, round.replies, |job.batch|))
    case GiveUp(k) => s.(jobs := s.jobs[k := Answering(RepliesOf(s.jobs[k].batch, s.jobs[k].rounds))])
    case Answer(k, j) =>
      var todo := s.jobs[k].todo;
      s.(jobs := s.jobs[k := Answering(todo[..j] + todo[j + 1..])], answers := s.answers + [todo[j]])
    case Finish(k) => s.(jobs := s.jobs[k := NoJob], lock := if k == 0 then Free else s.lock)
  }

  function AfterAccept(s: System, incoming: bool, now: int): System {
    var item := Item(s.issued, now);
    if s.closed then
      if incoming && 0 < |s.jobs| then
        s.(lock := Inline, jobs := s.jobs[0 := Sending([item], [])], issued := s.issued + 1)
      else s
    else
      var (t, out) := AcceptStep(s.sink, if incoming then Some(item) else None, now);
      s.(sink := t, lock := Flushing(out),
      queued := if incoming then s.queued + [item] else s.queued,
      issued := if incoming then s.issued + 1 else s.issued)
  }

  predicate Possible(s: System, run: seq<Step>)
    decreases |run|, 0
  {
    run == [] || (Possible(s, run[..|run| - 1]) && Enabled(After(s, run[..|run| - 1]), run[|run| - 1]))
  }

  function After(s: System, run: seq<Step>): System
    requires Possible(s, run)
    decreases |run|, 1
  {
    if run == [] then s else Next(After(s, run[..|run| - 1]), run[|run| - 1])
  }

  // Where the notifications are.

  function Ids(b: Batch): seq<nat> {
    seq(|b|, i requires 0 <= i < |b| => b[i].id)
  }

  function ReplyIds(rs: seq<Reply>): seq<nat> {
    seq(|rs|, i requires 0 <= i < |rs| => rs[i].id)
  }

  /** The notifications a goroutine still has to answer. */
  function Held(job: Job): seq<nat> {
    match job
    case NoJob => []
    case Sending(batch, _) => Ids(batch)
    case Answering(todo) => ReplyIds(todo)
  }

  function Shares(jobs: seq<Job>, id: nat): seq<nat> {
    seq(|jobs|, k requires 0 <= k < |jobs| => Occurrences(Held(jobs[k]), id))
  }

  function Channel(s: System): seq<Batch> {
    if s.taken <= |s.sent| then s.sent[s.taken..] else []
  }

  /** Accepted and not yet taken by anyone: in the channel, in the hands of a sender, in the buffer. */
  function Waiting(s: System): Batch {
    Flatten(Channel(s)) + Flatten(Out(s.lock)) + s.sink.buffer
  }

  /** How many places notification `id` is in: waiting, in process, answered. */
  function Places(s: System, id: nat): nat {
    Occurrences(Ids(Waiting(s)), id) + Sum(Shares(s.jobs, id)) + Occurrences(ReplyIds(s.answers), id)
  }

  // The invariant.

  function Weight(status: Status): nat {
    if status.Running? then 1 else 0
  }

  function Weights(status: seq<Status>): seq<nat> {
    seq(|status|, w requires 0 <= w < |status| => Weight(status[w]))
  }

  predicate GoodBatch(b: Batch) {
    1 <= |b| <= BATCH_SIZE
  }

  ghost predicate Shape(s: System) {
    && |s.jobs| == |s.status| > 0
    && s.status[0].Unstarted?
    && (s.lock.Inline? <==> !s.jobs[0].NoJob?)
    && (forall w :: 0 < w < |s.jobs| && !s.jobs[w].NoJob? ==> s.status[w].Running?)
    && s.taken <= |s.sent|
    && s.wg == Sum(Weights(s.status))
    && |s.sink.buffer| < BATCH_SIZE
    && (forall b :: b in s.sent || b in Out(s.lock) ==> GoodBatch(b))
    && (forall k :: 0 <= k < |s.jobs| && s.jobs[k].Sending? ==>
                      GoodBatch(s.jobs[k].batch) && B.WellFormed(s.jobs[k].rounds, |s.jobs[k].batch|))
  }

  ghost predicate Closing(s: System) {
    && (s.channelClosed <==> s.lock.Joining? || s.closed)
    && (s.closed ==> s.lock.Free? || s.lock.Inline?)
    && (s.lock.Inline? ==> s.closed)
    && (s.channelClosed || s.lock.Stopping? ==> s.sink.buffer == [])
    && (forall w :: 0 <= w < |s.status| && s.status[w].Exited? ==> s.channelClosed && s.taken == |s.sent|)
    && (!s.closed ==> |s.queued| == s.issued)
    && (!s.closed && (forall w :: 0 <= w < |s.status| ==> s.status[w].Unstarted?) ==> s.taken == 0 && s.answers == [])
  }

  /** What was put on the channel, what is being put there and what is buffered are the
      notifications in the order they were accepted. */
  ghost predicate InOrder(s: System) {
    Flatten(s.sent) + Flatten(Out(s.lock)) + s.sink.buffer == s.queued
  }

  /** Every accepted notification is in exactly one place. */
  ghost predicate Conserved(s: System) {
    forall id: nat :: Places(s, id) == if id < s.issued then 1 else 0
  }

  ghost predicate HonestJob(job: Job, heard: map<nat, seq<B.Response>>) {
    match job
    case NoJob => true
    case Sending(batch, rounds) =>
      forall i :: 0 <= i < |batch| ==> Told(heard, batch[i].id) == B.RepliesTo(rounds, i)
    case Answering(todo) => HonestReplies(todo, heard)
  }

  ghost predicate HonestReplies(rs: seq<Reply>, heard: map<nat, seq<B.Response>>) {
    forall r :: r in rs ==> B.TrueTo(Told(heard, r.id), r.err)
  }

  /** Answers agree with FCM's record, and what still waits FCM has not been asked about. */
  ghost predicate Honest(s: System) {
    && (forall id :: id in s.heard ==> id < s.issued && id !in Ids(Waiting(s)))
    && (forall k :: 0 <= k < |s.jobs| ==> HonestJob(s.jobs[k], s.heard))
    && HonestReplies(s.answers, s.heard)
  }

  ghost predicate Inv(s: System) {
    Shape(s) && Closing(s) && InOrder(s) && Conserved(s) && Honest(s)
  }

  // Each part of the invariant is kept by every step.

  lemma Regroup(ahead: Batch, out: Batch, rest: Batch, buffer: Batch, added: Batch)
    requires out + rest == buffer + added
    ensures ahead + out + rest == ahead + [] + buffer + added
  {
    assert ahead + out + rest == ahead + (out + rest);
    assert ahead + [] + buffer + added == ahead + (buffer + added);
  }

  lemma AcceptKeepsOrder(s: System, incoming: bool, now: int)
    requires |s.sink.buffer| < BATCH_SIZE && InOrder(s) && s.lock.Free?
    ensures InOrder(AfterAccept(s, incoming, now))
  {
    if !s.closed {
      var item := if incoming then Some(Item(s.issued, now)) else None;
      var (t, out) := AcceptStep(s.sink, item, now);
      AcceptProperties(s.sink, item, now);
      Regroup(Flatten(s.sent), Flatten(out), t.buffer, s.sink.buffer, if incoming then [item.value] else []);
    }
  }

  lemma AcceptKeepsShape(s: System, incoming: bool, now: int)
    requires Shape(s) && s.lock.Free?
    ensures Shape(AfterAccept(s, incoming, now))
  {
    if !s.closed {
      AcceptProperties(s.sink, if incoming then Some(Item(s.issued, now)) else None, now);
    }
  }

  lemma SendKeepsShapeAndOrder(s: System)
    requires Shape(s) && InOrder(s) && Enabled(s, SendBatch)
    ensures Shape(Next(s, SendBatch)) && InOrder(Next(s, SendBatch))
  {
    assert s.lock.out[0] in Out(s.lock);
    SendMoves(s.sent, s.lock.out, s.sink.buffer);
  }

  lemma StopKeepsShapeAndOrder(s: System, now: int)
    requires Shape(s) && Closing(s) && InOrder(s) && s.lock.Free?
    ensures Shape(Next(s, BeginStop(now))) && InOrder(Next(s, BeginStop(now)))
  {
    DrainProperties(s.sink.buffer);
  }

  lemma TakeKeepsShape(s: System, w: nat)
    requires Shape(s) && Enabled(s, TakeBatch(w))
    ensures Shape(Next(s, TakeBatch(w)))
  {
    assert s.sent[s.taken] in s.sent;
  }

  lemma RegisteringKeepsShape(s: System, step: Step)
    requires Shape(s) && Closing(s) && Enabled(s, step) && (step.StartWorker? || step.ExitWorker?)
    ensures Shape(Next(s, step))
  {
    var t := Next(s, step);
    var w := step.w;
    assert Weights(t.status) == Weights(s.status)[w := Weight(t.status[w])];
    SumUpdate(Weights(s.status), w, Weight(t.status[w]));
  }

  lemma LockingKeepsShapeAndOrder(s: System, step: Step)
    requires Shape(s) && Closing(s) && InOrder(s) && Enabled(s, step)
    requires step.EndAccept? || step.CloseChannel? || step.EndStop?
    ensures Shape(Next(s, step)) && InOrder(Next(s, step))
  {
  }

  lemma AttemptKeepsShape(s: System, k: nat, round: B.Round)
    requires Shape(s) && Enabled(s, Attempt(k, round))
    ensures Shape(Next(s, Attempt(k, round)))
  {
    assert [round][0] == round;
  }

  lemma AnsweringKeepsShape(s: System, step: Step)
    requires Shape(s) && Enabled(s, step) && (step.GiveUp? || step.Answer? || step.Finish?)
    ensures Shape(Next(s, step))
  {
  }

  lemma KeepsShapeAndOrder(s: System, step: Step)
    requires Shape(s) && Closing(s) && InOrder(s) && Enabled(s, step)
    ensures Shape(Next(s, step)) && InOrder(Next(s, step))
  {
    match step {
      case BeginAccept(incoming, now) => AcceptKeepsOrder(s, incoming, now); AcceptKeepsShape(s, incoming, now);
      case SendBatch => SendKeepsShapeAndOrder(s);
      case BeginStop(now) => StopKeepsShapeAndOrder(s, now);
      case StartWorker(_) => RegisteringKeepsShape(s, step);
      case ExitWorker(_) => RegisteringKeepsShape(s, step);
      case TakeBatch(w) => TakeKeepsShape(s, w);
      case Attempt(k, round) => AttemptKeepsShape(s, k, round);
      case GiveUp(_) => AnsweringKeepsShape(s, step);
      case Answer(_, _) => AnsweringKeepsShape(s, step);
      case Finish(_) => AnsweringKeepsShape(s, step);
      case _ => LockingKeepsShapeAndOrder(s, step);
    }
  }

  lemma KeepsClosing(s: System, step: Step)
    requires Inv(s) && Enabled(s, step)
    ensures Closing(Next(s, step))
  {
    var t := Next(s, step);
    if step.TakeBatch? || step.StartWorker? || step.ExitWorker? {
      var w := step.w;
      assert !t.status[w].Unstarted?;
    } else if step.Answer? && !s.closed {
      assert step.k != 0;
      assert !t.status[step.k].Unstarted?;
    }
  }

  // Conservation.

  lemma JobChange(jobs: seq<Job>, k: nat, job: Job, id: nat)
    requires k < |jobs|
    ensures Sum(Shares(jobs[k := job], id)) + Occurrences(Held(jobs[k]), id) ==
            Sum(Shares(jobs, id)) + Occurrences(Held(job), id)
  {
    var share := Occurrences(Held(job), id);
    assert Shares(jobs[k := job], id) == Shares(jobs, id)[k := share];
    SumUpdate(Shares(jobs, id), k, share);
  }

  /** Accepting appends to what waits; sending and stopping only move it; a worker takes the front. */
  lemma AcceptWaits(s: System, incoming: bool, now: int)
    requires |s.sink.buffer| < BATCH_SIZE && s.lock.Free? && !s.closed
    ensures Waiting(AfterAccept(s, incoming, now)) == Waiting(s) + if incoming then [Item(s.issued, now)] else []
  {
    var item := if incoming then Some(Item(s.issued, now)) else None;
    var (t, out) := AcceptStep(s.sink, item, now);
    AcceptProperties(s.sink, item, now);
    Regroup(Flatten(Channel(s)), Flatten(out), t.buffer, s.sink.buffer, if incoming then [item.value] else []);
  }

  lemma SendMoves(channel: seq<Batch>, out: seq<Batch>, buffer: Batch)
    requires out != []
    ensures Flatten(channel + [out[0]]) + Flatten(out[1..]) + buffer == Flatten(channel) + Flatten(out) + buffer
  {
    FlattenAppend(channel, [out[0]]);
    FlattenOne(out[0]);
    assert (Flatten(channel) + out[0]) + Flatten(out[1..]) == Flatten(channel) + (out[0] + Flatten(out[1..]));
  }

  lemma SendWaits(s: System)
    requires s.taken <= |s.sent| && Enabled(s, SendBatch)
    ensures Waiting(Next(s, SendBatch)) == Waiting(s)
  {
    assert (s.sent + [s.lock.out[0]])[s.taken..] == s.sent[s.taken..] + [s.lock.out[0]];
    SendMoves(s.sent[s.taken..], s.lock.out, s.sink.buffer);
  }

  lemma StopWaits(s: System, now: int)
    requires |s.sink.buffer| < BATCH_SIZE && s.lock.Free?
    ensures Waiting(Next(s, BeginStop(now))) == Waiting(s)
  {
    DrainProperties(s.sink.buffer);
    DrainMoves(Flatten(Channel(s)), s.sink.buffer);
  }

  lemma DrainMoves(ahead: Batch, buffer: Batch)
    ensures ahead + [] + buffer == ahead + buffer + []
  {
  }

  lemma TakeWaits(s: System, w: nat)
    requires s.taken <= |s.sent| && Enabled(s, TakeBatch(w))
    ensures s.sent[s.taken] + Waiting(Next(s, TakeBatch(w))) == Waiting(s)
  {
    var t := Next(s, TakeBatch(w));
    assert Channel(s)[0] == s.sent[s.taken] && Channel(s)[1..] == Channel(t);
  }

  lemma AcceptConserves(s: System, incoming: bool, now: int, id: nat)
    requires Shape(s) && s.lock.Free?
    ensures var t := AfterAccept(s, incoming, now);
            Places(t, id) == Places(s, id) + if t.issued > s.issued && id == s.issued then 1 else 0
  {
    var item := Item(s.issued, now);
    assert Ids([item]) == [s.issued];
    if s.closed && incoming {
      JobChange(s.jobs, 0, Sending([item], []), id);
    } else if !s.closed {
      AcceptWaits(s, incoming, now);
      if incoming {
        assert Ids(Waiting(s) + [item]) == Ids(Waiting(s)) + [s.issued];
        OccursAppend(Ids(Waiting(s)), [s.issued], id);
      } else {
        assert Waiting(s) + [] == Waiting(s);
      }
    }
  }

  lemma IdsSplit(front: Batch, rest: Batch, id: nat)
    ensures Occurrences(Ids(front + rest), id) == Occurrences(Ids(front), id) + Occurrences(Ids(rest), id)
  {
    IdsAppend(front, rest);
    OccursAppend(Ids(front), Ids(rest), id);
  }

  lemma TakeConserves(s: System, w: nat, id: nat)
    requires |s.jobs| == |s.status| && s.taken <= |s.sent| && Enabled(s, TakeBatch(w))
    ensures Places(Next(s, TakeBatch(w)), id) == Places(s, id)
  {
    var batch := s.sent[s.taken];
    TakeWaits(s, w);
    IdsSplit(batch, Waiting(Next(s, TakeBatch(w))), id);
    JobChange(s.jobs, w, Sending(batch, []), id);
  }

  lemma ReplyTaken(todo: seq<Reply>, j: nat, id: nat)
    requires j < |todo|
    ensures Occurrences(ReplyIds(todo), id) ==
            Occurrences(ReplyIds(todo[..j] + todo[j + 1..]), id) + if todo[j].id == id then 1 else 0
  {
    assert ReplyIds(todo[..j] + todo[j + 1..]) == ReplyIds(todo)[..j] + ReplyIds(todo)[j + 1..];
    OccursRemove(ReplyIds(todo), j, id);
  }

  lemma ReplyAdded(answers: seq<Reply>, reply: Reply, id: nat)
    ensures Occurrences(ReplyIds(answers + [reply]), id) ==
            Occurrences(ReplyIds(answers), id) + if reply.id == id then 1 else 0
  {
    assert ReplyIds(answers + [reply]) == ReplyIds(answers) + [reply.id];
    OccursAppend(ReplyIds(answers), [reply.id], id);
    assert [reply.id][1..] == [];
  }

  lemma AnswerConserves(s: System, k: nat, j: nat, id: nat)
    requires Enabled(s, Answer(k, j))
    ensures Places(Next(s, Answer(k, j)), id) == Places(s, id)
  {
    var todo := s.jobs[k].todo;
    var rest := todo[..j] + todo[j + 1..];
    ReplyTaken(todo, j, id);
    JobChange(s.jobs, k, Answering(rest), id);
    ReplyAdded(s.answers, todo[j], id);
  }

  lemma JobConserves(s: System, step: Step, id: nat)
    requires Shape(s) && Enabled(s, step) && (step.Attempt? || step.GiveUp? || step.Finish?)
    ensures Places(Next(s, step), id) == Places(s, id)
  {
    var t := Next(s, step);
    var k := step.k;
    if step.GiveUp? {
      assert ReplyIds(t.jobs[k].todo) == Ids(s.jobs[k].batch);
    }
    JobChange(s.jobs, k, t.jobs[k], id);
    assert Waiting(t) == Waiting(s);
  }

  lemma KeepsConserved(s: System, step: Step)
    requires Shape(s) && Conserved(s) && Enabled(s, step)
    ensures Conserved(Next(s, step))
  {
    var t := Next(s, step);
    forall id: nat
      ensures Places(t, id) == if id < t.issued then 1 else 0
    {
      assert Places(s, id) == if id < s.issued then 1 else 0;
      match step {
        case BeginAccept(incoming, now) => AcceptConserves(s, incoming, now, id);
        case SendBatch => SendWaits(s);
        case BeginStop(now) => StopWaits(s, now);
        case TakeBatch(w) => TakeConserves(s, w, id);
        case Attempt(_, _) => JobConserves(s, step, id);
        case GiveUp(_) => JobConserves(s, step, id);
        case Finish(_) => JobConserves(s, step, id);
        case Answer(k, j) => AnswerConserves(s, k, j, id);
        case _ =>
      }
    }
  }

  // Honesty.

  /** A notification in process with one goroutine is with no other, not waiting and not answered. */
  lemma Alone(s: System, k: nat, id: nat)
    requires Conserved(s) && k < |s.jobs| && id in Held(s.jobs[k])
    ensures id < s.issued && Occurrences(Held(s.jobs[k]), id) == 1
    ensures id !in Ids(Waiting(s)) && id !in ReplyIds(s.answers)
    ensures forall m :: 0 <= m < |s.jobs| && m != k ==> id !in Held(s.jobs[m])
  {
    assert Places(s, id) == if id < s.issued then 1 else 0;
    var shares := Shares(s.jobs, id);
    OccursMember(Held(s.jobs[k]), id);
    SumPart(shares, k);
    OccursMember(Ids(Waiting(s)), id);
    OccursMember(ReplyIds(s.answers), id);
    forall m | 0 <= m < |s.jobs| && m != k
      ensures id !in Held(s.jobs[m])
    {
      SumPair(shares, k, m);
      OccursMember(Held(s.jobs[m]), id);
    }
  }

  /** In a batch in process every notification occurs once. */
  lemma SameSlot(s: System, k: nat, i: nat, j: nat)
    requires Conserved(s) && k < |s.jobs| && s.jobs[k].Sending?
    requires i < |s.jobs[k].batch| && j < |s.jobs[k].batch| && s.jobs[k].batch[i].id == s.jobs[k].batch[j].id
    ensures i == j
  {
    var ids := Ids(s.jobs[k].batch);
    assert ids[i] == ids[j];
    Alone(s, k, ids[i]);
    OccursOnce(ids, i, j);
  }

  lemma {:induction false} HearOthers(heard: map<nat, seq<B.Response>>, batch: Batch, rounds: seq<B.Round>,
                                      replies: seq<B.Response>, k: nat, id: nat)
    requires k <= |batch| && forall i :: 0 <= i < k ==> batch[i].id != id
    ensures Told(Hear(heard, batch, rounds, replies, k), id) == Told(heard, id)
    ensures id in Hear(heard, batch, rounds, replies, k) <==> id in heard
  {
    if k > 0 {
      HearOthers(heard, batch, rounds, replies, k - 1, id);
    }
  }

  /** The record of a notification that is in the batch once grows by its own reply. */
  lemma {:induction false} HearOwn(heard: map<nat, seq<B.Response>>, batch: Batch, rounds: seq<B.Round>,
                                   replies: seq<B.Response>, k: nat, i: nat)
    requires i < k <= |batch| && forall j :: 0 <= j < k && j != i ==> batch[j].id != batch[i].id
    ensures Told(Hear(heard, batch, rounds, replies, k), batch[i].id) ==
            Told(heard, batch[i].id) + if Asked(batch, rounds, replies, i) then [replies[i]] else []
  {
    if i == k - 1 {
      HearOthers(heard, batch, rounds, replies, k - 1, batch[i].id);
      assert Told(heard, batch[i].id) + [] == Told(heard, batch[i].id);
    } else {
      HearOwn(heard, batch, rounds, replies, k - 1, i);
    }
  }

  lemma AttemptOwnSlot(s: System, k: nat, round: B.Round, i: nat)
    requires Conserved(s) && Enabled(s, Attempt(k, round)) && round.Answered? && i < |s.jobs[k].batch|
    requires Told(s.heard, s.jobs[k].batch[i].id) == B.RepliesTo(s.jobs[k].rounds, i)
    ensures Told(Next(s, Attempt(k, round)).heard, s.jobs[k].batch[i].id) ==
            B.RepliesTo(s.jobs[k].rounds, i) +
            if Asked(s.jobs[k].batch, s.jobs[k].rounds, round.replies, i) then [round.replies[i]] else []
  {
    var batch := s.jobs[k].batch;
    forall j | 0 <= j < |batch| && j != i
      ensures batch[j].id != batch[i].id
    {
      if batch[j].id == batch[i].id {
        SameSlot(s, k, i, j);
      }
    }
    HearOwn(s.heard, batch, s.jobs[k].rounds, round.replies, |batch|, i);
  }

  lemma OneMoreReply(rounds: seq<B.Round>, round: B.Round, i: nat)
    ensures B.RepliesTo(rounds + [round], i) ==
            B.RepliesTo(rounds, i) +
            if round.Refused? || B.Terminal(B.VerdictOf(rounds, i)) || i >= |round.replies| then []
            else [round.replies[i]]
  {
    assert (rounds + [round])[..|rounds|] == rounds;
  }

  /** The attempting goroutine's own view stays in step with FCM's record. */
  lemma AttemptOwnJob(s: System, k: nat, round: B.Round)
    requires Conserved(s) && Enabled(s, Attempt(k, round)) && HonestJob(s.jobs[k], s.heard)
    ensures var t := Next(s, Attempt(k, round)); HonestJob(t.jobs[k], t.heard)
  {
    var batch, rounds := s.jobs[k].batch, s.jobs[k].rounds;
    forall i | 0 <= i < |batch|
      ensures Told(Next(s, Attempt(k, round)).heard, batch[i].id) == B.RepliesTo(rounds + [round], i)
    {
      OneMoreReply(rounds, round, i);
      if round.Answered? {
        AttemptOwnSlot(s, k, round, i);
      } else {
        assert B.RepliesTo(rounds, i) + [] == B.RepliesTo(rounds, i);
      }
    }
  }

  /** What a goroutine does not hold, its attempts leave FCM's record of as it was. */
  lemma AttemptLeavesOthers(s: System, k: nat, round: B.Round, id: nat)
    requires Enabled(s, Attempt(k, round)) && id !in Held(s.jobs[k])
    ensures var t := Next(s, Attempt(k, round));
            Told(t.heard, id) == Told(s.heard, id) && (id in t.heard <==> id in s.heard)
  {
    var batch := s.jobs[k].batch;
    forall i | 0 <= i < |batch|
      ensures batch[i].id != id
    {
      assert Ids(batch)[i] == batch[i].id;
    }
    if round.Answered? {
      HearOthers(s.heard, batch, s.jobs[k].rounds, round.replies, |batch|, id);
    }
  }

  lemma AttemptOtherJob(s: System, k: nat, round: B.Round, m: nat)
    requires Conserved(s) && Enabled(s, Attempt(k, round)) && m < |s.jobs| && m != k && HonestJob(s.jobs[m], s.heard)
    ensures HonestJob(s.jobs[m], Next(s, Attempt(k, round)).heard)
  {
    forall id | id in Held(s.jobs[m])
      ensures Told(Next(s, Attempt(k, round)).heard, id) == Told(s.heard, id)
    {
      Alone(s, m, id);
      AttemptLeavesOthers(s, k, round, id);
    }
    if s.jobs[m].Sending? {
      assert forall i :: 0 <= i < |s.jobs[m].batch| ==> Ids(s.jobs[m].batch)[i] in Held(s.jobs[m]);
    } else if s.jobs[m].Answering? {
      RepliesUntouched(s.jobs[m].todo, s.heard, Next(s, Attempt(k, round)).heard);
    }
  }

  lemma AttemptKeepsHonest(s: System, k: nat, round: B.Round)
    requires Conserved(s) && Honest(s) && Enabled(s, Attempt(k, round))
    ensures Honest(Next(s, Attempt(k, round)))
  {
    var t := Next(s, Attempt(k, round));
    assert Waiting(t) == Waiting(s);
    forall id: nat
      ensures id in t.heard && id !in s.heard ==> id < s.issued && id !in Ids(Waiting(s))
      ensures id in ReplyIds(s.answers) ==> Told(t.heard, id) == Told(s.heard, id)
    {
      if id in Held(s.jobs[k]) {
        Alone(s, k, id);
      } else {
        AttemptLeavesOthers(s, k, round, id);
      }
    }
    forall m | 0 <= m < |t.jobs|
      ensures HonestJob(t.jobs[m], t.heard)
    {
      assert HonestJob(s.jobs[m], s.heard);
      if m == k {
        AttemptOwnJob(s, k, round);
      } else {
        AttemptOtherJob(s, k, round, m);
      }
    }
    RepliesUntouched(s.answers, s.heard, t.heard);
  }

  lemma RepliesUntouched(rs: seq<Reply>, before: map<nat, seq<B.Response>>, now: map<nat, seq<B.Response>>)
    requires HonestReplies(rs, before)
    requires forall id :: id in ReplyIds(rs) ==> Told(now, id) == Told(before, id)
    ensures HonestReplies(rs, now)
  {
    forall r | r in rs
      ensures B.TrueTo(Told(now, r.id), r.err)
    {
      var i :| 0 <= i < |rs| && rs[i] == r;
      assert ReplyIds(rs)[i] == r.id;
    }
  }

  lemma AcceptKeepsHonest(s: System, incoming: bool, now: int)
    requires Shape(s) && Honest(s) && s.lock.Free?
    ensures Honest(AfterAccept(s, incoming, now))
  {
    var t := AfterAccept(s, incoming, now);
    var item := Item(s.issued, now);
    if s.closed {
      assert Waiting(t) == Waiting(s);
      forall k | 0 <= k < |t.jobs|
        ensures HonestJob(t.jobs[k], t.heard)
      {
        assert HonestJob(s.jobs[k], s.heard);
      }
    } else {
      AcceptWaits(s, incoming, now);
      assert Ids(Waiting(s) + [item]) == Ids(Waiting(s)) + [s.issued];
      assert Waiting(s) + [] == Waiting(s);
    }
  }

  lemma IdsAppend(a: Batch, b: Batch)
    ensures Ids(a + b) == Ids(a) + Ids(b)
  {
  }

  lemma TakenWaited(s: System, w: nat)
    requires s.taken <= |s.sent| && Enabled(s, TakeBatch(w))
    ensures forall id :: id in Ids(Waiting(Next(s, TakeBatch(w)))) ==> id in Ids(Waiting(s))
    ensures forall i :: 0 <= i < |s.sent[s.taken]| ==> s.sent[s.taken][i].id in Ids(Waiting(s))
  {
    var batch, rest := s.sent[s.taken], Waiting(Next(s, TakeBatch(w)));
    TakeWaits(s, w);
    IdsAppend(batch, rest);
    assert forall i :: 0 <= i < |batch| ==> Ids(batch)[i] == batch[i].id;
  }

  lemma TakeKeepsHonest(s: System, w: nat)
    requires s.taken <= |s.sent| && Honest(s) && Enabled(s, TakeBatch(w))
    ensures Honest(Next(s, TakeBatch(w)))
  {
    var t := Next(s, TakeBatch(w));
    TakenWaited(s, w);
    forall k | 0 <= k < |t.jobs|
      ensures HonestJob(t.jobs[k], s.heard)
    {
      assert HonestJob(s.jobs[k], s.heard);
    }
  }

  lemma GiveUpKeepsHonest(s: System, k: nat)
    requires Honest(s) && Enabled(s, GiveUp(k))
    ensures Honest(Next(s, GiveUp(k)))
  {
    var t := Next(s, GiveUp(k));
    var batch, rounds := s.jobs[k].batch, s.jobs[k].rounds;
    assert HonestJob(s.jobs[k], s.heard);
    forall i | 0 <= i < |batch|
      ensures B.TrueTo(Told(s.heard, batch[i].id), B.AnswerOf(rounds, i))
    {
      B.AnswerIsTrue(rounds, i);
    }
    assert HonestJob(t.jobs[k], s.heard);
    assert Waiting(t) == Waiting(s);
  }

  lemma AnswerKeepsHonest(s: System, k: nat, j: nat)
    requires Honest(s) && Enabled(s, Answer(k, j))
    ensures Honest(Next(s, Answer(k, j)))
  {
    var t := Next(s, Answer(k, j));
    assert HonestJob(s.jobs[k], s.heard);
    assert s.jobs[k].todo[j] in s.jobs[k].todo;
    assert Waiting(t) == Waiting(s);
  }

  lemma KeepsHonest(s: System, step: Step)
    requires Shape(s) && Conserved(s) && Honest(s) && Enabled(s, step)
    ensures Honest(Next(s, step))
  {
    var t := Next(s, step);
    match step {
      case BeginAccept(incoming, now) => AcceptKeepsHonest(s, incoming, now);
      case SendBatch => SendWaits(s);
      case BeginStop(now) => StopWaits(s, now);
      case TakeBatch(w) => TakeKeepsHonest(s, w);
      case Attempt(k, round) => AttemptKeepsHonest(s, k, round);
      case GiveUp(k) => GiveUpKeepsHonest(s, k);
      case Answer(k, j) => AnswerKeepsHonest(s, k, j);
      case Finish(k) => assert Waiting(t) == Waiting(s);
      case _ => assert Waiting(t) == Waiting(s);
    }
  }

  lemma KeepsInvariant(s: System, step: Step)
    requires Inv(s) && Enabled(s, step)
    ensures Inv(Next(s, step))
  {
    KeepsShapeAndOrder(s, step);
    KeepsClosing(s, step);
    KeepsConserved(s, step);
    KeepsHonest(s, step);
  }

  lemma InitialInvariant(workers: nat, capacity: nat)
    ensures Inv(Initial(workers, capacity))
  {
    var s := Initial(workers, capacity);
    SumZero(Weights(s.status));
    forall id: nat
      ensures Places(s, id) == 0
    {
      SumZero(Shares(s.jobs, id));
    }
  }

  // Whole runs.

  /** Every reachable state satisfies the invariant. */
  lemma {:induction false} Reachable(workers: nat, capacity: nat, run: seq<Step>)
    requires Possible(Initial(workers, capacity), run)
    ensures Inv(After(Initial(workers, capacity), run))
  {
    if run == [] {
      InitialInvariant(workers, capacity);
    } else {
      var init := run[..|run| - 1];
      Reachable(workers, capacity, init);
      KeepsInvariant(After(Initial(workers, capacity), init), run[|run| - 1]);
    }
  }

  /** Who holds notification `id`: it waits, it is in process with goroutine `k`, or it was answered. */
  ghost predicate InPlace(s: System, id: nat, place: Option<nat>, answered: bool) {
    && (answered <==> Occurrences(ReplyIds(s.answers), id) == 1)
    && (answered || place.Some? ==> id !in Ids(Waiting(s)))
    && (!answered && place.None? ==> Occurrences(Ids(Waiting(s)), id) == 1)
    && (forall k :: 0 <= k < |s.jobs| ==> Occurrences(Held(s.jobs[k]), id) == if place == Some(k) then 1 else 0)
    && !(answered && place.Some?)
    && Occurrences(ReplyIds(s.answers), id) <= 1
  }

  /** Main result, safety: in every reachable state every accepted notification is in exactly one
      place, and exactly once there. */
  lemma ExactlyOnePlace(workers: nat, capacity: nat, run: seq<Step>, id: nat)
    returns (place: Option<nat>, answered: bool)
    requires Possible(Initial(workers, capacity), run) && id < After(Initial(workers, capacity), run).issued
    ensures InPlace(After(Initial(workers, capacity), run), id, place, answered)
  {
    var s := After(Initial(workers, capacity), run);
    Reachable(workers, capacity, run);
    assert Places(s, id) == 1;
    var shares := Shares(s.jobs, id);
    SumZero(shares);
    OccursMember(Ids(Waiting(s)), id);
    answered := Occurrences(ReplyIds(s.answers), id) == 1;
    if k: nat :| k < |shares| && shares[k] != 0 {
      place := Some(k);
      SumPart(shares, k);
      forall m | 0 <= m < |s.jobs| && m != k
        ensures Occurrences(Held(s.jobs[m]), id) == 0
      {
        SumPair(shares, k, m);
      }
    } else {
      place := None;
      assert forall m :: 0 <= m < |s.jobs| ==> shares[m] == Occurrences(Held(s.jobs[m]), id);
    }
  }

  /** Main result, order: what goes through the channel is, batch after batch, what was accepted, in
      order; every batch has between 1 and 500 notifications. */
  lemma AcceptedInOrder(workers: nat, capacity: nat, run: seq<Step>)
    requires Possible(Initial(workers, capacity), run)
    ensures var s := After(Initial(workers, capacity), run);
            && Flatten(s.sent) <= s.queued
            && (s.lock.Free? ==> Flatten(s.sent) + s.sink.buffer == s.queued && |s.sink.buffer| < BATCH_SIZE)
            && forall b :: b in s.sent ==> 1 <= |b| <= 500
  {
    var s := After(Initial(workers, capacity), run);
    Reachable(workers, capacity, run);
    PrefixOf(Flatten(s.sent), Flatten(Out(s.lock)), s.sink.buffer);
  }

  lemma PrefixOf(a: Batch, b: Batch, c: Batch)
    ensures a <= a + b + c && (b == [] ==> a + b + c == a + c)
  {
  }

  /** The Go panics of this pipeline cannot happen: no send on the closed channel, no second close,
      no negative wait-group counter. */
  lemma NoPanic(workers: nat, capacity: nat, run: seq<Step>, step: Step)
    requires Possible(Initial(workers, capacity), run) && Enabled(After(Initial(workers, capacity), run), step)
    ensures var s := After(Initial(workers, capacity), run);
            && (step.SendBatch? || step.CloseChannel? ==> !s.channelClosed)
            && Next(s, step).wg >= 0
  {
    Reachable(workers, capacity, run);
    KeepsShapeAndOrder(After(Initial(workers, capacity), run), step);
  }

  /** No call of `accept` loses its notification: an open sink queues it, a closed one has the caller
      process it on the spot, as a batch of its own. */
  lemma EveryAcceptCounts(workers: nat, capacity: nat, run: seq<Step>, incoming: bool, now: int)
    requires Possible(Initial(workers, capacity), run)
    requires Enabled(After(Initial(workers, capacity), run), BeginAccept(incoming, now))
    ensures var s := After(Initial(workers, capacity), run);
            var t, item := Next(s, BeginAccept(incoming, now)), Item(s.issued, now);
            && t.issued == s.issued + (if incoming then 1 else 0)
            && t.queued == s.queued + (if incoming && !s.closed then [item] else [])
            && (incoming && s.closed ==> t.jobs[0] == Sending([item], []))
  {
    Reachable(workers, capacity, run);
    var s := After(Initial(workers, capacity), run);
    assert s.queued + [] == s.queued;
  }

  lemma StepKeepsChannel(s: System, step: Step)
    requires Enabled(s, step) && s.taken <= |s.sent| <= s.taken + s.capacity
    ensures var t := Next(s, step); t.capacity == s.capacity && t.taken <= |t.sent| <= t.taken + t.capacity
  {
  }

  /** The channel never holds more batches than its capacity. */
  lemma {:induction false} ChannelBounded(workers: nat, capacity: nat, run: seq<Step>)
    requires Possible(Initial(workers, capacity), run)
    ensures var s := After(Initial(workers, capacity), run);
            s.capacity == capacity && s.taken <= |s.sent| <= s.taken + capacity
  {
    if run != [] {
      var init := run[..|run| - 1];
      ChannelBounded(workers, capacity, init);
      StepKeepsChannel(After(Initial(workers, capacity), init), run[|run| - 1]);
    }
  }

  /** No attempt of the job was made after retrying was over. */
  ghost predicate StoppedInTime(job: Job) {
    job.Sending? ==> forall m :: 0 < m < |job.rounds| ==> !B.Over(job.rounds[..m], |job.batch|)
  }

  lemma StepStopsInTime(s: System, step: Step, k: nat)
    requires k < |s.jobs| && StoppedInTime(s.jobs[k]) && Enabled(s, step)
    ensures k < |Next(s, step).jobs| && StoppedInTime(Next(s, step).jobs[k])
  {
    if step.Attempt? && step.k == k {
      var rounds := s.jobs[k].rounds;
      assert (rounds + [step.round])[..|rounds|] == rounds;
      assert forall m :: 0 < m < |rounds| ==> (rounds + [step.round])[..m] == rounds[..m];
    }
  }

  lemma {:induction false} RunStopsInTime(workers: nat, capacity: nat, run: seq<Step>, k: nat)
    requires Possible(Initial(workers, capacity), run) && k <= workers
    ensures k < |After(Initial(workers, capacity), run).jobs|
    ensures StoppedInTime(After(Initial(workers, capacity), run).jobs[k])
  {
    if run != [] {
      RunStopsInTime(workers, capacity, run[..|run| - 1], k);
      StepStopsInTime(After(Initial(workers, capacity), run[..|run| - 1]), run[|run| - 1], k);
    }
  }

  /** In every run, an attempt that met the expired context, or settled everything, was the last one of
      its batch; after any other refusal the next may follow. */
  lemma AttemptsEnd(workers: nat, capacity: nat, run: seq<Step>, k: nat, j: nat)
    requires Possible(Initial(workers, capacity), run)
    ensures var s := After(Initial(workers, capacity), run);
            k < |s.jobs| && s.jobs[k].Sending? && j < |s.jobs[k].rounds| ==>
              var job := s.jobs[k];
              var over := job.rounds[j] == B.Refused(true) ||
                          (job.rounds[j].Answered? && B.AllSettled(job.rounds[..j + 1], |job.batch|));
              && (over ==> j == |job.rounds| - 1)
              && (j == |job.rounds| - 1 ==> (over <==> !Enabled(s, Attempt(k, B.Refused(false)))))
  {
    var s := After(Initial(workers, capacity), run);
    if k < |s.jobs| && s.jobs[k].Sending? && j < |s.jobs[k].rounds| {
      RunKeepsJobs(workers, capacity, run);
      RunStopsInTime(workers, capacity, run, k);
      AttemptEnds(s, k, j);
    }
  }

  lemma AttemptEnds(s: System, k: nat, j: nat)
    requires k < |s.jobs| && s.jobs[k].Sending? && j < |s.jobs[k].rounds| && StoppedInTime(s.jobs[k])
    ensures var job := s.jobs[k];
            var over := job.rounds[j] == B.Refused(true) ||
                        (job.rounds[j].Answered? && B.AllSettled(job.rounds[..j + 1], |job.batch|));
            && (over ==> j == |job.rounds| - 1)
            && (j == |job.rounds| - 1 ==> (over <==> !Enabled(s, Attempt(k, B.Refused(false)))))
  {
    var job := s.jobs[k];
    assert j == |job.rounds| - 1 ==> job.rounds[..j + 1] == job.rounds;
    B.OverMeaning(job.rounds[..j + 1], |job.batch|);
  }

  lemma StepKeepsJobs(s: System, step: Step)
    requires Enabled(s, step)
    ensures |Next(s, step).jobs| == |s.jobs|
  {
  }

  lemma {:induction false} RunKeepsJobs(workers: nat, capacity: nat, run: seq<Step>)
    requires Possible(Initial(workers, capacity), run)
    ensures |After(Initial(workers, capacity), run).jobs| == workers + 1
  {
    if run != [] {
      var init := run[..|run| - 1];
      RunKeepsJobs(workers, capacity, init);
      StepKeepsJobs(After(Initial(workers, capacity), init), run[|run| - 1]);
    }
  }

  ghost predicate AllAnswered(s: System) {
    forall id: nat :: id < s.issued ==> Occurrences(ReplyIds(s.answers), id) == 1
  }

  /** When the wait group has counted down to zero, every goroutine is done. */
  lemma AllDone(s: System)
    requires Shape(s) && s.wg == 0 && !s.lock.Inline?
    ensures forall w :: 0 <= w < |s.status| ==> !s.status[w].Running?
    ensures forall k :: 0 <= k < |s.jobs| ==> s.jobs[k].NoJob?
  {
    SumZero(Weights(s.status));
    forall w | 0 <= w < |s.status|
      ensures !s.status[w].Running? && s.jobs[w].NoJob?
    {
      assert Weights(s.status)[w] == 0;
    }
  }

  lemma OnlyWaitingOrAnswered(s: System, id: nat)
    requires Conserved(s) && forall k :: 0 <= k < |s.jobs| ==> s.jobs[k].NoJob?
    ensures Occurrences(Ids(Waiting(s)), id) + Occurrences(ReplyIds(s.answers), id) == if id < s.issued then 1 else 0
  {
    assert Places(s, id) == if id < s.issued then 1 else 0;
    SumZero(Shares(s.jobs, id));
  }

  lemma BarrierOf(s: System)
    requires Inv(s) && Enabled(s, EndStop)
    ensures AllAnswered(s) <==> (s.queued == [] || exists w :: 0 <= w < |s.status| && !s.status[w].Unstarted?)
  {
    AllDone(s);
    if w :| 0 <= w < |s.status| && !s.status[w].Unstarted? {
      assert s.status[w].Exited?;
      assert Waiting(s) == [];
      forall id: nat | id < s.issued
        ensures Occurrences(ReplyIds(s.answers), id) == 1
      {
        OnlyWaitingOrAnswered(s, id);
      }
    } else if s.queued != [] {
      assert Occurrences(ReplyIds(s.answers), 0) == 0;
    }
  }

  /** `stop` returns from waiting only when every notification accepted so far has been answered,
      provided some worker has registered with the wait group by then; a stop that overtakes the
      start of every worker waits for nothing. */
  lemma StopBarrier(workers: nat, capacity: nat, run: seq<Step>)
    requires Possible(Initial(workers, capacity), run)
    ensures var s := After(Initial(workers, capacity), run);
            Enabled(s, EndStop) ==>
              (AllAnswered(s) <==>
               s.queued == [] || exists w :: 0 <= w < |s.status| && !s.status[w].Unstarted?)
  {
    Reachable(workers, capacity, run);
    var s := After(Initial(workers, capacity), run);
    if Enabled(s, EndStop) {
      BarrierOf(s);
    }
  }

  /** The client's constructor returns only after its probe was answered, so for its callers the
      barrier is complete. */
  lemma StopBarrierAfterProbe(workers: nat, capacity: nat, run: seq<Step>)
    requires Possible(Initial(workers, capacity), run)
    ensures var s := After(Initial(workers, capacity), run);
            Enabled(s, EndStop) && s.answers != [] ==> AllAnswered(s)
  {
    Reachable(workers, capacity, run);
    var s := After(Initial(workers, capacity), run);
    if Enabled(s, EndStop) && s.answers != [] {
      BarrierOf(s);
    }
  }

  /** No channel content, no worker and no inline call is left in process. */
  ghost predicate Quiescent(s: System) {
    s.closed && s.lock.Free? && s.taken == |s.sent| && forall k :: 0 <= k < |s.jobs| ==> s.jobs[k].NoJob?
  }

  lemma AnsweredAtRest(s: System)
    requires Inv(s) && Quiescent(s)
    ensures AllAnswered(s)
  {
    assert Waiting(s) == [];
    forall id: nat | id < s.issued
      ensures Occurrences(ReplyIds(s.answers), id) == 1
    {
      OnlyWaitingOrAnswered(s, id);
    }
  }

  /** FCM has reported success for notification `id`. */
  ghost predicate Succeeded(s: System, id: nat) {
    id in s.heard && exists reply :: reply in s.heard[id] && reply.success
  }

  ghost predicate EverSilent(s: System, id: nat) {
    id in s.heard && exists reply :: reply in s.heard[id] && B.Silent(reply)
  }

  /** A notification is answered with nil after a success or a silent reply, and never gets both. */
  lemma NilMeans(s: System, r: Reply)
    requires HonestReplies(s.answers, s.heard) && r in s.answers
    ensures r.err == None <==> Succeeded(s, r.id) || EverSilent(s, r.id)
    ensures !(Succeeded(s, r.id) && EverSilent(s, r.id))
  {
    var told := Told(s.heard, r.id);
    assert B.TrueTo(told, r.err);
    assert forall reply :: reply in told && B.Settles(reply) ==> reply == told[|told| - 1];
  }

  lemma SilenceDecides(s: System)
    requires Honest(s) && AllAnswered(s)
    ensures (forall r :: r in s.answers ==> (r.err == None <==> Succeeded(s, r.id))) <==>
            forall id :: !EverSilent(s, id)
  {
    forall r | r in s.answers
      ensures (r.err == None <==> Succeeded(s, r.id)) <==> !EverSilent(s, r.id)
    {
      NilMeans(s, r);
    }
    forall id | EverSilent(s, id)
      ensures exists r :: r in s.answers && r.id == id
    {
      OccursMember(ReplyIds(s.answers), id);
      var i :| 0 <= i < |s.answers| && ReplyIds(s.answers)[i] == id;
      assert s.answers[i] in s.answers;
    }
  }

  lemma AnswerIsTrue(workers: nat, capacity: nat, run: seq<Step>, r: Reply)
    requires Possible(Initial(workers, capacity), run) && r in After(Initial(workers, capacity), run).answers
    ensures B.TrueTo(Told(After(Initial(workers, capacity), run).heard, r.id), r.err)
  {
    Reachable(workers, capacity, run);
  }

  /** Main result, truth: every answer ever given is true to FCM's own record of its replies. Nil: it
      reported success, or neither success nor an error. An invalid token: it blamed the token. No
      attempt: it never replied for the notification. Any other error: it is that of the last reply, and
      no reply settled the matter. A reply that does is the last one: nothing is sent again after success
      or a blamed token. */
  lemma AnsweredTruthfully(workers: nat, capacity: nat, run: seq<Step>, r: Reply)
    requires Possible(Initial(workers, capacity), run) && r in After(Initial(workers, capacity), run).answers
    ensures var s := After(Initial(workers, capacity), run);
            var told := if r.id in s.heard then s.heard[r.id] else [];
            && (r.err == None <==> exists reply :: reply in told && (reply.success || B.Silent(reply)))
            && (r.err == Some(B.InvalidDeviceToken) <==> exists reply :: reply in told && B.BlamesToken(reply))
            && (r.err == Some(B.NotAttempted) <==> told == [])
            && (forall cause :: r.err == Some(B.SendFailed(cause)) <==>
                                && told != [] && told[|told| - 1].error == Some(cause)
                                && forall reply :: reply in told ==> !B.Settles(reply))
            && forall q :: 0 <= q < |told| - 1 ==> !B.Settles(told[q])
  {
    AnswerIsTrue(workers, capacity, run, r);
  }

  /** Main result, end to end: after `stop` and once the calls in process have finished, every
      notification ever accepted has been answered exactly once, with nil iff FCM reported success for
      it or reported neither success nor an error. So nil means success, for all of them, iff FCM was
      never silent. */
  lemma AnsweredExactlyOnce(workers: nat, capacity: nat, run: seq<Step>)
    requires Possible(Initial(workers, capacity), run) && Quiescent(After(Initial(workers, capacity), run))
    ensures var s := After(Initial(workers, capacity), run);
            && AllAnswered(s)
            && (forall r :: r in s.answers ==> (r.err == None <==> Succeeded(s, r.id) || EverSilent(s, r.id)))
            && ((forall r :: r in s.answers ==> (r.err == None <==> Succeeded(s, r.id))) <==>
                forall id :: !EverSilent(s, id))
  {
    Reachable(workers, capacity, run);
    var s := After(Initial(workers, capacity), run);
    AnsweredAtRest(s);
    SilenceDecides(s);
    forall r | r in s.answers
      ensures r.err == None <==> Succeeded(s, r.id) || EverSilent(s, r.id)
    {
      NilMeans(s, r);
    }
  }

  lemma Extend(s: System, run: seq<Step>, step: Step)
    requires Possible(s, run) && Enabled(After(s, run), step)
    ensures Possible(s, run + [step]) && After(s, run + [step]) == Next(After(s, run), step)
  {
    assert (run + [step])[..|run + [step]| - 1] == run;
  }

  lemma OneBatchDrained(item: Item)
    ensures AcceptStep(State([], None), Some(item), item.at) == (State([item], Some(item.at)), [])
    ensures Drain([item]) == [[item]]
  {
    assert [] + [item] == [item];
    DrainProperties([item]);
    FlattenOne([item]);
  }

  /** A stop that overtakes the start of every worker: its wait is over at once, and the notification
      accepted before it has not been answered. */
  lemma StopOvertakesWorkers(workers: nat, capacity: nat) returns (run: seq<Step>)
    requires capacity > 0
    ensures Possible(Initial(workers, capacity), run) && Enabled(After(Initial(workers, capacity), run), EndStop)
    ensures After(Initial(workers, capacity), run).issued == 1 && After(Initial(workers, capacity), run).answers == []
    ensures !AllAnswered(After(Initial(workers, capacity), run))
  {
    var start := Initial(workers, capacity);
    OneBatchDrained(Item(0, 0));
    Extend(start, [], BeginAccept(true, 0));
    run := [] + [BeginAccept(true, 0)];
    Extend(start, run, EndAccept);
    run := run + [EndAccept];
    Extend(start, run, BeginStop(0));
    run := run + [BeginStop(0)];
    Extend(start, run, SendBatch);
    run := run + [SendBatch];
    Extend(start, run, CloseChannel);
    run := run + [CloseChannel];
    assert Occurrences(ReplyIds(After(start, run).answers), 0) == 0;
  }
}
