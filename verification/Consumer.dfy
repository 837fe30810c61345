/** The Kafka consumer (connectors/message_broker/consumer.go): one poller, one consumer goroutine per
    partition, one goroutine per record key inside it, a wait group that holds back rebalancing, and
    consumers that are replaced when partitions move. A state machine over all interleavings. */
module Consumer {
  import opened Wrappers
  import opened Ledgers

  const CHANNEL_CAPACITY: nat := 100

  /** A partition stands for a topic and a partition number. */
  datatype Record = Record(partition: nat, key: string, offset: nat)

  /** The records that must keep their order: a whole partition in one-goroutine mode, otherwise the
      records of one key in one partition. */
  datatype Class = Whole(partition: nat) | Keyed(partition: nat, key: string)

  /** `single` are the partitions consumed by one goroutine. */
  function ClassOf(single: set<nat>, r: Record): Class {
    if r.partition in single then Whole(r.partition) else Keyed(r.partition, r.key)
  }

  /** The records of class `c`, in order. */
  function Select(single: set<nat>, rs: seq<Record>, c: Class): seq<Record> {
    if rs == [] then [] else
    (if ClassOf(single, rs[0]) == c then [rs[0]] else []) + Select(single, rs[1..], c)
  }

  function SelectAll(single: set<nat>, batches: seq<seq<Record>>, c: Class): seq<Record> {
    if batches == [] then [] else Select(single, batches[0], c) + SelectAll(single, batches[1..], c)
  }

  /** What each goroutine gets of a batch. */
  function Grouped(single: set<nat>, batch: seq<Record>): map<Class, seq<Record>> {
    map c | c in set r | r in batch :: ClassOf(single, r) :: Select(single, batch, c)
  }

  lemma SelectOneMore(single: set<nat>, rs: seq<Record>, r: Record, k: string)
    requires r.partition !in single
    ensures Select(single, rs + [r], Keyed(r.partition, k)) ==
            Select(single, rs, Keyed(r.partition, k)) + if r.key == k then [r] else []
  {
    SelectAppend(single, rs, [r], Keyed(r.partition, k));
    assert [r][1..] == [];
  }

  /** The grouping loop of `consume` for the batch of one partition. */
  method GroupByKey(single: set<nat>, partition: nat, records: seq<Record>) returns (grouped: map<string, seq<Record>>)
    requires partition !in single && forall r :: r in records ==> r.partition == partition
    ensures forall k :: k in grouped <==> Keyed(partition, k) in Grouped(single, records)
    ensures forall k :: k in grouped ==> grouped[k] == Grouped(single, records)[Keyed(partition, k)]
  {
    grouped := map[];
    for i := 0 to |records|
      invariant forall k :: k in grouped ==> grouped[k] != []
      invariant forall k :: Select(single, records[..i], Keyed(partition, k)) == if k in grouped then grouped[k] else []
    {
      var record := records[i];
      assert record in records;
      assert records[..i + 1] == records[..i] + [record];
      forall k
        ensures Select(single, records[..i + 1], Keyed(partition, k)) ==
                Select(single, records[..i], Keyed(partition, k)) + if record.key == k then [record] else []
      {
        SelectOneMore(single, records[..i], record, k);
      }
      grouped := grouped[record.key := (if record.key in grouped then grouped[record.key] else []) + [record]];
    }
    assert records[..|records|] == records;
    forall k
      ensures Keyed(partition, k) in Grouped(single, records) <==> Select(single, records, Keyed(partition, k)) != []
    {
      GroupedKeys(single, records, Keyed(partition, k));
    }
  }

  lemma GroupedKeys(single: set<nat>, batch: seq<Record>, c: Class)
    ensures c in Grouped(single, batch) <==> Select(single, batch, c) != []
  {
    SelectMember(single, batch, c);
    if c in Grouped(single, batch) {
      var r :| r in batch && ClassOf(single, r) == c;
      assert r in Select(single, batch, c);
    }
    if Select(single, batch, c) != [] {
      var r := Select(single, batch, c)[0];
      assert r in Select(single, batch, c);
    }
  }

  lemma {:induction false} SelectAppend(single: set<nat>, a: seq<Record>, b: seq<Record>, c: Class)
    ensures Select(single, a + b, c) == Select(single, a, c) + Select(single, b, c)
  {
    if a == [] {
      assert a + b == b;
    } else {
      SelectAppend(single, a[1..], b, c);
      assert (a + b)[0] == a[0] && (a + b)[1..] == a[1..] + b;
      MovesOver(if ClassOf(single, a[0]) == c then [a[0]] else [], Select(single, a[1..], c), Select(single, b, c));
    }
  }

  lemma {:induction false} SelectAllAppend(single: set<nat>, a: seq<seq<Record>>, b: seq<Record>, c: Class)
    ensures SelectAll(single, a + [b], c) == SelectAll(single, a, c) + Select(single, b, c)
  {
    if a == [] {
      assert a + [b] == [b] && [b][1..] == [];
    } else {
      SelectAllAppend(single, a[1..], b, c);
      assert (a + [b])[0] == a[0] && (a + [b])[1..] == a[1..] + [b];
      MovesOver(Select(single, a[0], c), SelectAll(single, a[1..], c), Select(single, b, c));
    }
  }

  lemma {:induction false} SelectMember(single: set<nat>, rs: seq<Record>, c: Class)
    ensures forall r :: r in Select(single, rs, c) <==> r in rs && ClassOf(single, r) == c
  {
    if rs != [] {
      SelectMember(single, rs[1..], c);
    }
  }

  lemma {:induction false} SelectOccurs(single: set<nat>, rs: seq<Record>, r: Record)
    ensures Occurrences(Select(single, rs, ClassOf(single, r)), r) == multiset(rs)[r]
  {
    if rs != [] {
      assert rs == [rs[0]] + rs[1..];
      assert multiset(rs) == multiset{rs[0]} + multiset(rs[1..]);
      SelectOccurs(single, rs[1..], r);
      var c := ClassOf(single, r);
      if ClassOf(single, rs[0]) == c {
        assert Select(single, rs, c)[1..] == Select(single, rs[1..], c);
      } else {
        assert Select(single, rs, c) == Select(single, rs[1..], c);
      }
    }
  }

  /** Class by class the same records in the same order. */
  ghost predicate SameOrder(single: set<nat>, a: seq<Record>, b: seq<Record>) {
    forall c :: Select(single, a, c) == Select(single, b, c)
  }

  lemma SmallerClass(single: set<nat>, done: seq<Record>, all: seq<Record>, r: Record)
    requires Select(single, done, ClassOf(single, r)) <= Select(single, all, ClassOf(single, r))
    ensures multiset(done)[r] <= multiset(all)[r]
  {
    var c := ClassOf(single, r);
    SelectOccurs(single, done, r);
    SelectOccurs(single, all, r);
    var a, b := Select(single, done, c), Select(single, all, c);
    assert b == a + b[|a|..];
    OccursAppend(a, b[|a|..], r);
  }

  lemma EqualClass(single: set<nat>, done: seq<Record>, all: seq<Record>, c: Class)
    requires multiset(done) == multiset(all)
    requires Select(single, done, c) <= Select(single, all, c)
    ensures Select(single, done, c) == Select(single, all, c)
  {
    var a, b := Select(single, done, c), Select(single, all, c);
    if a != b {
      var r, extra := b[|a|], b[|a|..];
      assert b == a + extra && extra[0] == r && r in b;
      OccursAppend(a, extra, r);
      OccursMember(extra, r);
      SelectMember(single, all, c);
      SelectOccurs(single, all, r);
      SelectOccurs(single, done, r);
    }
  }

  /** Prefixes class by class make a smaller multiset; of equal size, the class orders are equal. */
  lemma Complete(single: set<nat>, done: seq<Record>, all: seq<Record>)
    requires forall c :: Select(single, done, c) <= Select(single, all, c)
    ensures |done| <= |all|
    ensures |done| == |all| ==> SameOrder(single, done, all)
  {
    forall r: Record
      ensures multiset(done)[r] <= multiset(all)[r]
    {
      SmallerClass(single, done, all, r);
    }
    var missing := multiset(all) - multiset(done);
    assert multiset(all) == multiset(done) + missing;
    assert |multiset(all)| == |multiset(done)| + |missing|;
    if |done| == |all| {
      assert multiset(done) == multiset(all);
      forall c
        ensures Select(single, done, c) == Select(single, all, c)
      {
        EqualClass(single, done, all, c);
      }
    }
  }

  // The state machine.

  /** A consumer goroutine: its channel, and while it works on a batch the lanes of its per-class
      goroutines. `closes` counts how often its channel was closed. */
  datatype Worker = Worker(
    partition: nat,
    channel: seq<seq<Record>>,
    lanes: Option<map<Class, seq<Record>>>,
    closing: bool,
    closes: nat,
    done: bool
  )

  datatype Fetch = Fetch(partition: nat, failed: bool, records: seq<Record>)

  datatype Poller = Polling | Dispatching(todo: seq<Fetch>)

  /** `workers` are all consumers ever started, `current` the one registered for a partition, and
      `stopping` the one that the holder of the mutex is waiting for. `dispatched` and `processed`
      are histories; `leaked` counts what the not-found path adds to the wait group too often. */
  datatype System = System(
    single: set<nat>,
    workers: seq<Worker>,
    current: map<nat, nat>,
    stopping: Option<nat>,
    poller: Poller,
    wg: int,
    leaked: nat,
    dispatched: seq<Record>,
    processed: seq<Record>
  )

  datatype Step =
    | Poll(fetches: seq<Fetch>)
    | SkipFailed
    | Dispatch
    | DispatchNotFound
    | AllowRebalance
    | Assign(partition: nat)
    | Revoke(partition: nat)
    | StopReturns
    | TakeBatch(w: nat)
    | ProcessRecord(w: nat, c: Class)
    | EndBatch(w: nat)
    | EndWorker(w: nat)

  function Initial(single: set<nat>): System {
    System(single, [], map[], None, Polling, 0, 0, [], [])
  }

  predicate ValidFetch(f: Fetch) {
    forall r :: r in f.records ==> r.partition == f.partition
  }

  /** The partition has a registered consumer that is not closing. */
  predicate Found(s: System, p: nat) {
    p in s.current && s.current[p] < |s.workers| && !s.workers[s.current[p]].closing
  }

  /** A new consumer may be registered: there is none, or the closing one has finished. */
  predicate Replaceable(s: System, p: nat) {
    p in s.current ==> s.current[p] < |s.workers| && s.workers[s.current[p]].closing && s.workers[s.current[p]].done
  }

  predicate Head(s: System) {
    s.poller.Dispatching? && s.poller.todo != [] && s.stopping.None?
  }

  predicate Enabled(s: System, step: Step) {
    match step
    case Poll(fetches) => s.poller.Polling? && s.stopping.None? && forall f :: f in fetches ==> ValidFetch(f)
    case SkipFailed => Head(s) && s.poller.todo[0].failed
    case Dispatch =>
      Head(s) && !s.poller.todo[0].failed && Found(s, s.poller.todo[0].partition) &&
      |s.workers[s.current[s.poller.todo[0].partition]].channel| < CHANNEL_CAPACITY
    case DispatchNotFound =>
      Head(s) && !s.poller.todo[0].failed && !Found(s, s.poller.todo[0].partition) &&
      Replaceable(s, s.poller.todo[0].partition)
    case AllowRebalance => s.poller == Dispatching([]) && s.stopping.None? && s.wg == 0
    case Assign(p) => s.poller.Polling? && s.stopping.None? && !Found(s, p) && Replaceable(s, p)
    case Revoke(p) => s.poller.Polling? && s.stopping.None? && Found(s, p)
    case StopReturns => s.stopping.Some? && s.stopping.value < |s.workers| && s.workers[s.stopping.value].done
    case TakeBatch(w) => w < |s.workers| && !s.workers[w].done && s.workers[w].lanes.None? && s.workers[w].channel != []
    case ProcessRecord(w, c) =>
      w < |s.workers| && s.workers[w].lanes.Some? && c in s.workers[w].lanes.value && s.workers[w].lanes.value[c] != []
    case EndBatch(w) =>
      w < |s.workers| && s.workers[w].lanes.Some? &&
      forall c :: c in s.workers[w].lanes.value ==> s.workers[w].lanes.value[c] == []
    case EndWorker(w) =>
      w < |s.workers| && !s.workers[w].done && s.workers[w].lanes.None? && s.workers[w].channel == [] &&
      s.workers[w].closing
  }

  function Start(s: System, w: Worker): System {
    s.(workers := s.workers + [w], current := s.current[w.partition := |s.workers|])
  }

  function Close(w: Worker): Worker {
    w.(closing := true, closes := w.closes + 1)
  }

  function Next(s: System, step: Step): System
    requires Enabled(s, step)
  {
    match step
    case Poll(fetches) => s.(poller := Dispatching(fetches))
    case SkipFailed => s.(poller := Dispatching(s.poller.todo[1..]))
    case Dispatch =>
      var f := s.poller.todo[0];
      var i := s.current[f.partition];
      var w := s.workers[i];
      s.(poller := Dispatching(s.poller.todo[1..]), wg := s.wg + |f.records|, dispatched := s.dispatched + f.records,
      workers := s.workers[i := w.(channel := w.channel + [f.records])])
    case DispatchNotFound =>
      var f := s.poller.todo[0];
      var t := Start(s, Close(Worker(f.partition, [f.records], None, false, 0, false)));
      t.(poller := Dispatching(s.poller.todo[1..]), wg := s.wg + 2 * |f.records|, leaked := s.leaked + |f.records|,
      dispatched := s.dispatched + f.records, stopping := Some(|s.workers|))
    case AllowRebalance => s.(poller := Polling)
    case Assign(p) => Start(s, Worker(p, [], None, false, 0, false))
    case Revoke(p) =>
      var i := s.current[p];
      s.(workers := s.workers[i := Close(s.workers[i])], stopping := Some(i))
    case StopReturns => s.(stopping := None)
    case TakeBatch(i) =>
      var w := s.workers[i];
      s.(workers := s.workers[i := w.(channel := w.channel[1..], lanes := Some(Grouped(s.single, w.channel[0])))])
    case ProcessRecord(i, c) =>
      var w := s.workers[i];
      var lane := w.lanes.value[c];
      s.(workers := s.workers[i := w.(lanes := Some(w.lanes.value[c := lane[1..]]))],
      processed := s.processed + [lane[0]], wg := s.wg - 1)
    case EndBatch(i) => s.(workers := s.workers[i := s.workers[i].(lanes := None)])
    case EndWorker(i) => s.(workers := s.workers[i := s.workers[i].(done := true)])
  }

  predicate Possible(s: System, run: seq<Step>)
    decreases |run|, 0
  {
    run == [] || (Possible(s, run[..|run| - 1]) && Enabled(After(s, run[..|run| - 1]), run[|run| - 1]))
  }

  function After(s: System, run: seq<Step>): System
    requires Possible(s, run)
    decreases |run|, 1
  {
    if run == [] then s else Next(After(s, run[..|run| - 1]), run[|run| - 1])
  }

  // The invariant.

  /** What a consumer still has to process of class `c`. */
  function Pending(single: set<nat>, w: Worker, c: Class): seq<Record> {
    (if w.lanes.Some? && c in w.lanes.value then w.lanes.value[c] else []) + SelectAll(single, w.channel, c)
  }

  /** What the registered consumer of the partition of `c` still has to process of it. */
  function Outstanding(s: System, c: Class): seq<Record> {
    if c.partition in s.current && s.current[c.partition] < |s.workers|
    then Pending(s.single, s.workers[s.current[c.partition]], c)
    else []
  }

  ghost predicate GoodWorker(single: set<nat>, w: Worker) {
    && w.closes == (if w.closing then 1 else 0)
    && (w.done ==> w.closing && w.channel == [] && w.lanes.None?)
    && (forall b, r :: b in w.channel && r in b ==> r.partition == w.partition)
    && (w.lanes.Some? ==> forall c :: c in w.lanes.value ==>
                                        && c.partition == w.partition
                                        && forall r :: r in w.lanes.value[c] ==> ClassOf(single, r) == c)
  }

  /** Consumer `i` is closing and still registered. */
  predicate StoppingOne(s: System, i: nat)
    requires i < |s.workers|
  {
    var w := s.workers[i];
    w.closing && w.partition in s.current && s.current[w.partition] == i
  }

  ghost predicate Registered(s: System) {
    && (forall p :: p in s.current ==> s.current[p] < |s.workers| && s.workers[s.current[p]].partition == p)
    && (forall i :: 0 <= i < |s.workers| ==> GoodWorker(s.single, s.workers[i]))
    && (forall i :: 0 <= i < |s.workers| && !s.workers[i].done ==>
                      s.workers[i].partition in s.current && s.current[s.workers[i].partition] == i)
    && (s.stopping.Some? ==> s.stopping.value < |s.workers| && StoppingOne(s, s.stopping.value))
    && (s.poller.Dispatching? ==> forall f :: f in s.poller.todo ==> ValidFetch(f))
  }

  /** Class by class, what was dispatched is what was processed followed by what is outstanding. */
  ghost predicate Ordered(s: System) {
    forall c :: Select(s.single, s.dispatched, c) == Select(s.single, s.processed, c) + Outstanding(s, c)
  }

  ghost predicate Counted(s: System) {
    s.wg == |s.dispatched| - |s.processed| + s.leaked
  }

  ghost predicate Inv(s: System) {
    Registered(s) && Ordered(s) && Counted(s)
  }

  // Each part of the invariant is kept by every step.

  /** What may happen to one consumer without disturbing the others. */
  lemma WorkerChange(s: System, i: nat, w: Worker)
    requires Registered(s) && i < |s.workers| && GoodWorker(s.single, w)
    requires w.partition == s.workers[i].partition
    requires (s.workers[i].done ==> w.done) && (s.workers[i].closing ==> w.closing)
    ensures Registered(s.(workers := s.workers[i := w]))
  {
  }

  lemma TakenIsGood(single: set<nat>, w: Worker)
    requires GoodWorker(single, w) && w.channel != [] && !w.done
    ensures GoodWorker(single, w.(channel := w.channel[1..], lanes := Some(Grouped(single, w.channel[0]))))
  {
    assert w.channel[0] in w.channel;
    forall c, r | c in Grouped(single, w.channel[0]) && r in Select(single, w.channel[0], c)
      ensures ClassOf(single, r) == c && c.partition == w.partition
    {
      SelectMember(single, w.channel[0], c);
    }
  }

  /** A new consumer may be registered in place of none, or of a finished one. */
  lemma StartRegisters(s: System, w: Worker)
    requires Registered(s) && s.stopping.None? && Replaceable(s, w.partition) && GoodWorker(s.single, w)
    ensures Registered(Start(s, w))
  {
  }

  lemma PollingKeepsRegistered(s: System, step: Step)
    requires Registered(s) && Enabled(s, step)
    requires step.Poll? || step.SkipFailed? || step.AllowRebalance? || step.StopReturns?
    ensures Registered(Next(s, step))
  {
  }

  lemma DispatchKeepsRegistered(s: System)
    requires Registered(s) && Enabled(s, Dispatch)
    ensures Registered(Next(s, Dispatch))
  {
    var f := s.poller.todo[0];
    var i := s.current[f.partition];
    assert f in s.poller.todo && ValidFetch(f);
    WorkerChange(s, i, s.workers[i].(channel := s.workers[i].channel + [f.records]));
  }

  lemma NotFoundKeepsRegistered(s: System)
    requires Registered(s) && Enabled(s, DispatchNotFound)
    ensures Registered(Next(s, DispatchNotFound))
  {
    var f := s.poller.todo[0];
    assert f in s.poller.todo && ValidFetch(f);
    StartRegisters(s, Close(Worker(f.partition, [f.records], None, false, 0, false)));
  }

  lemma RevokeKeepsRegistered(s: System, p: nat)
    requires Registered(s) && Enabled(s, Revoke(p))
    ensures Registered(Next(s, Revoke(p)))
  {
    WorkerChange(s, s.current[p], Close(s.workers[s.current[p]]));
  }

  lemma WorkingKeepsRegistered(s: System, step: Step)
    requires Registered(s) && Enabled(s, step)
    requires step.TakeBatch? || step.ProcessRecord? || step.EndBatch? || step.EndWorker?
    ensures Registered(Next(s, step))
  {
    if step.TakeBatch? {
      TakenIsGood(s.single, s.workers[step.w]);
    }
    WorkerChange(s, step.w, Next(s, step).workers[step.w]);
  }

  lemma KeepsRegistered(s: System, step: Step)
    requires Registered(s) && Enabled(s, step)
    ensures Registered(Next(s, step))
  {
    match step {
      case Dispatch => DispatchKeepsRegistered(s);
      case DispatchNotFound => NotFoundKeepsRegistered(s);
      case Assign(p) => StartRegisters(s, Worker(p, [], None, false, 0, false));
      case Revoke(p) => RevokeKeepsRegistered(s, p);
      case TakeBatch(_) => WorkingKeepsRegistered(s, step);
      case ProcessRecord(_, _) => WorkingKeepsRegistered(s, step);
      case EndBatch(_) => WorkingKeepsRegistered(s, step);
      case EndWorker(_) => WorkingKeepsRegistered(s, step);
      case _ => PollingKeepsRegistered(s, step);
    }
  }

  // Order, class by class.

  /** If only consumer `i` changes, only the classes of its partition can change. */
  lemma OthersOutstanding(s: System, i: nat, w: Worker, c: Class)
    requires Registered(s) && i < |s.workers|
    requires c.partition != s.workers[i].partition || Pending(s.single, w, c) == Pending(s.single, s.workers[i], c)
    ensures Outstanding(s.(workers := s.workers[i := w]), c) == Outstanding(s, c)
  {
  }

  lemma DispatchOrdered(s: System, c: Class)
    requires Registered(s) && Enabled(s, Dispatch)
    ensures var f := s.poller.todo[0];
            Outstanding(Next(s, Dispatch), c) == Outstanding(s, c) + Select(s.single, f.records, c)
  {
    var f := s.poller.todo[0];
    var i := s.current[f.partition];
    assert f in s.poller.todo && ValidFetch(f);
    var w := s.workers[i];
    if c.partition == f.partition {
      PendingDispatched(s.single, w, f.records, c);
    } else {
      SelectNone(s.single, f.records, c);
      OthersOutstanding(s, i, w.(channel := w.channel + [f.records]), c);
    }
  }

  lemma PendingDispatched(single: set<nat>, w: Worker, records: seq<Record>, c: Class)
    ensures Pending(single, w.(channel := w.channel + [records]), c) ==
            Pending(single, w, c) + Select(single, records, c)
  {
    SelectAllAppend(single, w.channel, records, c);
    var lane := if w.lanes.Some? && c in w.lanes.value then w.lanes.value[c] else [];
    MovesOver(lane, SelectAll(single, w.channel, c), Select(single, records, c));
  }

  lemma {:induction false} SelectNone(single: set<nat>, rs: seq<Record>, c: Class)
    requires forall r :: r in rs ==> ClassOf(single, r) != c
    ensures Select(single, rs, c) == []
  {
    if rs != [] {
      SelectNone(single, rs[1..], c);
    }
  }

  /** Before a new consumer is registered nothing of its partition is outstanding. */
  lemma NothingLeft(s: System, p: nat, c: Class)
    requires Registered(s) && Replaceable(s, p) && c.partition == p
    ensures Outstanding(s, c) == []
  {
    if p in s.current {
      assert GoodWorker(s.single, s.workers[s.current[p]]);
    }
  }

  /** A new consumer brings what is in its channel, and nothing was outstanding in its place. */
  lemma StartOutstanding(s: System, w: Worker, c: Class)
    requires Registered(s) && Replaceable(s, w.partition) && w.lanes.None?
    ensures Outstanding(Start(s, w), c) ==
            if c.partition == w.partition then SelectAll(s.single, w.channel, c) else Outstanding(s, c)
    ensures c.partition == w.partition ==> Outstanding(s, c) == []
  {
    if c.partition == w.partition {
      NothingLeft(s, w.partition, c);
    }
  }

  lemma SelectAllOne(single: set<nat>, batch: seq<Record>, c: Class)
    ensures SelectAll(single, [batch], c) == Select(single, batch, c)
  {
    assert [batch][1..] == [];
  }

  lemma NotFoundOrdered(s: System, c: Class)
    requires Registered(s) && Enabled(s, DispatchNotFound)
    ensures var f := s.poller.todo[0];
            Outstanding(Next(s, DispatchNotFound), c) == Outstanding(s, c) + Select(s.single, f.records, c)
  {
    var f := s.poller.todo[0];
    assert f in s.poller.todo && ValidFetch(f);
    StartOutstanding(s, Close(Worker(f.partition, [f.records], None, false, 0, false)), c);
    if c.partition == f.partition {
      SelectAllOne(s.single, f.records, c);
    } else {
      SelectNone(s.single, f.records, c);
    }
  }

  lemma TakeOrdered(s: System, i: nat, c: Class)
    requires Registered(s) && Enabled(s, TakeBatch(i))
    ensures Outstanding(Next(s, TakeBatch(i)), c) == Outstanding(s, c)
  {
    var w := s.workers[i];
    GroupedKeys(s.single, w.channel[0], c);
    OthersOutstanding(s, i, Next(s, TakeBatch(i)).workers[i], c);
  }

  lemma HeadPending(single: set<nat>, w: Worker, k: Class)
    requires w.lanes.Some? && k in w.lanes.value && w.lanes.value[k] != []
    ensures var lane := w.lanes.value[k];
            [lane[0]] + Pending(single, w.(lanes := Some(w.lanes.value[k := lane[1..]])), k) == Pending(single, w, k)
  {
    var lane := w.lanes.value[k];
    assert lane == [lane[0]] + lane[1..];
  }

  /** The processed record is the next outstanding one of its class. */
  lemma ProcessOrdered(s: System, i: nat, k: Class, c: Class)
    requires Registered(s) && Enabled(s, ProcessRecord(i, k))
    ensures var r := s.workers[i].lanes.value[k][0];
            Select(s.single, [r], c) + Outstanding(Next(s, ProcessRecord(i, k)), c) == Outstanding(s, c)
  {
    var w := s.workers[i];
    var lane := w.lanes.value[k];
    assert GoodWorker(s.single, w) && lane[0] in lane;
    SelectSingle(s.single, lane[0], c);
    if c == k {
      HeadPending(s.single, w, k);
      HeadProcessed(s, i, k);
    } else {
      OthersOutstanding(s, i, Next(s, ProcessRecord(i, k)).workers[i], c);
    }
  }

  lemma SelectSingle(single: set<nat>, r: Record, c: Class)
    ensures Select(single, [r], c) == if ClassOf(single, r) == c then [r] else []
  {
    assert [r][1..] == [];
  }

  lemma HeadProcessed(s: System, i: nat, k: Class)
    requires Registered(s) && Enabled(s, ProcessRecord(i, k))
    ensures Outstanding(s, k) == Pending(s.single, s.workers[i], k)
    ensures Outstanding(Next(s, ProcessRecord(i, k)), k) ==
            Pending(s.single, Next(s, ProcessRecord(i, k)).workers[i], k)
  {
    var w := s.workers[i];
    assert GoodWorker(s.single, w);
    assert !w.done && s.current[w.partition] == i;
  }

  ghost predicate OrderedFor(s: System, c: Class) {
    Select(s.single, s.dispatched, c) == Select(s.single, s.processed, c) + Outstanding(s, c)
  }

  lemma DispatchStepOrdered(s: System, step: Step, c: Class)
    requires Registered(s) && OrderedFor(s, c) && Enabled(s, step) && (step.Dispatch? || step.DispatchNotFound?)
    ensures OrderedFor(Next(s, step), c)
  {
    var records := s.poller.todo[0].records;
    SelectAppend(s.single, s.dispatched, records, c);
    MovesOver(Select(s.single, s.processed, c), Outstanding(s, c), Select(s.single, records, c));
    if step.Dispatch? {
      DispatchOrdered(s, c);
    } else {
      NotFoundOrdered(s, c);
    }
  }

  lemma ProcessStepOrdered(s: System, i: nat, k: Class, c: Class)
    requires Registered(s) && OrderedFor(s, c) && Enabled(s, ProcessRecord(i, k))
    ensures OrderedFor(Next(s, ProcessRecord(i, k)), c)
  {
    var r := s.workers[i].lanes.value[k][0];
    var t := Next(s, ProcessRecord(i, k));
    SelectAppend(s.single, s.processed, [r], c);
    ProcessOrdered(s, i, k, c);
    MovesOver(Select(s.single, s.processed, c), Select(s.single, [r], c), Outstanding(t, c));
  }

  lemma MovesOver(done: seq<Record>, moved: seq<Record>, left: seq<Record>)
    ensures done + (moved + left) == (done + moved) + left
  {
  }

  lemma WorkingOrdered(s: System, step: Step, c: Class)
    requires Registered(s) && Enabled(s, step) && (step.EndBatch? || step.EndWorker?)
    ensures Outstanding(Next(s, step), c) == Outstanding(s, c)
  {
    OthersOutstanding(s, step.w, Next(s, step).workers[step.w], c);
  }

  lemma RevokeOrdered(s: System, p: nat, c: Class)
    requires Registered(s) && Enabled(s, Revoke(p))
    ensures Outstanding(Next(s, Revoke(p)), c) == Outstanding(s, c)
  {
    OthersOutstanding(s, s.current[p], Close(s.workers[s.current[p]]), c);
  }

  lemma OtherStepOrdered(s: System, step: Step, c: Class)
    requires Registered(s) && OrderedFor(s, c) && Enabled(s, step)
    requires !step.Dispatch? && !step.DispatchNotFound? && !step.ProcessRecord?
    ensures OrderedFor(Next(s, step), c)
  {
    match step {
      case Assign(p) => StartOutstanding(s, Worker(p, [], None, false, 0, false), c);
      case Revoke(p) => RevokeOrdered(s, p, c);
      case TakeBatch(i) => TakeOrdered(s, i, c);
      case EndBatch(_) => WorkingOrdered(s, step, c);
      case EndWorker(_) => WorkingOrdered(s, step, c);
      case _ =>
    }
  }

  lemma KeepsOrdered(s: System, step: Step)
    requires Registered(s) && Ordered(s) && Enabled(s, step)
    ensures Ordered(Next(s, step))
  {
    var t := Next(s, step);
    forall c
      ensures Select(s.single, t.dispatched, c) == Select(s.single, t.processed, c) + Outstanding(t, c)
    {
      assert OrderedFor(s, c);
      if step.Dispatch? || step.DispatchNotFound? {
        DispatchStepOrdered(s, step, c);
      } else if step.ProcessRecord? {
        ProcessStepOrdered(s, step.w, step.c, c);
      } else {
        OtherStepOrdered(s, step, c);
      }
      assert OrderedFor(t, c);
    }
  }

  /** Every reachable state satisfies the invariant. */
  lemma {:induction false} Reachable(single: set<nat>, run: seq<Step>)
    requires Possible(Initial(single), run)
    ensures Inv(After(Initial(single), run))
  {
    if run != [] {
      var init := run[..|run| - 1];
      Reachable(single, init);
      KeepsRegistered(After(Initial(single), init), run[|run| - 1]);
      KeepsOrdered(After(Initial(single), init), run[|run| - 1]);
    }
  }

  // Main results.

  function OfPartition(rs: seq<Record>, p: nat): seq<Record> {
    if rs == [] then [] else (if rs[0].partition == p then [rs[0]] else []) + OfPartition(rs[1..], p)
  }

  function OfKey(rs: seq<Record>, p: nat, key: string): seq<Record> {
    if rs == [] then [] else (if rs[0].partition == p && rs[0].key == key then [rs[0]] else []) + OfKey(rs[1..], p, key)
  }

  lemma {:induction false} SelectMeaning(single: set<nat>, rs: seq<Record>, p: nat, key: string)
    ensures p in single ==> Select(single, rs, Whole(p)) == OfPartition(rs, p)
    ensures p !in single ==> Select(single, rs, Keyed(p, key)) == OfKey(rs, p, key)
  {
    if rs != [] {
      SelectMeaning(single, rs[1..], p, key);
    }
  }

  /** The records of the fetches that did not fail. */
  function RecordsOf(fetches: seq<Fetch>): seq<Record> {
    if fetches == [] then [] else (if fetches[0].failed then [] else fetches[0].records) + RecordsOf(fetches[1..])
  }

  /** All records fetched in a run, poll after poll. */
  function Fetched(s: System, run: seq<Step>): seq<Record>
    requires Possible(s, run)
    decreases |run|
  {
    if run == [] then [] else
    Fetched(s, run[..|run| - 1]) + if run[|run| - 1].Poll? then RecordsOf(run[|run| - 1].fetches) else []
  }

  function StillToDispatch(s: System): seq<Record> {
    if s.poller.Dispatching? then RecordsOf(s.poller.todo) else []
  }

  lemma StepAccountsForFetches(s: System, step: Step)
    requires Enabled(s, step)
    ensures Next(s, step).dispatched + StillToDispatch(Next(s, step)) ==
            s.dispatched + StillToDispatch(s) + if step.Poll? then RecordsOf(step.fetches) else []
  {
    if step.Dispatch? || step.DispatchNotFound? {
      var f := s.poller.todo[0];
      assert s.dispatched + (f.records + RecordsOf(s.poller.todo[1..])) ==
             (s.dispatched + f.records) + RecordsOf(s.poller.todo[1..]);
    }
  }

  /** What was fetched is what was dispatched, followed by what the poll in progress still holds. */
  lemma {:induction false} FetchedIsDispatched(single: set<nat>, run: seq<Step>)
    requires Possible(Initial(single), run)
    ensures var s := After(Initial(single), run); Fetched(Initial(single), run) == s.dispatched + StillToDispatch(s)
  {
    if run != [] {
      var init := run[..|run| - 1];
      FetchedIsDispatched(single, init);
      StepAccountsForFetches(After(Initial(single), init), run[|run| - 1]);
    }
  }

  lemma {:induction false} OfPartitionAppend(a: seq<Record>, b: seq<Record>, p: nat)
    ensures OfPartition(a + b, p) == OfPartition(a, p) + OfPartition(b, p)
  {
    if a == [] {
      assert a + b == b;
    } else {
      OfPartitionAppend(a[1..], b, p);
      assert (a + b)[0] == a[0] && (a + b)[1..] == a[1..] + b;
      MovesOver(if a[0].partition == p then [a[0]] else [], OfPartition(a[1..], p), OfPartition(b, p));
    }
  }

  lemma {:induction false} OfKeyAppend(a: seq<Record>, b: seq<Record>, p: nat, key: string)
    ensures OfKey(a + b, p, key) == OfKey(a, p, key) + OfKey(b, p, key)
  {
    if a == [] {
      assert a + b == b;
    } else {
      OfKeyAppend(a[1..], b, p, key);
      assert (a + b)[0] == a[0] && (a + b)[1..] == a[1..] + b;
      MovesOver(if a[0].partition == p && a[0].key == key then [a[0]] else [], OfKey(a[1..], p, key), OfKey(b, p, key));
    }
  }

  /** In every reachable state the records processed of a key are, in fetch order and each once, the
      first ones dispatched; for a partition consumed by one goroutine this holds for all its records. */
  lemma ProcessedInDispatchOrder(single: set<nat>, run: seq<Step>, p: nat, key: string)
    requires Possible(Initial(single), run)
    ensures var s := After(Initial(single), run);
            && (p in single ==> OfPartition(s.processed, p) <= OfPartition(s.dispatched, p))
            && (p !in single ==> OfKey(s.processed, p, key) <= OfKey(s.dispatched, p, key))
  {
    Reachable(single, run);
    SingleFixed(single, run);
    var s := After(Initial(single), run);
    SelectMeaning(single, s.dispatched, p, key);
    SelectMeaning(single, s.processed, p, key);
    assert OrderedFor(s, Whole(p)) && OrderedFor(s, Keyed(p, key));
  }

  /** Main result: in every reachable state the records processed of a key are a prefix of the ones
      fetched of it, in fetch order and each once; for a partition consumed by one goroutine this holds
      for all its records. */
  lemma ProcessedInFetchOrder(single: set<nat>, run: seq<Step>, p: nat, key: string)
    requires Possible(Initial(single), run)
    ensures var processed, fetched := After(Initial(single), run).processed, Fetched(Initial(single), run);
            && (p in single ==> OfPartition(processed, p) <= OfPartition(fetched, p))
            && (p !in single ==> OfKey(processed, p, key) <= OfKey(fetched, p, key))
  {
    var s := After(Initial(single), run);
    ProcessedInDispatchOrder(single, run, p, key);
    FetchedIsDispatched(single, run);
    OfPartitionAppend(s.dispatched, StillToDispatch(s), p);
    OfKeyAppend(s.dispatched, StillToDispatch(s), p, key);
  }

  lemma {:induction false} SingleFixed(single: set<nat>, run: seq<Step>)
    requires Possible(Initial(single), run)
    ensures After(Initial(single), run).single == single
  {
    if run != [] {
      SingleFixed(single, run[..|run| - 1]);
    }
  }

  /** Two consumers of one partition are never both unfinished; a finished one was closed once and
      left nothing in its channel. */
  lemma OneLiveConsumer(single: set<nat>, run: seq<Step>)
    requires Possible(Initial(single), run)
    ensures var ws := After(Initial(single), run).workers;
            && (forall i, j :: 0 <= i < j < |ws| && ws[i].partition == ws[j].partition ==> ws[i].done || ws[j].done)
            && (forall i :: 0 <= i < |ws| ==> ws[i].closes <= 1)
            && (forall i :: 0 <= i < |ws| && ws[i].done ==>
                              ws[i].closes == 1 && ws[i].channel == [] && ws[i].lanes.None?)
  {
    Reachable(single, run);
    var ws := After(Initial(single), run).workers;
    assert forall i :: 0 <= i < |ws| ==> GoodWorker(After(Initial(single), run).single, ws[i]);
  }

  /** Whoever waits for a consumer to stop goes on only when the consumer has finished: it was closed
      once, its channel and its goroutines are empty, and everything ever dispatched of its partition
      has been processed, in order. */
  lemma StopEndsWhenDone(single: set<nat>, run: seq<Step>, key: string)
    requires Possible(Initial(single), run)
    ensures var s := After(Initial(single), run);
            Enabled(s, StopReturns) ==>
              var w := s.workers[s.stopping.value];
              && w.done && w.closes == 1 && w.channel == [] && w.lanes.None?
              && (w.partition in single ==>
                    OfPartition(s.processed, w.partition) == OfPartition(s.dispatched, w.partition))
              && (w.partition !in single ==>
                    OfKey(s.processed, w.partition, key) == OfKey(s.dispatched, w.partition, key))
  {
    Reachable(single, run);
    SingleFixed(single, run);
    var s := After(Initial(single), run);
    if Enabled(s, StopReturns) {
      assert GoodWorker(s.single, s.workers[s.stopping.value]);
      DoneLeavesNothing(s, s.stopping.value, key);
    }
  }

  lemma DoneLeavesNothing(s: System, i: nat, key: string)
    requires Registered(s) && Ordered(s) && i < |s.workers| && StoppingOne(s, i) && s.workers[i].done
    ensures var p := s.workers[i].partition;
            && (p in s.single ==> OfPartition(s.processed, p) == OfPartition(s.dispatched, p))
            && (p !in s.single ==> OfKey(s.processed, p, key) == OfKey(s.dispatched, p, key))
  {
    var p := s.workers[i].partition;
    assert GoodWorker(s.single, s.workers[i]);
    SelectMeaning(s.single, s.dispatched, p, key);
    SelectMeaning(s.single, s.processed, p, key);
    assert OrderedFor(s, Whole(p)) && OrderedFor(s, Keyed(p, key));
    assert Outstanding(s, Whole(p)) == [] && Outstanding(s, Keyed(p, key)) == [];
  }

  /** A consumer that is closing and has not finished is the one being waited for. */
  ghost predicate ClosingWaitedFor(s: System) {
    forall i :: 0 <= i < |s.workers| && s.workers[i].closing && !s.workers[i].done ==> s.stopping == Some(i)
  }

  lemma StepKeepsWaiting(s: System, step: Step)
    requires Registered(s) && ClosingWaitedFor(s) && Enabled(s, step)
    ensures ClosingWaitedFor(Next(s, step))
  {
  }

  lemma {:induction false} ClosingIsWaitedFor(single: set<nat>, run: seq<Step>)
    requires Possible(Initial(single), run)
    ensures ClosingWaitedFor(After(Initial(single), run))
  {
    if run != [] {
      var init := run[..|run| - 1];
      ClosingIsWaitedFor(single, init);
      Reachable(single, init);
      StepKeepsWaiting(After(Initial(single), init), run[|run| - 1]);
    }
  }

  ghost predicate Live(s: System, p: nat, i: nat) {
    i < |s.workers| && s.workers[i].partition == p && !s.workers[i].done
  }

  /** Between polls, when nobody is waited for, a partition can be revoked iff it has a consumer that
      runs, and assigned iff it has none; what is assigned runs and can be revoked again. */
  lemma AssignOrRevoke(single: set<nat>, run: seq<Step>, p: nat)
    requires Possible(Initial(single), run)
    requires After(Initial(single), run).poller.Polling? && After(Initial(single), run).stopping.None?
    ensures var s := After(Initial(single), run);
            && (Enabled(s, Revoke(p)) <==> exists i: nat :: Live(s, p, i))
            && (Enabled(s, Assign(p)) <==> forall i: nat :: !Live(s, p, i))
            && (Enabled(s, Assign(p)) ==> Enabled(Next(s, Assign(p)), Revoke(p)))
            && (Enabled(s, Revoke(p)) ==> Next(s, Revoke(p)).stopping.Some?)
  {
    var s := After(Initial(single), run);
    Reachable(single, run);
    ClosingIsWaitedFor(single, run);
    if p in s.current {
      assert GoodWorker(s.single, s.workers[s.current[p]]);
      assert Live(s, p, s.current[p]) <==> !s.workers[s.current[p]].done;
    }
  }

  /** No consumer's channel ever holds more batches than its capacity. */
  ghost predicate Bounded(s: System) {
    forall i :: 0 <= i < |s.workers| ==> |s.workers[i].channel| <= CHANNEL_CAPACITY
  }

  lemma StepKeepsBounded(s: System, step: Step)
    requires Bounded(s) && Enabled(s, step)
    ensures Bounded(Next(s, step))
  {
  }

  lemma {:induction false} ChannelsBounded(single: set<nat>, run: seq<Step>, i: nat)
    requires Possible(Initial(single), run) && i < |After(Initial(single), run).workers|
    ensures |After(Initial(single), run).workers[i].channel| <= 100
  {
    AlwaysBounded(single, run);
  }

  lemma {:induction false} AlwaysBounded(single: set<nat>, run: seq<Step>)
    requires Possible(Initial(single), run)
    ensures Bounded(After(Initial(single), run))
  {
    if run != [] {
      var init := run[..|run| - 1];
      AlwaysBounded(single, init);
      StepKeepsBounded(After(Initial(single), init), run[|run| - 1]);
    }
  }

  lemma AllProcessed(s: System)
    requires Inv(s)
    ensures |s.processed| <= |s.dispatched|
    ensures |s.processed| == |s.dispatched| <==> SameOrder(s.single, s.processed, s.dispatched)
  {
    forall c
      ensures Select(s.single, s.processed, c) <= Select(s.single, s.dispatched, c)
    {
      assert OrderedFor(s, c);
    }
    Complete(s.single, s.processed, s.dispatched);
    if SameOrder(s.single, s.processed, s.dispatched) {
      forall c
        ensures Select(s.single, s.dispatched, c) <= Select(s.single, s.processed, c)
      {
        assert Select(s.single, s.processed, c) == Select(s.single, s.dispatched, c);
      }
      Complete(s.single, s.dispatched, s.processed);
    }
  }

  /** The wait-group counter is the number of records dispatched and not yet processed, plus what the
      not-found path added twice; it is never negative, and nothing is sent on a closed channel. */
  lemma WaitGroupCounts(single: set<nat>, run: seq<Step>)
    requires Possible(Initial(single), run)
    ensures var s := After(Initial(single), run);
            && s.wg == |s.dispatched| - |s.processed| + s.leaked
            && s.wg >= s.leaked
            && (Enabled(s, Dispatch) ==> !s.workers[s.current[s.poller.todo[0].partition]].closing)
  {
    Reachable(single, run);
    AllProcessed(After(Initial(single), run));
  }

  /** Once a poll has dispatched everything and holds no lock, the barrier opens iff every record
      ever dispatched has been processed, in order, and no poll took the not-found path with records. */
  lemma BarrierOpens(single: set<nat>, run: seq<Step>)
    requires Possible(Initial(single), run)
    requires After(Initial(single), run).poller == Dispatching([]) && After(Initial(single), run).stopping.None?
    ensures var s := After(Initial(single), run);
            Enabled(s, AllowRebalance) <==>
            s.leaked == 0 && SameOrder(s.single, s.processed, s.dispatched)
  {
    Reachable(single, run);
    AllProcessed(After(Initial(single), run));
  }

  /** After the not-found path has handled a record, the poll loop never gets past its barrier again. */
  lemma {:induction false} LeakBlocksForever(single: set<nat>, run: seq<Step>, more: seq<Step>)
    requires Possible(Initial(single), run) && Possible(Initial(single), run + more)
    requires After(Initial(single), run).leaked > 0
    ensures After(Initial(single), run + more).leaked > 0
    ensures !Enabled(After(Initial(single), run + more), AllowRebalance)
  {
    if more == [] {
      assert run + more == run;
    } else {
      assert (run + more)[..|run + more| - 1] == run + more[..|more| - 1];
      LeakBlocksForever(single, run, more[..|more| - 1]);
    }
    WaitGroupCounts(single, run + more);
  }

  /** The not-found path is reachable: a fetch for a partition without a consumer. */
  lemma LeakHappens(r: Record)
    ensures var run := [Poll([Fetch(r.partition, false, [r])]), DispatchNotFound];
            Possible(Initial({}), run) && After(Initial({}), run).leaked == 1
  {
    var start := Initial({});
    var poll := Poll([Fetch(r.partition, false, [r])]);
    var fetched, both := [poll], [poll, DispatchNotFound];
    assert fetched[..|fetched| - 1] == [] && both[..|both| - 1] == fetched;
    assert Possible(start, []) && After(start, []) == start;
    assert Possible(start, fetched) && After(start, fetched) == Next(start, fetched[0]);
    assert Enabled(After(start, fetched), DispatchNotFound);
  }
}
