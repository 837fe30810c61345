/** The LISTEN/NOTIFY listener (connectors/storage/v2/api.go): a loop that waits for notifications,
    reconnects after connection errors, and gives up after ten errors in a row. The database, the
    clock and cancellation are an arbitrary script of turns, one per loop iteration. */
module Listener {
  import opened Wrappers
  import opened Ledgers

  const MAX_CONSECUTIVE_ERRORS: nat := 10
  const CHANNEL_CAPACITY: nat := 1000

  type Notification = string

  /** What one attempt to connect meets: the wait before it is interrupted (`cancelled`: is the
      context cancelled by then?), no connection to be had, LISTEN refused, or success. */
  datatype ConnectOutcome = Interrupted(cancelled: bool) | AcquireFails | ListenFails | Connected

  /** What waiting for a notification ends with. `stopping`: the context or the listener is done when
      the notification is handed on; `dropped`: then the select may choose to drop it. */
  datatype WaitOutcome =
    | Received(notification: Notification, stopping: bool, dropped: bool)
    | CancelledWait
    | ConnectionLost
    | Transient(cancelledInBackoff: bool)

  /** One loop iteration: the user takes up to `taken` notifications from the channel, the loop sees
      (or does not see) the cancellation, and then, as far as they are needed, come the outcomes of
      connecting, of waiting, and of reconnecting. */
  datatype Turn = Turn(
    taken: nat,
    cancelled: bool,
    connect: ConnectOutcome,
    wait: WaitOutcome,
    reconnect: ConnectOutcome
  )

  datatype Stop = Cancelled | TooManyErrors

  /** What the error budget depends on, in order of occurrence. */
  datatype Mark = Failure | Success

  /** How many failures there were since the last successful connect or received notification. */
  function FailuresSinceSuccess(marks: seq<Mark>): nat {
    if marks == [] || marks[|marks| - 1].Success? then 0 else 1 + FailuresSinceSuccess(marks[..|marks| - 1])
  }

  lemma {:induction false} FailuresAtTheEnd(marks: seq<Mark>, k: nat)
    ensures FailuresSinceSuccess(marks) >= k <==>
            k <= |marks| && forall i :: |marks| - k <= i < |marks| ==> marks[i].Failure?
  {
    if marks != [] && k > 0 {
      var init := marks[..|marks| - 1];
      FailuresAtTheEnd(init, k - 1);
      if marks[|marks| - 1].Failure? {
        assert forall i :: 0 <= i < |init| ==> init[i] == marks[i];
      }
    }
  }

  lemma MarksCounted(marks: seq<Mark>, mark: Mark)
    ensures FailuresSinceSuccess(marks + [mark]) == if mark.Success? then 0 else FailuresSinceSuccess(marks) + 1
  {
    assert (marks + [mark])[..|marks|] == marks;
  }

  /* ---- What a run does ---- */

  /** `received` and `taken` are histories: what came from the database, and what the user took from
      the channel. */
  datatype State = State(
    connected: bool,
    marks: seq<Mark>,
    queue: seq<Notification>,
    taken: seq<Notification>,
    received: seq<Notification>
  )

  function Failing(s: State): (State, Option<Stop>) {
    var marks := s.marks + [Failure];
    (s.(marks := marks),
     if FailuresSinceSuccess(marks) >= MAX_CONSECUTIVE_ERRORS then Some(TooManyErrors) else None)
  }

  function Succeeding(s: State): State {
    s.(connected := true, marks := s.marks + [Success])
  }

  /** Handing a notification on never blocks: a full channel loses it, a stopping listener may. */
  function Offered(queue: seq<Notification>, w: WaitOutcome): seq<Notification>
    requires w.Received?
  {
    if (w.stopping && w.dropped) || |queue| >= CHANNEL_CAPACITY then queue else queue + [w.notification]
  }

  function Taken(s: State, count: nat): State {
    var k := if count < |s.queue| then count else |s.queue|;
    s.(queue := s.queue[k..], taken := s.taken + s.queue[..k])
  }

  function AfterConnecting(s: State, outcome: ConnectOutcome): (State, Option<Stop>) {
    if s.connected then (s, None) else
    match outcome
    case Interrupted(cancelled) => (s, if cancelled then Some(Cancelled) else None)
    case Connected => (Succeeding(s), None)
    case _ => Failing(s)
  }

  /** A failed reconnect is not counted again: the lost connection already was. */
  function AfterReconnecting(s: State, outcome: ConnectOutcome): (State, Option<Stop>) {
    match outcome
    case Interrupted(cancelled) => (s.(connected := false), if cancelled then Some(Cancelled) else None)
    case Connected => (Succeeding(s), None)
    case _ => (s.(connected := false), None)
  }

  function AfterWaiting(s: State, turn: Turn): (State, Option<Stop>) {
    if !s.connected then (s, None) else
    match turn.wait
    case Received(notification, _, _) =>
      (Succeeding(s).(queue := Offered(s.queue, turn.wait), received := s.received + [notification]), None)
    case CancelledWait => (s, Some(Cancelled))
    case Transient(cancelled) =>
      var (failed, stop) := Failing(s);
      (failed, if stop.None? && cancelled then Some(Cancelled) else stop)
    case ConnectionLost =>
      var (failed, stop) := Failing(s);
      if stop.Some? then (failed, stop) else AfterReconnecting(failed, turn.reconnect)
  }

  function Advance(s: State, turn: Turn): (State, Option<Stop>) {
    var taken := Taken(s, turn.taken);
    if turn.cancelled then (taken, Some(Cancelled)) else
    var (ready, stop) := AfterConnecting(taken, turn.connect);
    if stop.Some? then (ready, stop) else AfterWaiting(ready, turn)
  }

  /** The state in which the turns leave the loop, and why it stopped if it did. */
  function Run(s: State, turns: seq<Turn>): (State, Option<Stop>)
    decreases |turns|
  {
    if turns == [] then (s, None) else
    var (next, stop) := Advance(s, turns[0]);
    if stop.Some? then (next, stop) else Run(next, turns[1..])
  }

  /* ---- What every run keeps ---- */

  ghost predicate WithinBudget(s: State) {
    FailuresSinceSuccess(s.marks) < MAX_CONSECUTIVE_ERRORS && |s.queue| <= CHANNEL_CAPACITY
  }

  /** The error budget of one outcome: used up exactly when that is why the loop stops. */
  ghost predicate BudgetMeaning(s: State, stop: Option<Stop>) {
    && |s.queue| <= CHANNEL_CAPACITY
    && FailuresSinceSuccess(s.marks) <= MAX_CONSECUTIVE_ERRORS
    && (stop == Some(TooManyErrors) <==> FailuresSinceSuccess(s.marks) == MAX_CONSECUTIVE_ERRORS)
  }

  lemma FailingCounts(s: State)
    requires WithinBudget(s)
    ensures BudgetMeaning(Failing(s).0, Failing(s).1)
    ensures WithinBudget(Succeeding(s)) && WithinBudget(Succeeding(Failing(s).0))
  {
    MarksCounted(s.marks, Failure);
    MarksCounted(s.marks, Success);
    MarksCounted(s.marks + [Failure], Success);
  }

  lemma ConnectingKeepsBudget(s: State, outcome: ConnectOutcome)
    requires WithinBudget(s)
    ensures BudgetMeaning(AfterConnecting(s, outcome).0, AfterConnecting(s, outcome).1)
  {
    FailingCounts(s);
  }

  lemma LosingKeepsBudget(s: State, turn: Turn)
    requires WithinBudget(s) && s.connected && turn.wait.ConnectionLost?
    ensures BudgetMeaning(AfterWaiting(s, turn).0, AfterWaiting(s, turn).1)
  {
    FailingCounts(s);
    var (failed, stop) := Failing(s);
    assert stop.None? || stop == Some(TooManyErrors);
  }

  lemma RetryingKeepsBudget(s: State, turn: Turn)
    requires WithinBudget(s) && s.connected && turn.wait.Transient?
    ensures BudgetMeaning(AfterWaiting(s, turn).0, AfterWaiting(s, turn).1)
  {
    FailingCounts(s);
    var (failed, stop) := Failing(s);
    assert stop.None? || stop == Some(TooManyErrors);
  }

  lemma ReceivingKeepsBudget(s: State, turn: Turn)
    requires WithinBudget(s) && s.connected && turn.wait.Received?
    ensures BudgetMeaning(AfterWaiting(s, turn).0, AfterWaiting(s, turn).1)
  {
    MarksCounted(s.marks, Success);
  }

  lemma WaitingKeepsBudget(s: State, turn: Turn)
    requires WithinBudget(s)
    ensures BudgetMeaning(AfterWaiting(s, turn).0, AfterWaiting(s, turn).1)
  {
    if s.connected {
      match turn.wait
      case Received(_, _, _) => ReceivingKeepsBudget(s, turn);
      case Transient(_) => RetryingKeepsBudget(s, turn);
      case ConnectionLost => LosingKeepsBudget(s, turn);
      case CancelledWait =>
    }
  }

  lemma AdvanceKeepsBudget(s: State, turn: Turn)
    requires WithinBudget(s)
    ensures BudgetMeaning(Advance(s, turn).0, Advance(s, turn).1)
  {
    var taken := Taken(s, turn.taken);
    ConnectingKeepsBudget(taken, turn.connect);
    var (ready, stop) := AfterConnecting(taken, turn.connect);
    if stop.None? {
      WaitingKeepsBudget(ready, turn);
    }
  }

  /** In every run the channel stays within its capacity, and the loop stops for errors exactly when
      ten failures have been counted with no success in between: never earlier, never later. */
  lemma {:induction false} StopsAtTheTenthFailure(s: State, turns: seq<Turn>)
    requires WithinBudget(s)
    ensures BudgetMeaning(Run(s, turns).0, Run(s, turns).1)
    ensures Run(s, turns).1 == Some(TooManyErrors) <==> FailuresSinceSuccess(Run(s, turns).0.marks) == 10
    decreases turns
  {
    if turns != [] {
      AdvanceKeepsBudget(s, turns[0]);
      if Advance(s, turns[0]).1.None? {
        StopsAtTheTenthFailure(Advance(s, turns[0]).0, turns[1..]);
      }
    }
  }

  /** What one turn does to the connection and why it stops the loop, read off its outcomes. */
  lemma TurnMeaning(s: State, turn: Turn)
    ensures var (t, stop) := Advance(s, turn);
            var tries := !turn.cancelled && !s.connected;
            var waits := !turn.cancelled && (s.connected || turn.connect.Connected?);
            var lost := waits && turn.wait.ConnectionLost? && stop != Some(TooManyErrors);
            && (stop == Some(Cancelled) <==>
                || turn.cancelled
                || (tries && turn.connect == Interrupted(true))
                || (waits && turn.wait.CancelledWait?)
                || (waits && turn.wait == Transient(true) && stop != Some(TooManyErrors))
                || (lost && turn.reconnect == Interrupted(true)))
            && (t.connected <==> (s.connected || waits) && (lost ==> turn.reconnect.Connected?))
  {
  }

  /** What one turn counts: an attempt to connect, the wait, and a reconnect if it succeeds. */
  lemma TurnCounts(s: State, turn: Turn)
    ensures var (t, stop) := Advance(s, turn);
            var tries := !turn.cancelled && !s.connected;
            var waits := !turn.cancelled && (s.connected || turn.connect.Connected?);
            var first := if tries && turn.connect.Connected? then [Success]
                         else if tries && !turn.connect.Interrupted? then [Failure] else [];
            var second := if waits && turn.wait.Received? then [Success]
                          else if waits && !turn.wait.CancelledWait? then [Failure] else [];
            var third := if waits && turn.wait.ConnectionLost? && stop != Some(TooManyErrors) &&
                            turn.reconnect.Connected? then [Success] else [];
            t.marks == s.marks + first + second + third
  {
    assert s.marks + [] == s.marks && s.marks + [] + [] == s.marks;
  }

  /* ---- What is delivered ---- */

  /** The turn gets as far as receiving a notification. */
  predicate Receives(s: State, turn: Turn) {
    !turn.cancelled && (s.connected || turn.connect.Connected?) && turn.wait.Received?
  }

  /** When it does, there is room in the channel, and the notification is not dropped on the way out. */
  predicate HandsOn(s: State, turn: Turn) {
    Receives(s, turn) ==> |s.queue| - turn.taken < CHANNEL_CAPACITY && !(turn.wait.stopping && turn.wait.dropped)
  }

  predicate AllHandedOn(s: State, turns: seq<Turn>)
    decreases |turns|
  {
    turns == [] ||
    (HandsOn(s, turns[0]) && (Advance(s, turns[0]).1.Some? || AllHandedOn(Advance(s, turns[0]).0, turns[1..])))
  }

  /** What became of the notifications received: the user has taken some, others wait in the channel. */
  function Delivered(s: State): seq<Notification> {
    s.taken + s.queue
  }

  lemma TakingDelivers(s: State, count: nat)
    ensures Delivered(Taken(s, count)) == Delivered(s)
    ensures Taken(s, count).taken == s.taken + s.queue[..if count < |s.queue| then count else |s.queue|]
  {
  }

  /** One turn takes from the front of the channel, and puts what it receives, if there is room, at its
      end. */
  lemma AdvanceDelivers(s: State, turn: Turn)
    ensures var t := Advance(s, turn).0;
            var arrives := !turn.cancelled && (s.connected || turn.connect.Connected?) && turn.wait.Received?;
            var fits := arrives && |s.queue| - turn.taken < 1000 && !(turn.wait.stopping && turn.wait.dropped);
            && t.taken == s.taken + s.queue[..if turn.taken < |s.queue| then turn.taken else |s.queue|]
            && t.received == s.received + (if arrives then [turn.wait.notification] else [])
            && t.taken + t.queue == s.taken + s.queue + if fits then [turn.wait.notification] else []
  {
    var t := Taken(s, turn.taken);
    TakingDelivers(s, turn.taken);
    assert t.received + [] == t.received && Delivered(t) + [] == Delivered(t);
    if Receives(s, turn) {
      var n := turn.wait.notification;
      assert t.taken + (t.queue + [n]) == (t.taken + t.queue) + [n];
    }
  }

  /** Main result, delivery: over every run, what the user took followed by what is in the channel is
      what was received, in order, with some left out; and nothing is left out iff at every receipt the
      channel had room and the listener was not dropping the notification because it was stopping. */
  lemma {:induction false} InOrderDelivery(s: State, turns: seq<Turn>)
    requires Subsequence(s.taken + s.queue, s.received)
    ensures var t := Run(s, turns).0;
            && s.received <= t.received
            && Subsequence(t.taken + t.queue, t.received)
            && |t.received| - |t.taken + t.queue| >= |s.received| - |s.taken + s.queue|
            && (s.taken + s.queue == s.received ==> (t.taken + t.queue == t.received <==> AllHandedOn(s, turns)))
    decreases |turns|
  {
    if turns != [] {
      var turn := turns[0];
      var (next, stop) := Advance(s, turn);
      AdvanceDelivers(s, turn);
      var got := if Receives(s, turn) then [turn.wait.notification] else [];
      var kept := if Receives(s, turn) && HandsOn(s, turn) then [turn.wait.notification] else [];
      SubsequenceAppend(Delivered(s), s.received, kept, got);
      if stop.None? {
        InOrderDelivery(next, turns[1..]);
      }
    }
  }

  lemma OneTurn(s: State, turns: seq<Turn>)
    requires turns != [] && Advance(s, turns[0]).1.None?
    ensures Run(s, turns) == Run(Advance(s, turns[0]).0, turns[1..])
  {
  }

  /** Losing one takes no more than a stopping listener whose select chooses to return. */
  lemma LossHappens(n: Notification)
    ensures var start := State(true, [], [], [], []);
            var end := Run(start, [Turn(0, false, Connected, Received(n, true, true), Connected)]).0;
            end.received == [n] && end.taken + end.queue == []
  {
    var start := State(true, [], [], [], []);
    var turn := Turn(0, false, Connected, Received(n, true, true), Connected);
    AdvanceDelivers(start, turn);
    OneTurn(start, [turn]);
  }

  /** The one kind of turn that neither stops the loop nor counts anything: the wait before connecting
      is interrupted by `done` while the context is still alive. */
  predicate Spins(s: State, turn: Turn) {
    !s.connected && !turn.cancelled && turn.connect == Interrupted(false)
  }

  lemma {:induction false} CountsUnlessSpinning(s: State, turn: Turn)
    ensures s.marks <= Advance(s, turn).0.marks
    ensures Advance(s, turn).1.None? ==> (Advance(s, turn).0.marks == s.marks <==> Spins(s, turn))
  {
    var ready := AfterConnecting(Taken(s, turn.taken), turn.connect);
    assert s.marks <= ready.0.marks;
    if !turn.cancelled && ready.1.None? {
      assert ready.0.marks <= Advance(s, turn).0.marks;
    }
  }

  lemma SpinChangesNothing(s: State, turn: Turn)
    requires Spins(s, turn) && turn.taken == 0
    ensures Advance(s, turn) == (s, None)
  {
    assert s.taken + s.queue[..0] == s.taken && s.queue[0..] == s.queue;
    assert Taken(s, 0) == s;
  }

  /** Such turns change nothing, so they can go on for ever. */
  lemma {:induction false} SpinningMakesNoProgress(s: State, turns: seq<Turn>)
    requires forall k :: 0 <= k < |turns| ==> Spins(s, turns[k]) && turns[k].taken == 0
    ensures Run(s, turns) == (s, None)
  {
    if turns != [] {
      SpinChangesNothing(s, turns[0]);
      OneTurn(s, turns);
      SpinningMakesNoProgress(s, turns[1..]);
    }
  }

  /** `Close` cancels the context before it closes the `done` channel, so an interrupted wait always
      finds the context cancelled: no turn spins. */
  predicate CloseOrder(turn: Turn) {
    turn.connect.Interrupted? ==> turn.connect.cancelled
  }

  lemma {:induction false} FailuresBound(marks: seq<Mark>, more: seq<Mark>)
    requires Success !in more
    ensures FailuresSinceSuccess(marks + more) == FailuresSinceSuccess(marks) + |more|
  {
    if more == [] {
      assert marks + more == marks;
    } else {
      var init := more[..|more| - 1];
      assert more[|more| - 1] in more && forall m :: m in init ==> m in more;
      assert marks + more == (marks + init) + [more[|more| - 1]];
      FailuresBound(marks, init);
      MarksCounted(marks + init, more[|more| - 1]);
    }
  }

  /** A run that has not stopped has added a mark for every turn. */
  lemma {:induction false} OneMarkPerTurn(s: State, turns: seq<Turn>)
    requires forall t :: t in turns ==> CloseOrder(t)
    requires Run(s, turns).1.None?
    ensures s.marks <= Run(s, turns).0.marks && |Run(s, turns).0.marks| >= |s.marks| + |turns|
    decreases turns
  {
    if turns != [] {
      assert CloseOrder(turns[0]);
      CountsUnlessSpinning(s, turns[0]);
      OneMarkPerTurn(Advance(s, turns[0]).0, turns[1..]);
    }
  }

  /** From any loop head: ten iterations later the loop has stopped, or has connected or received a
      notification in between. */
  lemma {:induction false} ProgressWithinTenTurns(s: State, turns: seq<Turn>)
    requires WithinBudget(s)
    requires forall t :: t in turns ==> CloseOrder(t)
    requires |turns| >= MAX_CONSECUTIVE_ERRORS
    ensures Run(s, turns).1.Some? || (s.marks <= Run(s, turns).0.marks && Success in Run(s, turns).0.marks[|s.marks|..])
  {
    var (last, stop) := Run(s, turns);
    if stop.None? {
      OneMarkPerTurn(s, turns);
      var more := last.marks[|s.marks|..];
      if Success !in more {
        assert last.marks == s.marks + more;
        FailuresBound(s.marks, more);
        StopsAtTheTenthFailure(s, turns);
        assert false;
      }
    }
  }

  /* ---- The listener ---- */

  class Listener {
    /** Connections are named by the order in which they were acquired. */
    var conn: Option<nat>
    var acquired: nat
    var released: seq<nat>
    var consecutiveErrors: nat
    var queue: seq<Notification>
    var channelClosed: bool
    /** Every failure counted and every reset, in order. */
    ghost var marks: seq<Mark>
    ghost var taken: seq<Notification>
    ghost var received: seq<Notification>

    /** Every connection acquired was released exactly once, except the one held. */
    ghost predicate Accounted()
      reads this
    {
      && (conn.Some? ==> conn.value < acquired)
      && forall id: nat :: Occurrences(released, id) == if id < acquired && conn != Some(id) then 1 else 0
    }

    ghost predicate Valid()
      reads this
    {
      Accounted() && consecutiveErrors == FailuresSinceSuccess(marks)
    }

    ghost function Abstract(): State
      reads this
    {
      State(conn.Some?, marks, queue, taken, received)
    }

    /** `Listen`: a first connection, given back if LISTEN is refused. */
    constructor (first: ConnectOutcome)
      requires !first.Interrupted?
      ensures Valid() && !channelClosed && Abstract() == State(first.Connected?, [], [], [], [])
      ensures first.AcquireFails? <==> acquired == 0
    {
      conn := if first.Connected? then Some(0) else None;
      acquired := if first.AcquireFails? then 0 else 1;
      released := if first.ListenFails? then [0] else [];
      consecutiveErrors, queue, channelClosed := 0, [], false;
      marks, taken, received := [], [], [];
      new;
      assert [0 as nat][1..] == [];
    }

    method CountSuccess()
      requires Accounted()
      modifies this`consecutiveErrors, this`marks
      ensures Valid() && marks == old(marks) + [Success] && consecutiveErrors == 0
    {
      MarksCounted(marks, Success);
      consecutiveErrors, marks := 0, marks + [Success];
    }

    /** One failure more; the tenth in a row ends the listener. */
    method CountFailure() returns (stop: Option<Stop>)
      requires Valid()
      modifies this`consecutiveErrors, this`marks
      ensures Valid() && (Abstract(), stop) == Failing(old(Abstract()))
    {
      MarksCounted(marks, Failure);
      consecutiveErrors, marks := consecutiveErrors + 1, marks + [Failure];
      stop := if consecutiveErrors >= MAX_CONSECUTIVE_ERRORS then Some(TooManyErrors) else None;
    }

    /** `releaseCurrentConnection` and `cleanupConnection`. */
    method Release()
      requires Accounted()
      modifies this`conn, this`released
      ensures Accounted() && conn == None
    {
      if conn.Some? {
        var was := released;
        released := released + [conn.value];
        forall id: nat
          ensures Occurrences(released, id) == Occurrences(was, id) + if conn == Some(id) then 1 else 0
        {
          OccursAppend(was, [conn.value], id);
          assert [conn.value][1..] == [];
        }
        conn := None;
      }
    }

    /** `connect`, called only without a connection: success resets the error count. */
    method Connect(outcome: ConnectOutcome) returns (connected: bool, shouldStop: bool)
      requires Valid() && conn == None
      modifies this`conn, this`acquired, this`released, this`consecutiveErrors, this`marks
      ensures Valid()
      ensures shouldStop <==> outcome.Interrupted?
      ensures connected <==> outcome.Connected?
      ensures Abstract() == if connected then Succeeding(old(Abstract())) else old(Abstract())
    {
      if outcome.Interrupted? {
        return false, true;
      }
      if outcome.AcquireFails? {
        return false, false;
      }
      conn := Some(acquired);
      acquired := acquired + 1;
      if outcome.ListenFails? {
        Release();
        return false, false;
      }
      CountSuccess();
      return true, false;
    }

    /** `ensureConnection`. An interruption with the context still alive is not an error. */
    method EnsureConnection(outcome: ConnectOutcome) returns (stop: Option<Stop>)
      requires Valid()
      modifies this`conn, this`acquired, this`released, this`consecutiveErrors, this`marks
      ensures Valid() && (Abstract(), stop) == AfterConnecting(old(Abstract()), outcome)
    {
      if conn.Some? {
        return None;
      }
      var connected, shouldStop := Connect(outcome);
      if shouldStop {
        return if outcome.cancelled then Some(Cancelled) else None;
      }
      if !connected {
        stop := CountFailure();
        return;
      }
      return None;
    }

    /** `sendNotification`: it never blocks, and loses the notification only if the channel is full or
        the listener is stopping. */
    method SendNotification(w: WaitOutcome)
      requires w.Received? && !channelClosed
      modifies this`queue
      ensures |old(queue)| < CHANNEL_CAPACITY && !(w.stopping && w.dropped) ==> queue == old(queue) + [w.notification]
      ensures |old(queue)| >= CHANNEL_CAPACITY || (w.stopping && w.dropped) ==> queue == old(queue)
    {
      if w.stopping && w.dropped {
        return;
      }
      if |queue| < CHANNEL_CAPACITY {
        queue := queue + [w.notification];
      }
    }

    /** `handleConnectionError`. */
    method HandleConnectionError(reconnect: ConnectOutcome) returns (stop: Option<Stop>)
      requires Valid()
      modifies this`conn, this`acquired, this`released, this`consecutiveErrors, this`marks
      ensures Valid() && (Abstract(), stop) == AfterReconnecting(old(Abstract()), reconnect)
    {
      Release();
      var connected, shouldStop := Connect(reconnect);
      return if shouldStop && reconnect.cancelled then Some(Cancelled) else None;
    }

    /** `handleNotificationError`, with `handleTransientError`. */
    method HandleNotificationError(turn: Turn) returns (stop: Option<Stop>)
      requires Valid() && conn.Some? && !turn.wait.Received?
      modifies this`conn, this`acquired, this`released, this`consecutiveErrors, this`marks
      ensures Valid() && (Abstract(), stop) == AfterWaiting(old(Abstract()), turn)
    {
      if turn.wait.CancelledWait? {
        return Some(Cancelled);
      }
      stop := CountFailure();
      if stop.Some? {
        return;
      }
      if turn.wait.ConnectionLost? {
        stop := HandleConnectionError(turn.reconnect);
        return;
      }
      return if turn.wait.cancelledInBackoff then Some(Cancelled) else None;
    }

    /** `processNotification`. */
    method ProcessNotification(turn: Turn) returns (stop: Option<Stop>)
      requires Valid() && !channelClosed
      modifies this
      ensures Valid() && !channelClosed && (Abstract(), stop) == AfterWaiting(old(Abstract()), turn)
    {
      if conn.None? {
        return None;
      }
      if !turn.wait.Received? {
        stop := HandleNotificationError(turn);
        return;
      }
      received := received + [turn.wait.notification];
      CountSuccess();
      SendNotification(turn.wait);
      return None;
    }

    /** One iteration of the loop. */
    method Iterate(turn: Turn) returns (stop: Option<Stop>)
      requires Valid() && !channelClosed
      modifies this
      ensures Valid() && !channelClosed && (Abstract(), stop) == Advance(old(Abstract()), turn)
    {
      var count := if turn.taken < |queue| then turn.taken else |queue|;
      queue, taken := queue[count..], taken + queue[..count];
      if turn.cancelled {
        return Some(Cancelled);
      }
      stop := EnsureConnection(turn.connect);
      if stop.None? {
        stop := ProcessNotification(turn);
      }
    }

    /** `receiveNotifications` over a script of turns: it stops, or the script ends at a loop head.
        However it ends, no connection was released twice; when it stops, every connection acquired
        has been released exactly once, and only then is the channel closed. */
    method ReceiveNotifications(turns: seq<Turn>) returns (stop: Option<Stop>)
      requires Valid() && !channelClosed
      modifies this
      ensures Valid()
      ensures var (end, why) := Run(old(Abstract()), turns);
              stop == why && Abstract().(connected := end.connected) == end
      ensures stop.None? ==> !channelClosed && (conn.Some? <==> Run(old(Abstract()), turns).0.connected)
      ensures stop.Some? ==> channelClosed && conn == None
      ensures stop.Some? ==> forall id: nat :: id < acquired ==> Occurrences(released, id) == 1
    {
      stop := None;
      var i := 0;
      while stop.None? && i < |turns|
        invariant 0 <= i <= |turns| && Valid() && !channelClosed
        invariant Run(old(Abstract()), turns) == if stop.Some? then (Abstract(), stop) else Run(Abstract(), turns[i..])
        decreases |turns| - i
      {
        stop := Iterate(turns[i]);
        i := i + 1;
      }
      if stop.Some? {
        Release();
        channelClosed := true;
      }
    }
  }
}
