/** The buffering sink of the push client (notifications/push/sink.go): notifications are cut into
    batches of 500 and handed over as slices of the buffer's own backing array. */
module PushSink {
  import opened Wrappers
  import opened GoSlices

  const BATCH_SIZE: nat := 500
  const BUFFERING_DEADLINE: nat := 1_000_000_000
  const TICKER_DEADLINE: nat := 3 * BUFFERING_DEADLINE

  /** A notification in the sink: which one it is and when `accept` took it. */
  datatype Item = Item(id: nat, at: int)

  type Batch = seq<Item>

  // The sink on values: the specification of `accept` and `stop`.

  datatype State = State(buffer: Batch, resetAt: Option<int>)

  /** Cut off batches of 500 while there are that many. */
  function FullBatches(buffer: Batch): seq<Batch> {
    if |buffer| < BATCH_SIZE then [] else [buffer[..BATCH_SIZE]] + FullBatches(buffer[BATCH_SIZE..])
  }

  function Remainder(buffer: Batch): Batch {
    if |buffer| < BATCH_SIZE then buffer else Remainder(buffer[BATCH_SIZE..])
  }

  function Late(s: State, now: int): bool {
    s.resetAt.Some? && now - s.resetAt.value >= BUFFERING_DEADLINE
  }

  /** `accept` on an open sink: the new state and the batches put on the channel, in order. A timer
      tick is an `accept` of nothing. */
  function AcceptStep(s: State, item: Option<Item>, now: int): (State, seq<Batch>) {
    var buffer := if item.Some? then s.buffer + [item.value] else s.buffer;
    if |buffer| < BATCH_SIZE && !Late(s, now) then
      (State(buffer, if s.resetAt.Some? then s.resetAt else Some(now)), [])
    else
      FlushStep(buffer, Late(s, now), now)
  }

  function FlushStep(buffer: Batch, late: bool, now: int): (State, seq<Batch>) {
    if late && Remainder(buffer) != [] then
      (State([], Some(now)), FullBatches(buffer) + [Remainder(buffer)])
    else
      (State(Remainder(buffer), Some(now)), FullBatches(buffer))
  }

  /** What `stop` puts on the channel. */
  function Drain(buffer: Batch): seq<Batch> {
    if buffer == [] then [] else FullBatches(buffer) + [Remainder(buffer)]
  }

  function Flatten(batches: seq<Batch>): Batch {
    if batches == [] then [] else batches[0] + Flatten(batches[1..])
  }

  lemma {:induction false} FlattenAppend(a: seq<Batch>, b: seq<Batch>)
    ensures Flatten(a + b) == Flatten(a) + Flatten(b)
  {
    if a == [] {
      assert a + b == b;
    } else {
      assert (a + b)[1..] == a[1..] + b;
      FlattenAppend(a[1..], b);
    }
  }

  lemma FlattenOne(b: Batch)
    ensures Flatten([b]) == b
  {
    assert [b][1..] == [];
  }

  /** Cutting loses nothing: full batches and remainder make up the buffer. */
  lemma {:induction false} CutIsPartition(buffer: Batch)
    ensures Flatten(FullBatches(buffer)) + Remainder(buffer) == buffer
  {
    if |buffer| >= BATCH_SIZE {
      CutIsPartition(buffer[BATCH_SIZE..]);
      assert FullBatches(buffer)[1..] == FullBatches(buffer[BATCH_SIZE..]);
    }
  }

  lemma OneBatchLess(n: nat)
    requires n >= BATCH_SIZE
    ensures (n - BATCH_SIZE) % BATCH_SIZE == n % BATCH_SIZE <= n - BATCH_SIZE
  {
  }

  /** The slice of the source that starts a multiple of the batch size before the end. */
  lemma {:induction false} RemainderSlice(buffer: Batch)
    ensures Remainder(buffer) == buffer[|buffer| - |buffer| % BATCH_SIZE..]
  {
    if |buffer| >= BATCH_SIZE {
      RemainderSlice(buffer[BATCH_SIZE..]);
      OneBatchLess(|buffer|);
    }
  }

  lemma RestOfBatches(n: nat)
    ensures n % BATCH_SIZE <= n
    ensures n < BATCH_SIZE ==> n % BATCH_SIZE == n
    ensures n == BATCH_SIZE ==> n % BATCH_SIZE == 0
  {
  }

  /** One `accept` on a sink that holds less than a batch: everything buffered leaves as one batch when
      that fills the batch, or when the buffer is late and not empty, and stays otherwise. `resetAt` is
      the time of the last flush, or of the last late `accept`, and is set by the first one. */
  lemma AcceptMeaning(s: State, item: Option<Item>, now: int)
    requires |s.buffer| < BATCH_SIZE
    ensures var (t, out) := AcceptStep(s, item, now);
            var buffer := s.buffer + (if item.Some? then [item.value] else []);
            var late := s.resetAt.Some? && now - s.resetAt.value >= 1_000_000_000;
            && out == (if |buffer| >= 500 || (late && buffer != []) then [buffer] else [])
            && t.buffer == (if out == [] then buffer else [])
            && t.resetAt == (if |buffer| >= 500 || late || s.resetAt.None? then Some(now) else s.resetAt)
  {
    var buffer := if item.Some? then s.buffer + [item.value] else s.buffer;
    assert s.buffer + [] == s.buffer;
    if |buffer| < BATCH_SIZE {
      assert FullBatches(buffer) == [] && Remainder(buffer) == buffer;
    } else {
      assert |buffer| == BATCH_SIZE;
      assert Remainder(buffer) == [];
      assert buffer[..BATCH_SIZE] == buffer && FullBatches(buffer) == [buffer];
    }
  }

  /** What one `accept` guarantees on a sink that holds less than a batch. */
  lemma AcceptProperties(s: State, item: Option<Item>, now: int)
    requires |s.buffer| < BATCH_SIZE
    ensures var (t, out) := AcceptStep(s, item, now);
            && Flatten(out) + t.buffer == s.buffer + (if item.Some? then [item.value] else [])
            && |t.buffer| < BATCH_SIZE
            && (out == [] || (|out| == 1 && t.buffer == [] && 1 <= |out[0]| <= BATCH_SIZE))
            && t.resetAt == (if out == [] && s.resetAt.Some? && !Late(s, now) then s.resetAt else Some(now))
            && (out == [] && Late(s, now) ==> s.buffer == [] && item.None?)
  {
    var (t, out) := AcceptStep(s, item, now);
    var buffer := if item.Some? then s.buffer + [item.value] else s.buffer;
    CutIsPartition(buffer);
    FlattenAppend(FullBatches(buffer), [Remainder(buffer)]);
    FlattenOne(Remainder(buffer));
    if |buffer| < BATCH_SIZE {
      assert FullBatches(buffer) == [];
      assert Remainder(buffer) == buffer;
    } else {
      assert |buffer| == BATCH_SIZE;
      assert Remainder(buffer) == [];
      assert FullBatches(buffer)[0] == buffer;
    }
  }

  /** `stop` sends everything, never an empty batch. */
  lemma DrainProperties(buffer: Batch)
    requires |buffer| < BATCH_SIZE
    ensures Flatten(Drain(buffer)) == buffer
    ensures |Drain(buffer)| <= 1
    ensures forall b :: b in Drain(buffer) ==> 1 <= |b| <= BATCH_SIZE
  {
    if buffer != [] {
      assert FullBatches(buffer) == [];
      assert Drain(buffer) == [buffer];
      FlattenOne(buffer);
    }
  }

  // Whole runs of the sink: how long a notification can stay buffered.

  /** One call of `accept`: a notification, or a tick when there is none. */
  datatype Event = Event(id: Option<nat>, now: int)

  datatype Flush = Flush(batch: Batch, now: int)

  function ItemOf(e: Event): Option<Item> {
    if e.id.Some? then Some(Item(e.id.value, e.now)) else None
  }

  function StateAfter(events: seq<Event>): State {
    if events == [] then State([], None) else
    var e := events[|events| - 1];
    AcceptStep(StateAfter(events[..|events| - 1]), ItemOf(e), e.now).0
  }

  /** Every batch put on the channel, with the time it was put there. */
  function FlushesOf(events: seq<Event>): seq<Flush> {
    if events == [] then [] else
    var e := events[|events| - 1];
    var out := AcceptStep(StateAfter(events[..|events| - 1]), ItemOf(e), e.now).1;
    FlushesOf(events[..|events| - 1]) + seq(|out|, i requires 0 <= i < |out| => Flush(out[i], e.now))
  }

  /** Time does not run backwards and the ticker leaves no gap longer than its period. */
  ghost predicate Ticking(events: seq<Event>) {
    forall i :: 0 < i < |events| ==> events[i - 1].now <= events[i].now <= events[i - 1].now + TICKER_DEADLINE
  }

  /** After each `accept` the buffer holds less than a batch, accepted at or after `resetAt`, which
      lies less than one buffering deadline back. */
  ghost predicate Fresh(s: State, now: int) {
    && |s.buffer| < BATCH_SIZE
    && s.resetAt.Some?
    && s.resetAt.value <= now
    && (s.buffer != [] ==> now < s.resetAt.value + BUFFERING_DEADLINE)
    && forall i :: 0 <= i < |s.buffer| ==> s.resetAt.value <= s.buffer[i].at <= now
  }

  lemma FreshStep(s: State, before: int, item: Option<Item>, now: int)
    requires s == State([], None) || (Fresh(s, before) && before <= now)
    requires item.Some? ==> item.value.at == now
    ensures Fresh(AcceptStep(s, item, now).0, now)
  {
    AcceptProperties(s, item, now);
    var (t, out) := AcceptStep(s, item, now);
    if out == [] {
      assert Flatten(out) + t.buffer == t.buffer;
    }
  }

  lemma {:induction false} FreshAfter(events: seq<Event>)
    requires events != [] && Ticking(events)
    ensures Fresh(StateAfter(events), events[|events| - 1].now)
  {
    var init := events[..|events| - 1];
    if init != [] {
      FreshAfter(init);
      assert events[|init| - 1].now <= events[|init|].now;
    }
    var before := if init == [] then 0 else init[|init| - 1].now;
    FreshStep(StateAfter(init), before, ItemOf(events[|init|]), events[|init|].now);
  }

  lemma {:induction false} FlattenMember(batches: seq<Batch>, b: Batch, x: Item)
    requires b in batches && x in b
    ensures x in Flatten(batches)
  {
    if b != batches[0] {
      FlattenMember(batches[1..], b, x);
    }
  }

  /** Main timing result: with ticks at most three buffering deadlines apart, every batch leaves the
      buffer less than four deadlines after each of its notifications was accepted. */
  lemma {:induction false} FlushedInTime(events: seq<Event>)
    requires Ticking(events)
    ensures forall f, i :: f in FlushesOf(events) && 0 <= i < |f.batch| ==>
                             f.batch[i].at <= f.now < f.batch[i].at + 4_000_000_000
  {
    if events != [] {
      var init := events[..|events| - 1];
      FlushedInTime(init);
      var e := events[|init|];
      var s := StateAfter(init);
      var out := AcceptStep(s, ItemOf(e), e.now).1;
      if init != [] {
        FreshAfter(init);
        assert events[|init| - 1].now <= events[|init|].now <= events[|init| - 1].now + TICKER_DEADLINE;
      }
      AcceptProperties(s, ItemOf(e), e.now);
      forall f, i | f in FlushesOf(events) && f !in FlushesOf(init) && 0 <= i < |f.batch|
        ensures f.batch[i].at <= e.now < f.batch[i].at + 4 * BUFFERING_DEADLINE
      {
        assert f.batch in out;
        FlattenMember(out, f.batch, f.batch[i]);
        var x := f.batch[i];
        assert x in s.buffer || ItemOf(e) == Some(x);
      }
    }
  }

  /** And what is still buffered at any later moment before the next tick is as young. */
  lemma BufferedIsYoung(events: seq<Event>, later: int)
    requires events != [] && Ticking(events)
    requires events[|events| - 1].now <= later <= events[|events| - 1].now + TICKER_DEADLINE
    ensures forall x :: x in StateAfter(events).buffer ==> x.at <= later < x.at + 4 * BUFFERING_DEADLINE
  {
    FreshAfter(events);
  }

  // The sink in place.

  class Sink {
    var buffered: Slice<Item>
    var resetAt: Option<int>
    var closed: bool
    /** Everything ever sent to the channel, and whether the channel is closed. */
    var outbox: seq<Slice<Item>>
    var channelClosed: bool
    /** The contents of each batch at the moment it was sent, and how often `append` reallocated. */
    ghost var batches: seq<Batch>
    ghost var growths: nat

    /** The arrays the sink refers to. */
    ghost function Arrays(): set<object>
      reads this
    {
      {buffered.base} + set s | s in outbox :: s.base
    }

    /** Every sent slice still reads as it did when it was sent. */
    ghost predicate Intact()
      reads this, Arrays()
    {
      && |batches| == |outbox|
      && forall k :: 0 <= k < |outbox| ==> Fits(outbox[k]) && View(outbox[k]) == batches[k]
    }

    /** No future append can reach a sent slice: the buffer is either full to capacity or has room
        left in an array of its own. */
    ghost predicate Valid()
      reads this, Arrays()
    {
      && Fits(buffered)
      && (buffered.cap == 0 || (buffered.cap == BATCH_SIZE && buffered.len < BATCH_SIZE))
      && (buffered.cap == 0 || forall s :: s in outbox ==> s.base != buffered.base)
      && Intact()
      && growths == 0
      && closed == channelClosed
      && (closed ==> buffered.len == 0)
    }

    ghost function Abstract(): State
      requires Valid()
      reads this, Arrays()
    {
      State(View(buffered), resetAt)
    }

    constructor ()
      ensures Valid() && fresh(Arrays()) && !closed
      ensures Abstract() == State([], None) && batches == []
    {
      var nil := new Item[0];
      buffered := Slice(nil, 0, 0, 0);
      resetAt := None;
      outbox, batches := [], [];
      closed, channelClosed := false, false;
      growths := 0;
    }

    /** A send on the channel; sending after close would panic. */
    method Send(s: Slice<Item>)
      requires !channelClosed && Fits(s)
      modifies this`outbox, this`batches
      ensures outbox == old(outbox) + [s] && batches == old(batches) + [View(s)]
    {
      outbox := outbox + [s];
      batches := batches + [View(s)];
    }

    /** The loop shared by `accept` and `stop`. */
    method SendFullBatches()
      requires !channelClosed && Fits(buffered) && Intact()
      modifies this`outbox, this`batches
      ensures Intact() && old(outbox) <= outbox
      ensures batches == old(batches) + FullBatches(View(buffered))
      ensures forall s :: s in outbox ==> s in old(outbox) || s.base == buffered.base
      ensures buffered.len < BATCH_SIZE ==> outbox == old(outbox)
    {
      ghost var buffer := View(buffered);
      for i := 0 to buffered.len / BATCH_SIZE
        invariant Intact() && old(outbox) <= outbox
        invariant forall s :: s in outbox ==> s in old(outbox) || s.base == buffered.base
        invariant batches + FullBatches(buffer[i * BATCH_SIZE..]) == old(batches) + FullBatches(buffer)
      {
        var j := (i + 1) * BATCH_SIZE;
        assert FullBatches(buffer[i * BATCH_SIZE..]) == [buffer[i * BATCH_SIZE..j]] + FullBatches(buffer[j..]) by {
          var rest := buffer[i * BATCH_SIZE..];
          assert rest[..BATCH_SIZE] == buffer[i * BATCH_SIZE..j] && rest[BATCH_SIZE..] == buffer[j..];
        }
        ghost var sofar := batches;
        Send(Sub(buffered, i * BATCH_SIZE, j));
        assert batches + FullBatches(buffer[j..]) == sofar + ([buffer[i * BATCH_SIZE..j]] + FullBatches(buffer[j..]));
      }
    }

    /** Sends a window of the buffer and goes on in a new array. */
    method SendAndRenew(s: Slice<Item>)
      requires !channelClosed && Fits(s) && s.base == buffered.base && Intact()
      modifies this`outbox, this`batches, this`buffered
      ensures Fits(buffered) && fresh(buffered.base) && View(buffered) == [] && buffered.cap == BATCH_SIZE
      ensures outbox == old(outbox) + [s] && batches == old(batches) + [old(View(s))] && Intact()
    {
      Send(s);
      buffered := Make(BATCH_SIZE);
    }

    /** The window after the last full batch. */
    method Leftover() returns (r: Slice<Item>)
      requires Fits(buffered)
      ensures Fits(r) && r.base == buffered.base && View(r) == Remainder(View(buffered))
      ensures buffered.len < BATCH_SIZE ==> r == buffered
      ensures buffered.len == BATCH_SIZE ==> r.len == 0 && r.cap == buffered.cap - BATCH_SIZE
    {
      ghost var buffer := View(buffered);
      var remaining := buffered.len % BATCH_SIZE;
      RestOfBatches(buffered.len);
      RemainderSlice(buffer);
      assert Remainder(buffer) == buffer[buffered.len - remaining..buffered.len];
      r := Sub(buffered, buffered.len - remaining, buffered.len);
    }

    /** Sends the full batches and keeps the remainder, in the same array. */
    method CutBatches()
      requires !channelClosed && Fits(buffered) && Intact()
      requires 0 < buffered.len <= BATCH_SIZE == buffered.cap && forall s :: s in outbox ==> s.base != buffered.base
      modifies this`outbox, this`batches, this`buffered
      ensures Fits(buffered) && buffered.base == old(buffered.base) && Intact() && old(outbox) <= outbox
      ensures View(buffered) == Remainder(old(View(buffered))) &&
              batches == old(batches) + FullBatches(old(View(buffered)))
      ensures forall s :: s in outbox ==> s in old(outbox) || s.base == buffered.base
      ensures buffered.len == 0 ==> buffered.cap == 0
      ensures buffered.len > 0 ==> buffered == old(buffered) && outbox == old(outbox)
    {
      SendFullBatches();
      buffered := Leftover();
    }

    /** The part of `accept` that empties the buffer. */
    method Flush(late: bool, now: int)
      requires !closed && !channelClosed && growths == 0 && Fits(buffered) && Intact()
      requires buffered.len <= BATCH_SIZE == buffered.cap && forall s :: s in outbox ==> s.base != buffered.base
      requires buffered.len == 0 || buffered.len == BATCH_SIZE || late
      modifies this`outbox, this`batches, this`buffered, this`resetAt
      ensures Valid() && old(outbox) <= outbox && fresh(Arrays() - old(Arrays()))
      ensures Abstract() == FlushStep(old(View(buffered)), late, now).0
      ensures batches == old(batches) + FlushStep(old(View(buffered)), late, now).1
    {
      if buffered.len > 0 {
        FlushFilled(late);
      } else {
        assert FullBatches(View(buffered)) == [] && Remainder(View(buffered)) == [];
      }
      resetAt := Some(now);
    }

    method FlushFilled(late: bool)
      requires !closed && !channelClosed && growths == 0 && Fits(buffered) && Intact()
      requires 0 < buffered.len <= BATCH_SIZE == buffered.cap && forall s :: s in outbox ==> s.base != buffered.base
      requires buffered.len == BATCH_SIZE || late
      modifies this`outbox, this`batches, this`buffered
      ensures Valid() && old(outbox) <= outbox && fresh(Arrays() - old(Arrays()))
      ensures View(buffered) == FlushStep(old(View(buffered)), late, 0).0.buffer
      ensures batches == old(batches) + FlushStep(old(View(buffered)), late, 0).1
    {
      ghost var buffer := View(buffered);
      ghost var earlier := batches;
      CutBatches();
      if buffered.len > 0 {
        SendAndRenew(buffered);
        assert batches == earlier + (FullBatches(buffer) + [Remainder(buffer)]);
      }
    }

    /** The part of `accept` that fills the buffer. */
    method Push(item: Option<Item>, now: int)
      requires Valid() && !closed
      modifies this`buffered, this`resetAt, this`growths, buffered.base
      ensures Fits(buffered) && Intact() && growths == 0 && fresh(Arrays() - old(Arrays()))
      ensures buffered.len <= BATCH_SIZE == buffered.cap && forall s :: s in outbox ==> s.base != buffered.base
      ensures View(buffered) == if item.Some? then old(View(buffered)) + [item.value] else old(View(buffered))
      ensures resetAt == if old(resetAt).Some? then old(resetAt) else Some(now)
    {
      if buffered.cap == 0 {
        buffered := Make(BATCH_SIZE);
      }
      if resetAt == None {
        resetAt := Some(now);
      }
      if item.Some? {
        var grew;
        buffered, grew := Append(buffered, [item.value], 0);
        growths := growths + if grew then 1 else 0;
      }
    }

    /** `accept`: a notification or, from the ticker, none. A closed sink hands a notification back
        for immediate processing (`inline`); an open one does exactly `AcceptStep`. */
    method Accept(item: Option<Item>, now: int) returns (inline: Option<Item>)
      requires Valid()
      modifies this, buffered.base
      ensures Valid() && closed == old(closed) && fresh(Arrays() - old(Arrays()))
      ensures old(outbox) <= outbox
      ensures closed ==> inline == item && Abstract() == old(Abstract()) && batches == old(batches)
      ensures !closed ==> inline == None && Abstract() == AcceptStep(old(Abstract()), item, now).0
      ensures !closed ==> batches == old(batches) + AcceptStep(old(Abstract()), item, now).1
    {
      if closed {
        return item;
      }
      inline := None;
      Push(item, now);
      var late := now - resetAt.value >= BUFFERING_DEADLINE;
      if buffered.len >= BATCH_SIZE || late {
        Flush(late, now);
      }
    }

    /** The part of `stop` that sends what is buffered. */
    method SendAll(now: int)
      requires Valid() && !closed && buffered.len > 0
      modifies this`outbox, this`batches, this`buffered, this`resetAt
      ensures Valid() && old(outbox) <= outbox && fresh(Arrays() - old(Arrays()))
      ensures batches == old(batches) + Drain(old(View(buffered))) && buffered.len == 0
    {
      ghost var buffer := View(buffered);
      ghost var earlier := batches;
      SendFullBatches();
      var last := Leftover();
      SendAndRenew(last);
      assert batches == earlier + (FullBatches(buffer) + [Remainder(buffer)]);
      resetAt := Some(now);
    }

    /** `stop`: drains the buffer and closes the channel, once. Waiting for the workers is the
        subject of module PushPipeline. */
    method Stop(now: int)
      requires Valid()
      modifies this
      ensures Valid() && closed && fresh(Arrays() - old(Arrays()))
      ensures old(outbox) <= outbox
      ensures old(closed) ==> unchanged(this)
      ensures !old(closed) ==> batches == old(batches) + Drain(old(Abstract()).buffer) && Abstract().buffer == []
    {
      if !closed {
        if buffered.len > 0 {
          SendAll(now);
        }
        channelClosed := true;
        closed := true;
      }
    }
  }
}
