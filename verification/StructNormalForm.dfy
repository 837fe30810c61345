/** What comes back from a new hash (connectors/storage/v3/storage.go): exactly which values, and which
    struct types, `Get` after `Set` returns in normal form. */
module StructNormalForm {
  import opened Wrappers
  import opened StructCodec

  /** The value with nil pointers allocated, and zero where a leaf is not stored or was omitted. */
  function Normal<V>(codec: Codec<V>, fields: seq<Field>, v: seq<Slot<V>>): (r: seq<Slot<V>>)
    requires Conforms(fields, v)
    ensures Conforms(fields, r)
  {
    if fields == [] then [] else
    [match fields[0]
     case Leaf(tag) => if !Stored(tag) || Omitted(codec, tag, v[0].value) then Plain(codec.zero) else v[0]
     case Embed(_, _, inner) =>
       Nested(Some(if v[0].slots.None? then Allocated(codec, inner) else Normal(codec, inner, v[0].slots.value)))]
    + Normal(codec, fields[1..], v[1..])
  }

  /** The zero value with every embedded pointer allocated. */
  function Allocated<V>(codec: Codec<V>, fields: seq<Field>): (r: seq<Slot<V>>)
    ensures Conforms(fields, r)
  {
    if fields == [] then [] else
    [match fields[0]
     case Leaf(_) => Plain(codec.zero)
     case Embed(_, _, inner) => Nested(Some(Allocated(codec, inner)))] + Allocated(codec, fields[1..])
  }

  /** What an empty hash is read as: reflection allocates the pointers it may set, and leaves alone
      what it may not expose. */
  function Blank<V>(codec: Codec<V>, fields: seq<Field>): (r: seq<Slot<V>>)
    ensures Conforms(fields, r)
  {
    if fields == [] then [] else
    [match fields[0]
     case Leaf(_) => Plain(codec.zero)
     case Embed(pointer, exported, inner) =>
       Nested(if exported then Some(Blank(codec, inner)) else if pointer then None else Some(Zero(codec, inner)))]
    + Blank(codec, fields[1..])
  }

  lemma {:induction false} EmptyReads<V>(codec: Codec<V>, fields: seq<Field>)
    ensures Fieldwise(codec, fields, Zero(codec, fields), map[]) == Some(Blank(codec, fields))
  {
    if fields != [] {
      EmptyReads(codec, fields[1..]);
      if fields[0].Embed? {
        EmptyReads(codec, fields[0].fields);
      }
    }
  }

  lemma ConsEqual<T>(x: T, xs: seq<T>, y: T, ys: seq<T>)
    ensures [x] + xs == [y] + ys <==> x == y && xs == ys
  {
    if [x] + xs == [y] + ys {
      assert ([x] + xs)[0] == x && ([x] + xs)[1..] == xs;
      assert ([y] + ys)[0] == y && ([y] + ys)[1..] == ys;
    }
  }

  // Value by value.

  predicate PointerFree(fields: seq<Field>) {
    fields == [] ||
    (PointerFree(fields[1..]) && (fields[0].Embed? ==> !fields[0].pointer && PointerFree(fields[0].fields)))
  }

  /** No embedded pointer is out of reflection's reach. */
  predicate AllocatesAll(fields: seq<Field>) {
    fields == [] ||
    (AllocatesAll(fields[1..]) &&
     match fields[0]
     case Leaf(_) => true
     case Embed(pointer, exported, inner) => if exported then AllocatesAll(inner) else !pointer && PointerFree(inner))
  }

  /** No leaf holds anything that would be read back, and there is no pointer to allocate. */
  ghost predicate HoldsNothing<V>(codec: Codec<V>, fields: seq<Field>, v: seq<Slot<V>>)
    requires Conforms(fields, v)
  {
    fields == [] ||
    (HoldsNothing(codec, fields[1..], v[1..]) &&
     match fields[0]
     case Leaf(tag) => !Stored(tag) || Omitted(codec, tag, v[0].value) || v[0].value == codec.zero
     case Embed(pointer, _, inner) => !pointer && HoldsNothing(codec, inner, v[0].slots.value))
  }

  /** The embedded structs out of reach hold nothing, are no pointers and contain none. */
  ghost predicate ComesBack<V>(codec: Codec<V>, fields: seq<Field>, v: seq<Slot<V>>)
    requires Conforms(fields, v)
  {
    fields == [] ||
    (ComesBack(codec, fields[1..], v[1..]) &&
     match fields[0]
     case Leaf(_) => true
     case Embed(pointer, exported, inner) =>
       if !exported then !pointer && HoldsNothing(codec, inner, v[0].slots.value)
       else if v[0].slots.None? then AllocatesAll(inner)
       else ComesBack(codec, inner, v[0].slots.value))
  }

  lemma {:induction false} ZeroIsAllocated<V>(codec: Codec<V>, fields: seq<Field>)
    ensures Zero(codec, fields) == Allocated(codec, fields) <==> PointerFree(fields)
  {
    if fields != [] {
      var z, a := Zero(codec, fields), Allocated(codec, fields);
      ZeroIsAllocated(codec, fields[1..]);
      ConsEqual(z[0], Zero(codec, fields[1..]), a[0], Allocated(codec, fields[1..]));
      if fields[0].Embed? {
        ZeroIsAllocated(codec, fields[0].fields);
      }
    }
  }

  lemma {:induction false} BlankIsAllocated<V>(codec: Codec<V>, fields: seq<Field>)
    ensures Blank(codec, fields) == Allocated(codec, fields) <==> AllocatesAll(fields)
  {
    if fields != [] {
      var z, a := Blank(codec, fields), Allocated(codec, fields);
      BlankIsAllocated(codec, fields[1..]);
      ConsEqual(z[0], Blank(codec, fields[1..]), a[0], Allocated(codec, fields[1..]));
      if fields[0].Embed? {
        BlankIsAllocated(codec, fields[0].fields);
        ZeroIsAllocated(codec, fields[0].fields);
      }
    }
  }

  lemma {:induction false} NormalIsZero<V>(codec: Codec<V>, fields: seq<Field>, v: seq<Slot<V>>)
    requires Conforms(fields, v)
    ensures Normal(codec, fields, v) == Zero(codec, fields) <==> HoldsNothing(codec, fields, v)
  {
    if fields != [] {
      var n, z := Normal(codec, fields, v), Zero(codec, fields);
      NormalIsZero(codec, fields[1..], v[1..]);
      ConsEqual(n[0], Normal(codec, fields[1..], v[1..]), z[0], Zero(codec, fields[1..]));
      if fields[0].Embed? && v[0].slots.Some? {
        NormalIsZero(codec, fields[0].fields, v[0].slots.value);
      }
    }
  }

  lemma {:induction false} MergeIsNormal<V>(codec: Codec<V>, fields: seq<Field>, v: seq<Slot<V>>)
    requires Conforms(fields, v)
    ensures Merge(codec, fields, v, Blank(codec, fields)) == Normal(codec, fields, v) <==> ComesBack(codec, fields, v)
  {
    if fields != [] {
      var m, n := Merge(codec, fields, v, Blank(codec, fields)), Normal(codec, fields, v);
      var rest := Blank(codec, fields[1..]);
      assert Blank(codec, fields)[1..] == rest;
      MergeIsNormal(codec, fields[1..], v[1..]);
      ConsEqual(m[0], Merge(codec, fields[1..], v[1..], rest), n[0], Normal(codec, fields[1..], v[1..]));
      if fields[0].Embed? {
        BlankIsAllocated(codec, fields[0].fields);
        if v[0].slots.Some? {
          MergeIsNormal(codec, fields[0].fields, v[0].slots.value);
          NormalIsZero(codec, fields[0].fields, v[0].slots.value);
        }
      }
    }
  }

  /** On a new key, reading gives what was written merged into the blank value, and that is the normal
      form iff the embedded structs that reflection may not expose have nothing to lose. */
  lemma GetAfterFirstSet<V(!new)>(codec: Codec<V>, fields: seq<Field>, v: seq<Slot<V>>)
    requires Invertible(codec) && Conforms(fields, v) && Distinct(CollectFields(fields))
    ensures var read := Get(codec, fields, Set(codec, fields, v, map[]));
            if Serialize(codec, fields, v) == [] then read == Ok(None)
            else
              && read == Ok(Some(Merge(codec, fields, v, Blank(codec, fields))))
              && (read == Ok(Some(Normal(codec, fields, v))) <==> ComesBack(codec, fields, v))
  {
    assert Kept(map[], Serialize(codec, fields, v)) == map[];
    EmptyReads(codec, fields);
    TwoPasses(codec, fields, Zero(codec, fields), map[]);
    MergeIsNormal(codec, fields, v);
    GetAfterSet(codec, fields, v, map[]);
  }

  // Type by type.

  predicate HasStored(fields: seq<Field>) {
    fields != [] &&
    (HasStored(fields[1..]) ||
     match fields[0]
     case Leaf(tag) => Stored(tag)
     case Embed(_, _, inner) => HasStored(inner))
  }

  /** Every embedded struct is within reach, or embedded by value and has neither a stored leaf nor an
      embedded pointer. */
  predicate Exposed(fields: seq<Field>) {
    fields == [] ||
    (Exposed(fields[1..]) &&
     match fields[0]
     case Leaf(_) => true
     case Embed(pointer, exported, inner) =>
       if exported then Exposed(inner) else !pointer && PointerFree(inner) && !HasStored(inner))
  }

  lemma {:induction false} InertHoldsNothing<V>(codec: Codec<V>, fields: seq<Field>, v: seq<Slot<V>>)
    requires Conforms(fields, v) && PointerFree(fields) && !HasStored(fields)
    ensures HoldsNothing(codec, fields, v)
  {
    if fields != [] {
      InertHoldsNothing(codec, fields[1..], v[1..]);
      if fields[0].Embed? {
        InertHoldsNothing(codec, fields[0].fields, v[0].slots.value);
      }
    }
  }

  lemma {:induction false} ExposedAllocates(fields: seq<Field>)
    requires Exposed(fields)
    ensures AllocatesAll(fields)
  {
    if fields != [] {
      ExposedAllocates(fields[1..]);
      if fields[0].Embed? && fields[0].exported {
        ExposedAllocates(fields[0].fields);
      }
    }
  }

  lemma {:induction false} ExposedComesBack<V>(codec: Codec<V>, fields: seq<Field>, v: seq<Slot<V>>)
    requires Conforms(fields, v) && Exposed(fields)
    ensures ComesBack(codec, fields, v)
  {
    if fields != [] {
      ExposedComesBack(codec, fields[1..], v[1..]);
      if fields[0].Embed? {
        var inner := fields[0].fields;
        if !fields[0].exported {
          InertHoldsNothing(codec, inner, v[0].slots.value);
        } else if v[0].slots.None? {
          ExposedAllocates(inner);
        } else {
          ExposedComesBack(codec, inner, v[0].slots.value);
        }
      }
    }
  }

  /** The value with `x` in every leaf and every pointer allocated. */
  function Full<V>(fields: seq<Field>, x: V): (r: seq<Slot<V>>)
    ensures Conforms(fields, r)
  {
    if fields == [] then [] else
    [match fields[0]
     case Leaf(_) => Plain(x)
     case Embed(_, _, inner) => Nested(Some(Full(inner, x)))] + Full(fields[1..], x)
  }

  lemma {:induction false} FullHolds<V>(codec: Codec<V>, fields: seq<Field>, x: V)
    requires x != codec.zero && !codec.isEmpty(x)
    ensures HoldsNothing(codec, fields, Full(fields, x)) <==> PointerFree(fields) && !HasStored(fields)
  {
    if fields != [] {
      FullHolds(codec, fields[1..], x);
      assert Full(fields, x)[1..] == Full(fields[1..], x);
      if fields[0].Embed? {
        FullHolds(codec, fields[0].fields, x);
      }
    }
  }

  lemma {:induction false} FullComesBack<V>(codec: Codec<V>, fields: seq<Field>, x: V)
    requires x != codec.zero && !codec.isEmpty(x)
    ensures ComesBack(codec, fields, Full(fields, x)) <==> Exposed(fields)
  {
    if fields != [] {
      FullComesBack(codec, fields[1..], x);
      assert Full(fields, x)[1..] == Full(fields[1..], x);
      if fields[0].Embed? {
        FullComesBack(codec, fields[0].fields, x);
        FullHolds(codec, fields[0].fields, x);
      }
    }
  }

  lemma {:induction false} FullWrites<V>(codec: Codec<V>, fields: seq<Field>, x: V)
    requires !codec.isEmpty(x)
    ensures Serialize(codec, fields, Full(fields, x)) != [] <==> HasStored(fields)
  {
    if fields != [] {
      FullWrites(codec, fields[1..], x);
      assert Full(fields, x)[1..] == Full(fields[1..], x);
      if fields[0].Embed? {
        FullWrites(codec, fields[0].fields, x);
      }
    }
  }

  lemma {:induction false} NothingStoredNothingWritten<V>(codec: Codec<V>, fields: seq<Field>, v: seq<Slot<V>>)
    requires Conforms(fields, v) && !HasStored(fields)
    ensures Serialize(codec, fields, v) == []
  {
    if fields != [] {
      NothingStoredNothingWritten(codec, fields[1..], v[1..]);
      if fields[0].Embed? && v[0].slots.Some? {
        NothingStoredNothingWritten(codec, fields[0].fields, v[0].slots.value);
      }
    }
  }

  /** Every value of the type that writes anything comes back from a new key in normal form. */
  ghost predicate AlwaysComesBack<V(!new)>(codec: Codec<V>, fields: seq<Field>) {
    forall v | Conforms(fields, v) && Serialize(codec, fields, v) != [] ::
      Get(codec, fields, Set(codec, fields, v, map[])) == Ok(Some(Normal(codec, fields, v)))
  }

  /** Main result: the types whose values all come back in normal form are the exposed ones, and those
      that write nothing at all. `x` is any value that is neither zero nor empty. */
  lemma NormalFormIff<V(!new)>(codec: Codec<V>, fields: seq<Field>, x: V)
    requires Invertible(codec) && Distinct(CollectFields(fields)) && x != codec.zero && !codec.isEmpty(x)
    ensures AlwaysComesBack(codec, fields) <==> Exposed(fields) || !HasStored(fields)
  {
    forall v | Conforms(fields, v) && Serialize(codec, fields, v) != []
      ensures Get(codec, fields, Set(codec, fields, v, map[])) == Ok(Some(Normal(codec, fields, v))) <==>
              ComesBack(codec, fields, v)
      ensures HasStored(fields)
    {
      GetAfterFirstSet(codec, fields, v);
      if !HasStored(fields) {
        NothingStoredNothingWritten(codec, fields, v);
      }
    }
    if Exposed(fields) {
      forall v | Conforms(fields, v)
        ensures ComesBack(codec, fields, v)
      {
        ExposedComesBack(codec, fields, v);
      }
    } else if HasStored(fields) {
      FullWrites(codec, fields, x);
      FullComesBack(codec, fields, x);
      assert !ComesBack(codec, fields, Full(fields, x));
    }
  }

  /** Reach matters: an embedded struct that reflection may not expose is written but not read back. */
  lemma UnreachableIsLost<V(!new)>(codec: Codec<V>, x: V)
    requires Invertible(codec)
    ensures var fields := [Embed(false, false, [Leaf("a")])];
            var v := [Nested(Some([Plain(x)]))];
            && Conforms(fields, v) && Distinct(CollectFields(fields))
            && Serialize(codec, fields, v) == [("a", codec.write(x))]
            && Get(codec, fields, Set(codec, fields, v, map[])) == Ok(Some([Nested(Some([Plain(codec.zero)]))]))
  {
    var inner: seq<Field>, slots := [Leaf("a")], [Plain(x)];
    var fields, v := [Embed(false, false, inner)], [Nested(Some(slots))];
    CutShrinks("a", ',');
    assert Split("", ',') == [""];
    assert inner[1..] == [] && slots[1..] == [];
    assert fields[1..] == [] && v[1..] == [];
    assert CollectFields(inner) == ["a"] && CollectFields(fields) == ["a"];
    assert Serialize(codec, inner, slots) == [("a", codec.write(x))];
    assert Serialize(codec, fields, v) == [("a", codec.write(x))];
    assert Zero(codec, inner) == [Plain(codec.zero)];
    var zero := Zero(codec, fields);
    assert zero == [Nested(Some([Plain(codec.zero)]))] && zero[1..] == [];
    TwoPasses(codec, fields, zero, map[]);
    assert Fieldwise(codec, fields, zero, map[]) == Some(zero);
    GetAfterSet(codec, fields, v, map[]);
    assert Merge(codec, fields, v, zero) == zero;
  }
}
