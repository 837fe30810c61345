/** Filling a struct in place (connectors/storage/v3/storage.go, `DeserializeValue`): leaves are
    overwritten, nil embedded pointers are allocated, and embedded structs are filled where they are. */
module StructTarget {
  import opened Wrappers
  import opened StructCodec

  /** The embedded structs of a struct with these fields, null for leaves and nil pointers. They are
      made of the objects in `owned`, and no two of them share any. */
  ghost predicate Owns<V>(fields: seq<Field>, children: seq<Target?<V>>, owned: set<object>)
    reads owned
    decreases owned, 2
  {
    && |children| == |fields|
    && (forall i :: 0 <= i < |fields| ==> OwnsOne(fields[i], children[i], owned))
    && (forall i, j :: 0 <= i < j < |fields| && children[i] != null && children[j] != null ==>
                         children[i].Repr !! children[j].Repr)
  }

  ghost predicate OwnsOne<V>(field: Field, child: Target?<V>, owned: set<object>)
    reads owned
    decreases owned, 1
  {
    if child == null then field.Leaf? || field.pointer
    else
      && field.Embed? && child.fields == field.fields
      && child in owned && child.Repr <= owned && child.Valid()
  }

  /** A struct in memory: field `i` is `leaves[i]` if it is a leaf, and otherwise `embedded[i]`. */
  class Target<V> {
    const fields: seq<Field>
    var leaves: seq<V>
    var embedded: seq<Target?<V>>
    ghost var Repr: set<object>

    ghost predicate Valid()
      reads this, Repr
      decreases Repr, 0
    {
      this in Repr && |leaves| == |embedded| == |fields| && Owns(fields, embedded, Repr - {this})
    }

    /** The value of field `i`, and of the fields from `i` on. */
    ghost function SlotAt(i: nat): (slot: Slot<V>)
      requires Valid() && i < |fields|
      reads this, Repr
      ensures FitOne(fields[i], slot)
      decreases Repr, 0
    {
      assert Owns(fields, embedded, Repr - {this});
      assert OwnsOne(fields[i], embedded[i], Repr - {this});
      assert [fields[i]][1..] == [];
      match fields[i]
      case Leaf(_) => Plain(leaves[i])
      case Embed(_, _, _) => Nested(if embedded[i] == null then None else Some(embedded[i].Slots(0)))
    }

    ghost function Slots(i: nat): (slots: seq<Slot<V>>)
      requires Valid() && i <= |fields|
      reads this, Repr
      ensures Conforms(fields[i..], slots)
      ensures |slots| == |fields| - i && forall k :: 0 <= k < |slots| ==> slots[k] == SlotAt(i + k)
      decreases Repr, 1, |fields| - i
    {
      if i == |fields| then [] else
      var slots := [SlotAt(i)] + Slots(i + 1);
      assert fields[i..][0] == fields[i] && fields[i..][1..] == fields[i + 1..];
      slots
    }

    ghost function Value(): (slots: seq<Slot<V>>)
      requires Valid()
      reads this, Repr
      ensures Fit(fields, slots)
      ensures forall k :: 0 <= k < |slots| ==> slots[k] == SlotAt(k)
      decreases Repr, 2
    {
      assert fields[0..] == fields;
      Slots(0)
    }

    /** A new zero value. */
    constructor (codec: Codec<V>, fields: seq<Field>)
      ensures Valid() && fresh(Repr) && this.fields == fields && Value() == Zero(codec, fields)
      decreases fields, 1
    {
      var children, owned := ZeroChildren(codec, fields);
      this.fields := fields;
      leaves := seq(|fields|, _ => codec.zero);
      embedded := children;
      Repr := owned + {this};
      new;
      assert Repr - {this} == owned;
      forall k | 0 <= k < |fields|
        ensures SlotAt(k) == Zero(codec, fields)[k]
      {
        ZeroAt(codec, fields, k);
        assert OwnsOne(fields[k], children[k], owned);
      }
    }

    /** The client library's scan, into the leaves of this struct alone. */
    method ScanLeaves(codec: Codec<V>, store: map<string, string>) returns (error: Option<string>)
      requires Valid()
      modifies this`leaves
      ensures Valid() && error == Failure(Scan(codec, fields, old(Value()), store))
      ensures error.None? ==> Value() == Scan(codec, fields, old(Value()), store).value
    {
      ghost var before := Value();
      for i := 0 to |fields|
        invariant Valid()
        invariant forall k :: 0 <= k < i ==> ScanLeaf(codec, fields[k], before[k], store) == Ok(SlotAt(k))
        invariant forall k :: i <= k < |fields| ==> SlotAt(k) == before[k]
      {
        if fields[i].Leaf? && Stored(fields[i].tag) && NameOf(fields[i].tag) in store {
          var parsed := codec.parse(store[NameOf(fields[i].tag)]);
          if parsed.None? {
            ScanFails(codec, fields, before, store, i);
            return Some(NameOf(fields[i].tag));
          }
          SetLeaf(i, parsed.value);
        }
      }
      ScanSucceeds(codec, fields, before, store, Value());
      return None;
    }

    method SetLeaf(i: nat, v: V)
      requires Valid() && i < |fields| && fields[i].Leaf?
      modifies this`leaves
      ensures Valid() && SlotAt(i) == Plain(v)
      ensures forall k :: 0 <= k < |fields| && k != i ==> SlotAt(k) == old(SlotAt(k))
    {
      leaves := leaves[i := v];
      assert forall k :: 0 <= k < |fields| ==> OwnsOne(fields[k], embedded[k], Repr - {this});
    }

    /** `DeserializeValue`. Whatever happens, the struct stays a tree of objects of its own, and the
        embedded ones it had stay in place; on success it holds what the function on values says, and
        it fails as that does. */
    method DeserializeValue(codec: Codec<V>, store: map<string, string>) returns (error: Option<string>)
      requires Valid()
      modifies Repr
      ensures Valid() && fresh(Repr - old(Repr))
      ensures error == Failure(Deserialize(codec, fields, old(Value()), store))
      ensures error.None? ==> Value() == Deserialize(codec, fields, old(Value()), store).value
      ensures forall k :: 0 <= k < |fields| && old(embedded[k]) != null ==> embedded[k] == old(embedded[k])
      decreases fields, 1
    {
      error := ScanLeaves(codec, store);
      if error.None? {
        error := EnterFields(codec, store);
      }
    }

    /** The loop over the embedded fields. */
    method EnterFields(codec: Codec<V>, store: map<string, string>) returns (error: Option<string>)
      requires Valid()
      modifies Repr
      ensures Valid() && fresh(Repr - old(Repr))
      ensures error == Failure(Descend(codec, fields, old(Value()), store))
      ensures error.None? ==> Value() == Descend(codec, fields, old(Value()), store).value
      ensures forall k :: 0 <= k < |fields| && old(embedded[k]) != null ==> embedded[k] == old(embedded[k])
      decreases fields, 0
    {
      ghost var scanned := Value();
      error := None;
      for i := 0 to |fields|
        invariant Valid() && fresh(Repr - old(Repr)) && error == None
        invariant forall k :: 0 <= k < |fields| && old(embedded[k]) != null ==> embedded[k] == old(embedded[k])
        invariant forall k :: 0 <= k < i ==> Enter(codec, fields[k], scanned[k], store) == Ok(SlotAt(k))
        invariant forall k :: i <= k < |fields| ==> SlotAt(k) == scanned[k]
      {
        error := EnterField(codec, i, store);
        if error.Some? {
          DescendFails(codec, fields, scanned, store, i);
          return;
        }
      }
      DescendSucceeds(codec, fields, scanned, store, Value());
    }

    /** One embedded field of that loop: a nil pointer is allocated, the struct it leads to filled. */
    method EnterField(codec: Codec<V>, i: nat, store: map<string, string>) returns (error: Option<string>)
      requires Valid() && i < |fields|
      modifies Repr
      ensures Valid() && fresh(Repr - old(Repr))
      ensures error == Failure(Enter(codec, fields[i], old(SlotAt(i)), store))
      ensures error.None? ==> Ok(SlotAt(i)) == Enter(codec, fields[i], old(SlotAt(i)), store)
      ensures forall k :: 0 <= k < |fields| && old(embedded[k]) != null ==> embedded[k] == old(embedded[k])
      ensures forall k :: 0 <= k < |fields| && k != i ==> SlotAt(k) == old(SlotAt(k))
      decreases fields[i]
    {
      if fields[i].Leaf? || !fields[i].exported {
        return None;
      }
      if embedded[i] == null {
        Allocate(codec, i);
      }
      error := FillEmbedded(codec, i, store);
    }

    method Allocate(codec: Codec<V>, i: nat)
      requires Valid() && i < |fields| && fields[i].Embed? && embedded[i] == null
      modifies this`embedded, this`Repr
      ensures Valid() && fresh(Repr - old(Repr)) && embedded[i] != null
      ensures embedded == old(embedded)[i := embedded[i]]
      ensures SlotAt(i) == Nested(Some(Zero(codec, fields[i].fields)))
      ensures forall k :: 0 <= k < |fields| && k != i ==> SlotAt(k) == old(SlotAt(k))
    {
      assert forall k :: 0 <= k < |fields| ==> OwnsOne(fields[k], embedded[k], Repr - {this});
      var child := new Target(codec, fields[i].fields);
      embedded := embedded[i := child];
      Repr := Repr + child.Repr;
      assert forall k :: 0 <= k < |fields| ==> OwnsOne(fields[k], embedded[k], Repr - {this});
    }

    lemma Apart(i: nat, k: nat)
      requires Valid() && i < |fields| && k < |fields| && i != k && embedded[i] != null && embedded[k] != null
      ensures embedded[k] in embedded[k].Repr && embedded[k].Repr !! embedded[i].Repr && this !in embedded[k].Repr
    {
      assert OwnsOne(fields[k], embedded[k], Repr - {this}) && OwnsOne(fields[i], embedded[i], Repr - {this});
      assert embedded[k].Valid();
      assert if i < k then embedded[i].Repr !! embedded[k].Repr else embedded[k].Repr !! embedded[i].Repr;
    }

    method FillEmbedded(codec: Codec<V>, i: nat, store: map<string, string>) returns (error: Option<string>)
      requires Valid() && i < |fields| && fields[i].Embed? && embedded[i] != null
      modifies Repr
      ensures Valid() && fresh(Repr - old(Repr))
      ensures embedded == old(embedded)
      ensures var filled := Deserialize(codec, fields[i].fields, old(SlotAt(i)).slots.value, store);
              error == Failure(filled) && (error.None? ==> SlotAt(i) == Nested(Some(filled.value)))
      ensures forall k :: 0 <= k < |fields| && k != i ==> SlotAt(k) == old(SlotAt(k))
      decreases fields[i], 0
    {
      assert forall k :: 0 <= k < |fields| ==> OwnsOne(fields[k], embedded[k], Repr - {this});
      var child := embedded[i];
      forall k | 0 <= k < |fields| && k != i && embedded[k] != null
        ensures embedded[k] in embedded[k].Repr && embedded[k].Repr !! child.Repr && this !in embedded[k].Repr
      {
        Apart(i, k);
      }
      error := child.DeserializeValue(codec, store);
      Repr := Repr + child.Repr;
      forall k | 0 <= k < |fields|
        ensures OwnsOne(fields[k], embedded[k], Repr - {this})
        ensures k != i && embedded[k] != null ==> embedded[k].Repr == old(embedded[k].Repr)
      {
        if k != i && embedded[k] != null {
          assert embedded[k].Repr == old(embedded[k].Repr);
          assert embedded[k].Valid();
        }
      }
    }
  }

  function Failure<T>(r: Result<T, string>): Option<string> {
    match r case Ok(_) => None case Err(e) => Some(e)
  }

  ghost predicate Fit<V>(fields: seq<Field>, slots: seq<Slot<V>>) {
    && |slots| == |fields| && Conforms(fields, slots)
    && forall j :: 0 <= j < |fields| ==> FitOne(fields[j], slots[j])
  }

  ghost predicate FitOne<V>(field: Field, slot: Slot<V>) {
    Conforms([field], [slot]) && (field.Leaf? ==> slot.Plain?)
  }

  // The two passes stop at the first field that fails.

  lemma {:induction false} ScanFails<V>(codec: Codec<V>, fields: seq<Field>, slots: seq<Slot<V>>,
                                        store: map<string, string>, k: nat)
    requires Fit(fields, slots) && k < |fields|
    requires forall j :: 0 <= j < k ==> ScanLeaf(codec, fields[j], slots[j], store).Ok?
    requires ScanLeaf(codec, fields[k], slots[k], store).Err?
    ensures Scan(codec, fields, slots, store) == Err(ScanLeaf(codec, fields[k], slots[k], store).error)
  {
    if k > 0 {
      ScanFails(codec, fields[1..], slots[1..], store, k - 1);
    }
  }

  lemma {:induction false} ScanSucceeds<V>(codec: Codec<V>, fields: seq<Field>, slots: seq<Slot<V>>,
                                           store: map<string, string>, after: seq<Slot<V>>)
    requires Fit(fields, slots) && |after| == |fields|
    requires forall j :: 0 <= j < |fields| ==> ScanLeaf(codec, fields[j], slots[j], store) == Ok(after[j])
    ensures Scan(codec, fields, slots, store) == Ok(after)
  {
    if fields != [] {
      ScanSucceeds(codec, fields[1..], slots[1..], store, after[1..]);
      assert [after[0]] + after[1..] == after;
    }
  }

  lemma {:induction false} DescendFails<V>(codec: Codec<V>, fields: seq<Field>, slots: seq<Slot<V>>,
                                           store: map<string, string>, k: nat)
    requires Fit(fields, slots) && k < |fields|
    requires forall j :: 0 <= j < k ==> Enter(codec, fields[j], slots[j], store).Ok?
    requires Enter(codec, fields[k], slots[k], store).Err?
    ensures Descend(codec, fields, slots, store) == Err(Enter(codec, fields[k], slots[k], store).error)
  {
    if k > 0 {
      DescendFails(codec, fields[1..], slots[1..], store, k - 1);
    }
  }

  lemma {:induction false} DescendSucceeds<V>(codec: Codec<V>, fields: seq<Field>, slots: seq<Slot<V>>,
                                              store: map<string, string>, after: seq<Slot<V>>)
    requires Fit(fields, slots) && |after| == |fields|
    requires forall j :: 0 <= j < |fields| ==> Enter(codec, fields[j], slots[j], store) == Ok(after[j])
    ensures Descend(codec, fields, slots, store) == Ok(after)
  {
    if fields != [] {
      DescendSucceeds(codec, fields[1..], slots[1..], store, after[1..]);
      assert [after[0]] + after[1..] == after;
    }
  }

  lemma {:induction false} ZeroAt<V>(codec: Codec<V>, fields: seq<Field>, k: nat)
    requires k < |fields|
    ensures |Zero(codec, fields)| == |fields|
    ensures Zero(codec, fields)[k] == match fields[k]
                                      case Leaf(_) => Plain(codec.zero)
                                      case Embed(pointer, _, inner) =>
                                        Nested(if pointer then None else Some(Zero(codec, inner)))
  {
    if k > 0 {
      ZeroAt(codec, fields[1..], k - 1);
    }
  }

  lemma OwnsOneMore<V>(fields: seq<Field>, children: seq<Target?<V>>, owned: set<object>, field: Field,
                       child: Target?<V>, more: set<object>)
    requires Owns(fields, children, owned) && owned <= more
    requires OwnsOne(field, child, more) && (child != null ==> child.Repr !! owned)
    ensures Owns(fields + [field], children + [child], more)
  {
    var all, childs := fields + [field], children + [child];
    forall i | 0 <= i < |all| ensures OwnsOne(all[i], childs[i], more) {
      assert i < |fields| ==> OwnsOne(fields[i], children[i], owned);
    }
    assert forall i :: 0 <= i < |fields| && children[i] != null ==> children[i].Repr <= owned by {
      assert forall i :: 0 <= i < |fields| ==> OwnsOne(fields[i], children[i], owned);
    }
  }

  /** Only structs embedded by value exist in a zero value. */
  method ZeroChildren<V>(codec: Codec<V>, fields: seq<Field>)
    returns (children: seq<Target?<V>>, ghost owned: set<object>)
    ensures Owns(fields, children, owned) && fresh(owned)
    ensures forall k :: 0 <= k < |fields| ==> OwnsOne(fields[k], children[k], owned) &&
                                              (children[k] == null <==> fields[k].Leaf? || fields[k].pointer) &&
                                              (children[k] != null ==>
                                                 children[k].Value() == Zero(codec, fields[k].fields))
    decreases fields, 0
  {
    children, owned := [], {};
    for i := 0 to |fields|
      invariant Owns(fields[..i], children, owned) && fresh(owned)
      invariant forall k :: 0 <= k < i ==> OwnsOne(fields[k], children[k], owned) &&
                                           (children[k] == null <==> fields[k].Leaf? || fields[k].pointer) &&
                                           (children[k] != null ==>
                                              children[k].Value() == Zero(codec, fields[k].fields))
    {
      var child: Target?<V> := null;
      if fields[i].Embed? && !fields[i].pointer {
        child := new Target(codec, fields[i].fields);
      }
      ghost var more := if child == null then owned else owned + child.Repr;
      OwnsOneMore(fields[..i], children, owned, fields[i], child, more);
      assert fields[..i + 1] == fields[..i] + [fields[i]];
      children, owned := children + [child], more;
    }
    assert fields[..|fields|] == fields;
  }
}
