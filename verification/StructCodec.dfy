/** Structs as Redis hashes (connectors/storage/v3/storage.go): which field names are asked for, which
    name and text pairs are written, and how a struct is filled from what was stored. Structs are
    trees of tagged leaves and embedded structs, by value or by pointer. */
module StructCodec {
  import opened Wrappers
  import opened Ledgers

  /** `exported` tells whether reflection may set and expose an embedded field. */
  datatype Field = Leaf(tag: string) | Embed(pointer: bool, exported: bool, fields: seq<Field>)

  /** The contents of a field; a nil embedded pointer is `Nested(None)`. */
  datatype Slot<V> = Plain(value: V) | Nested(slots: Option<seq<Slot<V>>>)

  /** How leaf values are written to and read from text. */
  datatype Codec<!V> = Codec(write: V -> string, parse: string -> Option<V>, isEmpty: V -> bool, zero: V)

  ghost predicate Invertible<V(!new)>(codec: Codec<V>) {
    forall v: V :: codec.parse(codec.write(v)) == Some(v)
  }

  // Tags.

  /** The text before and after the first `c`; nothing after if there is none. */
  function Cut(s: string, c: char): (string, string) {
    if s == "" then ("", "")
    else if s[0] == c then ("", s[1..])
    else (([s[0]] + Cut(s[1..], c).0), Cut(s[1..], c).1)
  }

  function Split(s: string, c: char): seq<string>
    decreases |s|
  {
    if c !in s then [s] else (CutShrinks(s, c); [Cut(s, c).0] + Split(Cut(s, c).1, c))
  }

  lemma {:induction false} CutShrinks(s: string, c: char)
    ensures c in s ==> |Cut(s, c).1| < |s|
    ensures c !in s ==> Cut(s, c) == (s, "")
  {
    if s != "" && s[0] != c {
      CutShrinks(s[1..], c);
      assert [s[0]] + s[1..] == s;
    }
  }

  lemma {:induction false} CutApart(s: string, c: char)
    ensures c !in Cut(s, c).0
    ensures c in s ==> s == Cut(s, c).0 + [c] + Cut(s, c).1
  {
    if s != "" && s[0] != c {
      CutApart(s[1..], c);
      assert s == [s[0]] + s[1..];
    }
  }

  lemma {:induction false} CutAt(a: string, c: char, b: string)
    requires c !in a
    ensures Cut(a + [c] + b, c) == (a, b)
  {
    var s := a + [c] + b;
    if a == "" {
      assert s == [c] + b;
    } else {
      assert s[1..] == a[1..] + [c] + b;
      CutAt(a[1..], c, b);
      assert [a[0]] + a[1..] == a;
    }
  }

  function NameOf(tag: string): string {
    Cut(tag, ',').0
  }

  predicate IsOmitEmpty(opt: string) {
    "omitempty" in Split(opt, ',')
  }

  predicate HasOmitEmpty(tag: string) {
    IsOmitEmpty(Cut(tag, ',').1)
  }

  /** `word` stands in the text between two commas, or between one and an end. */
  ghost predicate Between(text: string, word: string) {
    exists pre, post ::
      && text == Around(pre, word, post)
      && (pre == "" || pre[|pre| - 1] == ',')
      && (post == "" || post[0] == ',')
  }

  function Around(pre: string, word: string, post: string): string {
    pre + word + post
  }

  lemma AroundLonger(more: string, pre: string, word: string, post: string)
    ensures more + Around(pre, word, post) == Around(more + pre, word, post)
  {
  }

  lemma {:induction false} SplitFinds(text: string, word: string) returns (pre: string, post: string)
    requires word in Split(text, ',')
    ensures text == Around(pre, word, post)
    ensures pre == "" || pre[|pre| - 1] == ','
    ensures post == "" || post[0] == ','
    decreases |text|
  {
    pre, post := "", "";
    if ',' in text {
      var (head, tail) := Cut(text, ',');
      CutShrinks(text, ',');
      CutApart(text, ',');
      if word == head {
        post := "," + tail;
      } else {
        pre, post := SplitFinds(tail, word);
        AroundLonger(head + ",", pre, word, post);
        pre := head + "," + pre;
      }
    }
  }

  lemma {:induction false} SplitHas(pre: string, word: string, post: string)
    requires ',' !in word
    requires pre == "" || pre[|pre| - 1] == ','
    requires post == "" || post[0] == ','
    ensures word in Split(Around(pre, word, post), ',')
    decreases |pre|
  {
    var text := Around(pre, word, post);
    if pre == "" && post == "" {
      assert text == word;
    } else if pre == "" {
      assert text == word + [','] + post[1..];
      CutAt(word, ',', post[1..]);
    } else {
      assert ',' in pre;
      var (head, tail) := Cut(pre, ',');
      CutShrinks(pre, ',');
      CutApart(pre, ',');
      assert tail == "" || tail[|tail| - 1] == pre[|pre| - 1];
      assert text == head + [','] + Around(tail, word, post);
      CutAt(head, ',', Around(tail, word, post));
      SplitHas(tail, word, post);
    }
  }

  /** An option text asks for empty values to be left out iff `omitempty` stands between its commas. */
  lemma OptionMeaning(opt: string)
    ensures IsOmitEmpty(opt) <==> Between(opt, "omitempty")
  {
    if IsOmitEmpty(opt) {
      var pre, post := SplitFinds(opt, "omitempty");
    }
    if pre, post :| opt == Around(pre, "omitempty", post) && (pre == "" || pre[|pre| - 1] == ',') &&
                    (post == "" || post[0] == ',') {
      SplitHas(pre, "omitempty", post);
    }
  }

  /** A tag is a name, alone or followed by a comma and the options. */
  lemma TagMeaning(name: string, opt: string)
    requires ',' !in name
    ensures NameOf(name) == name && !HasOmitEmpty(name)
    ensures NameOf(name + "," + opt) == name
    ensures HasOmitEmpty(name + "," + opt) <==> Between(opt, "omitempty")
  {
    CutShrinks(name, ',');
    CutAt(name, ',', opt);
    OptionMeaning(opt);
  }

  /** The option loop: true iff one of the comma-separated options is "omitempty". */
  method OmitEmpty(opt: string) returns (found: bool)
    ensures found <==> IsOmitEmpty(opt)
    ensures found <==> Between(opt, "omitempty")
  {
    OptionMeaning(opt);
    var rest := opt;
    while rest != ""
      invariant IsOmitEmpty(opt) <==> IsOmitEmpty(rest)
      decreases |rest|
    {
      CutShrinks(rest, ',');
      var (name, tail) := Cut(rest, ',');
      if name == "omitempty" {
        return true;
      }
      rest := tail;
    }
    return false;
  }

  predicate Tagged(tag: string) {
    tag != "" && tag != "-"
  }

  /** Leaves that are written and read. */
  predicate Stored(tag: string) {
    Tagged(tag) && NameOf(tag) != ""
  }

  // The three recursions of the source.

  function CollectFields(fields: seq<Field>): seq<string> {
    if fields == [] then [] else
    (match fields[0]
     case Embed(_, _, inner) => CollectFields(inner)
     case Leaf(tag) => if Tagged(tag) then [NameOf(tag)] else []) + CollectFields(fields[1..])
  }

  /** `slots` are the contents of a struct with these fields. */
  predicate Conforms<V>(fields: seq<Field>, slots: seq<Slot<V>>) {
    |fields| == |slots| &&
    (fields == [] ||
     (Conforms(fields[1..], slots[1..]) &&
      match fields[0]
      case Leaf(_) => slots[0].Plain?
      case Embed(pointer, _, inner) =>
        slots[0].Nested? && if slots[0].slots.None? then pointer else Conforms(inner, slots[0].slots.value)))
  }

  predicate Omitted<V>(codec: Codec<V>, tag: string, v: V) {
    HasOmitEmpty(tag) && codec.isEmpty(v)
  }

  function Serialize<V>(codec: Codec<V>, fields: seq<Field>, slots: seq<Slot<V>>): seq<(string, string)>
    requires Conforms(fields, slots)
  {
    if fields == [] then [] else
    (match fields[0]
     case Embed(_, _, inner) => if slots[0].slots.None? then [] else Serialize(codec, inner, slots[0].slots.value)
     case Leaf(tag) =>
       if !Stored(tag) || Omitted(codec, tag, slots[0].value) then []
       else [(NameOf(tag), codec.write(slots[0].value))])
    + Serialize(codec, fields[1..], slots[1..])
  }

  function Zero<V>(codec: Codec<V>, fields: seq<Field>): (slots: seq<Slot<V>>)
    ensures Conforms(fields, slots)
  {
    if fields == [] then [] else
    [match fields[0]
     case Leaf(_) => Plain(codec.zero)
     case Embed(pointer, _, inner) => Nested(if pointer then None else Some(Zero(codec, inner)))]
    + Zero(codec, fields[1..])
  }

  /** The client library's scan: fills the leaves of one struct, not those of embedded ones. */
  function Scan<V>(codec: Codec<V>, fields: seq<Field>, slots: seq<Slot<V>>, store: map<string, string>)
    : (r: Result<seq<Slot<V>>, string>)
    requires Conforms(fields, slots)
    ensures r.Ok? ==> Conforms(fields, r.value)
  {
    if fields == [] then Ok([]) else
    var head := ScanLeaf(codec, fields[0], slots[0], store);
    if head.Err? then Err(head.error) else
    var rest := Scan(codec, fields[1..], slots[1..], store);
    if rest.Err? then rest else Ok([head.value] + rest.value)
  }

  function ScanLeaf<V>(codec: Codec<V>, field: Field, slot: Slot<V>, store: map<string, string>)
    : (r: Result<Slot<V>, string>)
    requires field.Leaf? ==> slot.Plain?
    ensures field.Leaf? && r.Ok? ==> r.value.Plain?
    ensures field.Embed? ==> r == Ok(slot)
  {
    if field.Leaf? && Stored(field.tag) && NameOf(field.tag) in store then
      match codec.parse(store[NameOf(field.tag)])
      case Some(v) => Ok(Plain(v))
      case None => Err(NameOf(field.tag))
    else Ok(slot)
  }

  /** `DeserializeValue`: scan this struct, then allocate and fill the embedded ones in turn. */
  function Deserialize<V>(codec: Codec<V>, fields: seq<Field>, slots: seq<Slot<V>>, store: map<string, string>)
    : (r: Result<seq<Slot<V>>, string>)
    requires Conforms(fields, slots)
    ensures r.Ok? ==> Conforms(fields, r.value)
    decreases fields, 1
  {
    var scanned := Scan(codec, fields, slots, store);
    if scanned.Err? then scanned else Descend(codec, fields, scanned.value, store)
  }

  function Descend<V>(codec: Codec<V>, fields: seq<Field>, slots: seq<Slot<V>>, store: map<string, string>)
    : (r: Result<seq<Slot<V>>, string>)
    requires Conforms(fields, slots)
    ensures r.Ok? ==> Conforms(fields, r.value)
    decreases fields, 0
  {
    if fields == [] then Ok([]) else
    var head := Enter(codec, fields[0], slots[0], store);
    if head.Err? then Err(head.error) else
    var rest := Descend(codec, fields[1..], slots[1..], store);
    if rest.Err? then rest else Ok([head.value] + rest.value)
  }

  /** One embedded field: a nil pointer that may be set is allocated; a field that reflection may
      not expose is left alone. */
  function Enter<V>(codec: Codec<V>, field: Field, slot: Slot<V>, store: map<string, string>)
    : (r: Result<Slot<V>, string>)
    requires Conforms([field], [slot])
    ensures r.Ok? ==> Conforms([field], [r.value])
    ensures field.Leaf? ==> r == Ok(slot)
    decreases field, 2
  {
    match field
    case Leaf(_) => Ok(slot)
    case Embed(_, exported, inner) =>
      if !exported then Ok(slot) else
      var target := if slot.slots.None? then Zero(codec, inner) else slot.slots.value;
      match Deserialize(codec, inner, target, store)
      case Ok(filled) => Ok(Nested(Some(filled)))
      case Err(e) => Err(e)
  }

  // Field by field: the two passes of the source do what one pass over the fields does.

  function Fieldwise<V>(codec: Codec<V>, fields: seq<Field>, slots: seq<Slot<V>>, store: map<string, string>)
    : (r: Option<seq<Slot<V>>>)
    requires Conforms(fields, slots)
    ensures r.Some? ==> Conforms(fields, r.value)
  {
    if fields == [] then Some([]) else
    var head := One(codec, fields[0], slots[0], store);
    var rest := Fieldwise(codec, fields[1..], slots[1..], store);
    if head.None? || rest.None? then None else Some([head.value] + rest.value)
  }

  function One<V>(codec: Codec<V>, field: Field, slot: Slot<V>, store: map<string, string>): (r: Option<Slot<V>>)
    requires Conforms([field], [slot])
    ensures r.Some? ==> Conforms([field], [r.value])
  {
    match field
    case Leaf(_) => (match ScanLeaf(codec, field, slot, store) case Ok(s) => Some(s) case Err(_) => None)
    case Embed(_, exported, inner) =>
      if !exported then Some(slot) else
      var target := if slot.slots.None? then Zero(codec, inner) else slot.slots.value;
      match Fieldwise(codec, inner, target, store)
      case Some(filled) => Some(Nested(Some(filled)))
      case None => None
  }

  lemma {:induction false} TwoPasses<V>(codec: Codec<V>, fields: seq<Field>, slots: seq<Slot<V>>,
                                        store: map<string, string>)
    requires Conforms(fields, slots)
    ensures Deserialize(codec, fields, slots, store).Ok? <==> Fieldwise(codec, fields, slots, store).Some?
    ensures Deserialize(codec, fields, slots, store).Ok? ==>
              Deserialize(codec, fields, slots, store).value == Fieldwise(codec, fields, slots, store).value
    decreases fields, 1
  {
    if fields != [] {
      TwoPasses(codec, fields[1..], slots[1..], store);
      TwoPassesOne(codec, fields[0], slots[0], store);
      var head := ScanLeaf(codec, fields[0], slots[0], store);
      var rest := Scan(codec, fields[1..], slots[1..], store);
      if head.Ok? && rest.Ok? {
        var scanned := [head.value] + rest.value;
        assert Scan(codec, fields, slots, store) == Ok(scanned);
        assert scanned[1..] == rest.value;
        assert Deserialize(codec, fields[1..], slots[1..], store) == Descend(codec, fields[1..], scanned[1..], store);
      }
    }
  }

  lemma {:induction false} TwoPassesOne<V>(codec: Codec<V>, field: Field, slot: Slot<V>, store: map<string, string>)
    requires Conforms([field], [slot])
    ensures var head := ScanLeaf(codec, field, slot, store);
            One(codec, field, slot, store) == if head.Ok? && Enter(codec, field, head.value, store).Ok?
            then Some(Enter(codec, field, head.value, store).value) else None
    decreases field, 2
  {
    if field.Embed? {
      TwoPasses(codec, field.fields, if slot.slots.None? then Zero(codec, field.fields) else slot.slots.value, store);
    }
  }

  // Names.

  function Names(pairs: seq<(string, string)>): seq<string> {
    if pairs == [] then [] else [pairs[0].0] + Names(pairs[1..])
  }

  lemma {:induction false} NamesAppend(a: seq<(string, string)>, b: seq<(string, string)>)
    ensures Names(a + b) == Names(a) + Names(b)
  {
    if a == [] {
      assert a + b == b;
    } else {
      assert (a + b)[1..] == a[1..] + b;
      NamesAppend(a[1..], b);
    }
  }

  /** Main result: the names written are those asked for, in the same order, some left out. */
  lemma {:induction false} WrittenNamesAreCollected<V>(codec: Codec<V>, fields: seq<Field>, slots: seq<Slot<V>>)
    requires Conforms(fields, slots)
    ensures Subsequence(Names(Serialize(codec, fields, slots)), CollectFields(fields))
  {
    if fields != [] {
      WrittenNamesAreCollected(codec, fields[1..], slots[1..]);
      var rest := Serialize(codec, fields[1..], slots[1..]);
      match fields[0] {
        case Embed(_, _, inner) =>
          if slots[0].slots.Some? {
            WrittenNamesAreCollected(codec, inner, slots[0].slots.value);
            NamesAppend(Serialize(codec, inner, slots[0].slots.value), rest);
            SubsequenceAppend(Names(Serialize(codec, inner, slots[0].slots.value)), CollectFields(inner),
                              Names(rest), CollectFields(fields[1..]));
          } else {
            assert [] + rest == rest;
            SubsequenceAppend([], CollectFields(inner), Names(rest), CollectFields(fields[1..]));
            assert [] + Names(rest) == Names(rest);
          }
        case Leaf(tag) =>
          var skipped := !Stored(tag) || Omitted(codec, tag, slots[0].value);
          var own := if skipped then [] else [(NameOf(tag), codec.write(slots[0].value))];
          var asked := if Tagged(tag) then [NameOf(tag)] else [];
          assert Names(own) == [] || Names(own) == asked;
          NamesAppend(own, rest);
          SubsequenceAppend(Names(own), asked, Names(rest), CollectFields(fields[1..]));
      }
    }
  }

  // Round trip.

  /** What `pairs` say about `name`; the last one wins, as in a hash. */
  function Lookup(pairs: seq<(string, string)>, name: string): Option<string> {
    if pairs == [] then None
    else if Lookup(pairs[1..], name).Some? then Lookup(pairs[1..], name)
    else if pairs[0].0 == name then Some(pairs[0].1)
    else None
  }

  /** The hash after setting the pairs one after the other. */
  function Apply(store: map<string, string>, pairs: seq<(string, string)>): map<string, string>
    decreases |pairs|
  {
    if pairs == [] then store else Apply(store[pairs[0].0 := pairs[0].1], pairs[1..])
  }

  lemma {:induction false} ApplyLookup(store: map<string, string>, pairs: seq<(string, string)>, name: string)
    ensures name in Apply(store, pairs) <==> Lookup(pairs, name).Some? || name in store
    ensures name in Apply(store, pairs) ==>
              Apply(store, pairs)[name] == if Lookup(pairs, name).Some? then Lookup(pairs, name).value else store[name]
    decreases |pairs|
  {
    if pairs != [] {
      ApplyLookup(store[pairs[0].0 := pairs[0].1], pairs[1..], name);
    }
  }

  lemma {:induction false} LookupAppend(a: seq<(string, string)>, b: seq<(string, string)>, name: string)
    ensures Lookup(a + b, name) == if Lookup(b, name).Some? then Lookup(b, name) else Lookup(a, name)
  {
    if a == [] {
      assert a + b == b;
    } else {
      assert (a + b)[1..] == a[1..] + b;
      LookupAppend(a[1..], b, name);
    }
  }

  lemma {:induction false} LookupNames(pairs: seq<(string, string)>, name: string)
    ensures Lookup(pairs, name).Some? <==> name in Names(pairs)
  {
    if pairs != [] {
      LookupNames(pairs[1..], name);
    }
  }

  predicate Distinct<T(==)>(xs: seq<T>) {
    forall i, j :: 0 <= i < j < |xs| ==> xs[i] != xs[j]
  }

  /** `now` agrees on the names of these fields with `before` overwritten by the pairs. */
  ghost predicate Overwrites(names: seq<string>, pairs: seq<(string, string)>,
                             before: map<string, string>, now: map<string, string>)
  {
    forall name :: name in names ==>
                     && (name in now <==> Lookup(pairs, name).Some? || name in before)
                     && (name in now ==>
                           now[name] == if Lookup(pairs, name).Some? then Lookup(pairs, name).value else before[name])
  }

  /** The value read back: the new value where it was written, the older one where it was omitted,
      held back by a nil pointer, or out of reflection's reach. */
  function Merge<V>(codec: Codec<V>, fields: seq<Field>, v: seq<Slot<V>>, older: seq<Slot<V>>): (r: seq<Slot<V>>)
    requires Conforms(fields, v) && Conforms(fields, older)
    ensures Conforms(fields, r)
  {
    if fields == [] then [] else
    [match fields[0]
     case Leaf(tag) => if !Stored(tag) || Omitted(codec, tag, v[0].value) then older[0] else v[0]
     case Embed(_, exported, inner) =>
       if !exported || v[0].slots.None? || older[0].slots.None? then older[0]
       else Nested(Some(Merge(codec, inner, v[0].slots.value, older[0].slots.value)))]
    + Merge(codec, fields[1..], v[1..], older[1..])
  }

  lemma OverwritesParts(a: seq<string>, b: seq<string>, before: map<string, string>, now: map<string, string>)
    requires Overwrites(a + b, [], before, now)
    ensures Overwrites(a, [], before, now) && Overwrites(b, [], before, now)
  {
    assert forall name :: name in a || name in b ==> name in a + b;
  }

  /** Reading depends only on the names asked for. */
  lemma {:induction false} SameReads<V>(codec: Codec<V>, fields: seq<Field>, target: seq<Slot<V>>,
                                        before: map<string, string>, now: map<string, string>)
    requires Conforms(fields, target) && Overwrites(CollectFields(fields), [], before, now)
    ensures Fieldwise(codec, fields, target, now) == Fieldwise(codec, fields, target, before)
  {
    if fields != [] {
      OverwritesParts(OwnNames(fields[0]), CollectFields(fields[1..]), before, now);
      SameReads(codec, fields[1..], target[1..], before, now);
      match fields[0] {
        case Leaf(tag) =>
          if Tagged(tag) {
            assert NameOf(tag) in OwnNames(fields[0]);
          }
        case Embed(_, exported, inner) =>
          if exported {
            var entered := if target[0].slots.None? then Zero(codec, inner) else target[0].slots.value;
            SameReads(codec, inner, entered, before, now);
          }
      }
    }
  }

  function OwnNames(field: Field): seq<string> {
    match field
    case Embed(_, _, inner) => CollectFields(inner)
    case Leaf(tag) => if Tagged(tag) then [NameOf(tag)] else []
  }

  function OwnPairs<V>(codec: Codec<V>, field: Field, slot: Slot<V>): seq<(string, string)>
    requires Conforms([field], [slot])
  {
    match field
    case Embed(_, _, inner) => if slot.slots.None? then [] else Serialize(codec, inner, slot.slots.value)
    case Leaf(tag) =>
      if !Stored(tag) || Omitted(codec, tag, slot.value) then [] else [(NameOf(tag), codec.write(slot.value))]
  }

  lemma OwnPairsOwnNames<V>(codec: Codec<V>, field: Field, slot: Slot<V>, name: string)
    requires Conforms([field], [slot]) && Lookup(OwnPairs(codec, field, slot), name).Some?
    ensures name in OwnNames(field)
  {
    var pairs := OwnPairs(codec, field, slot);
    LookupNames(pairs, name);
    match field {
      case Embed(_, _, inner) =>
        WrittenNamesAreCollected(codec, inner, slot.slots.value);
        SubsequenceMember(Names(pairs), CollectFields(inner), name);
      case Leaf(tag) =>
        assert Names(pairs) == [NameOf(tag)] + Names(pairs[1..]) && pairs[1..] == [];
    }
  }

  lemma RestPairsRestNames<V>(codec: Codec<V>, fields: seq<Field>, slots: seq<Slot<V>>, name: string)
    requires Conforms(fields, slots) && Lookup(Serialize(codec, fields, slots), name).Some?
    ensures name in CollectFields(fields)
  {
    LookupNames(Serialize(codec, fields, slots), name);
    WrittenNamesAreCollected(codec, fields, slots);
    SubsequenceMember(Names(Serialize(codec, fields, slots)), CollectFields(fields), name);
  }

  lemma DistinctParts<T>(a: seq<T>, b: seq<T>)
    requires Distinct(a + b)
    ensures Distinct(a) && Distinct(b)
    ensures forall x :: x in a ==> x !in b
  {
    forall i, j | 0 <= i < j < |a|
      ensures a[i] != a[j]
    {
      assert (a + b)[i] != (a + b)[j];
    }
    forall i, j | 0 <= i < j < |b|
      ensures b[i] != b[j]
    {
      assert (a + b)[|a| + i] != (a + b)[|a| + j];
    }
    forall i, j | 0 <= i < |a| && 0 <= j < |b|
      ensures a[i] != b[j]
    {
      assert (a + b)[i] != (a + b)[|a| + j];
    }
  }

  /** With distinct names the first field and the others are overwritten independently. */
  lemma OverwritesSplit<V>(codec: Codec<V>, fields: seq<Field>, v: seq<Slot<V>>, before: map<string, string>,
                           now: map<string, string>)
    requires fields != [] && Conforms(fields, v) && Distinct(CollectFields(fields))
    requires Overwrites(CollectFields(fields), Serialize(codec, fields, v), before, now)
    ensures Overwrites(OwnNames(fields[0]), OwnPairs(codec, fields[0], v[0]), before, now)
    ensures Overwrites(CollectFields(fields[1..]), Serialize(codec, fields[1..], v[1..]), before, now)
    ensures Distinct(OwnNames(fields[0])) && Distinct(CollectFields(fields[1..]))
  {
    var own, rest := OwnPairs(codec, fields[0], v[0]), Serialize(codec, fields[1..], v[1..]);
    assert Serialize(codec, fields, v) == own + rest;
    assert CollectFields(fields) == OwnNames(fields[0]) + CollectFields(fields[1..]);
    DistinctParts(OwnNames(fields[0]), CollectFields(fields[1..]));
    forall name | name in CollectFields(fields)
      ensures name in OwnNames(fields[0]) ==> Lookup(own + rest, name) == Lookup(own, name)
      ensures name in CollectFields(fields[1..]) ==> Lookup(own + rest, name) == Lookup(rest, name)
    {
      LookupAppend(own, rest, name);
      if Lookup(rest, name).Some? {
        RestPairsRestNames(codec, fields[1..], v[1..], name);
      }
      if Lookup(own, name).Some? {
        OwnPairsOwnNames(codec, fields[0], v[0], name);
      }
    }
  }

  /** None of the names the pairs write is stored. */
  ghost predicate Unwritten(pairs: seq<(string, string)>, before: map<string, string>) {
    forall name :: name in before ==> Lookup(pairs, name).None?
  }

  lemma UnwrittenParts(a: seq<(string, string)>, b: seq<(string, string)>, before: map<string, string>)
    requires Unwritten(a + b, before)
    ensures Unwritten(a, before) && Unwritten(b, before)
  {
    forall name | name in before
      ensures Lookup(a, name).None? && Lookup(b, name).None?
    {
      LookupAppend(a, b, name);
    }
  }

  lemma LeafReads<V(!new)>(codec: Codec<V>, tag: string, target: Slot<V>, v: Slot<V>,
                           before: map<string, string>, now: map<string, string>)
    requires Invertible(codec) && target.Plain? && v.Plain?
    requires Unwritten(OwnPairs(codec, Leaf(tag), v), before)
    requires Overwrites(OwnNames(Leaf(tag)), OwnPairs(codec, Leaf(tag), v), before, now)
    ensures One(codec, Leaf(tag), target, now) ==
            if !Stored(tag) || Omitted(codec, tag, v.value) then One(codec, Leaf(tag), target, before) else Some(v)
    ensures Stored(tag) && !Omitted(codec, tag, v.value) ==> One(codec, Leaf(tag), target, before) == Some(target)
  {
    if Stored(tag) {
      assert NameOf(tag) in OwnNames(Leaf(tag));
      assert codec.parse(codec.write(v.value)) == Some(v.value);
      var pair := (NameOf(tag), codec.write(v.value));
      var pairs := [pair];
      assert pairs[1..] == [] && Lookup(pairs, NameOf(tag)) == Some(pair.1);
    }
  }

  /** What is read after an overwrite is the merge of the new value and what is read of the fields not
      written, and fails iff that does. `before` is the store without the names that were written. */
  lemma {:induction false} MergeReads<V(!new)>(codec: Codec<V>, fields: seq<Field>, target: seq<Slot<V>>,
                                               v: seq<Slot<V>>, before: map<string, string>, now: map<string, string>)
    requires Invertible(codec) && Conforms(fields, target) && Conforms(fields, v) && Distinct(CollectFields(fields))
    requires Unwritten(Serialize(codec, fields, v), before)
    requires Overwrites(CollectFields(fields), Serialize(codec, fields, v), before, now)
    ensures Fieldwise(codec, fields, target, now) ==
            match Fieldwise(codec, fields, target, before)
            case Some(older) => Some(Merge(codec, fields, v, older))
            case None => None
    decreases fields
  {
    if fields != [] {
      OverwritesSplit(codec, fields, v, before, now);
      UnwrittenParts(OwnPairs(codec, fields[0], v[0]), Serialize(codec, fields[1..], v[1..]), before);
      MergeReads(codec, fields[1..], target[1..], v[1..], before, now);
      match fields[0] {
        case Leaf(tag) => LeafReads(codec, tag, target[0], v[0], before, now);
        case Embed(_, _, _) => EmbedReads(codec, fields[0], target[0], v[0], before, now);
      }
    }
  }

  lemma {:induction false} EmbedReads<V(!new)>(codec: Codec<V>, field: Field, target: Slot<V>, v: Slot<V>,
                                               before: map<string, string>, now: map<string, string>)
    requires Invertible(codec) && field.Embed? && Distinct(OwnNames(field))
    requires Conforms([field], [target]) && Conforms([field], [v])
    requires Unwritten(OwnPairs(codec, field, v), before)
    requires Overwrites(OwnNames(field), OwnPairs(codec, field, v), before, now)
    ensures One(codec, field, target, before).None? ==> One(codec, field, target, now).None?
    ensures One(codec, field, target, before).Some? ==>
              var older := One(codec, field, target, before).value;
              One(codec, field, target, now) ==
              Some(if !field.exported || v.slots.None? || older.slots.None? then older
                   else Nested(Some(Merge(codec, field.fields, v.slots.value, older.slots.value))))
    decreases field
  {
    if field.exported {
      var entered := if target.slots.None? then Zero(codec, field.fields) else target.slots.value;
      if v.slots.None? {
        SameReads(codec, field.fields, entered, before, now);
      } else {
        MergeReads(codec, field.fields, entered, v.slots.value, before, now);
      }
    }
  }

  // Set and Get.

  /** `Get` of one key: nothing if none of the names asked for is stored, otherwise a fresh struct
      filled from the hash. */
  function Get<V>(codec: Codec<V>, fields: seq<Field>, store: map<string, string>)
    : Result<Option<seq<Slot<V>>>, string>
  {
    match Deserialize(codec, fields, Zero(codec, fields), store)
    case Err(e) => Err(e)
    case Ok(filled) => Ok(if exists name :: name in CollectFields(fields) && name in store then Some(filled) else None)
  }

  /** `Set` of one value merges its pairs into the hash of its key. */
  function Set<V>(codec: Codec<V>, fields: seq<Field>, v: seq<Slot<V>>, store: map<string, string>): map<string, string>
    requires Conforms(fields, v)
  {
    Apply(store, Serialize(codec, fields, v))
  }

  /** What a write of the pairs leaves standing. */
  function Kept(store: map<string, string>, pairs: seq<(string, string)>): map<string, string> {
    map name | name in store && Lookup(pairs, name).None? :: store[name]
  }

  lemma SetOverwrites<V>(codec: Codec<V>, fields: seq<Field>, v: seq<Slot<V>>, store: map<string, string>)
    requires Conforms(fields, v)
    ensures var pairs := Serialize(codec, fields, v);
            && Unwritten(pairs, Kept(store, pairs))
            && Overwrites(CollectFields(fields), pairs, Kept(store, pairs), Set(codec, fields, v, store))
  {
    var pairs, now := Serialize(codec, fields, v), Set(codec, fields, v, store);
    forall name | name in CollectFields(fields)
      ensures name in now <==> Lookup(pairs, name).Some? || name in store
      ensures name in now ==> now[name] == if Lookup(pairs, name).Some? then Lookup(pairs, name).value else store[name]
    {
      ApplyLookup(store, pairs, name);
    }
  }

  lemma SomethingWritten<V>(codec: Codec<V>, fields: seq<Field>, v: seq<Slot<V>>, store: map<string, string>)
    requires Conforms(fields, v)
    ensures (exists name :: name in CollectFields(fields) && name in Set(codec, fields, v, store)) <==>
            Serialize(codec, fields, v) != [] || exists name :: name in CollectFields(fields) && name in store
  {
    var pairs := Serialize(codec, fields, v);
    forall name | name in CollectFields(fields)
      ensures name in Set(codec, fields, v, store) <==> Lookup(pairs, name).Some? || name in store
    {
      ApplyLookup(store, pairs, name);
    }
    if pairs != [] {
      LookupNames(pairs, pairs[0].0);
      RestPairsRestNames(codec, fields, v, pairs[0].0);
    }
  }

  /** Main result: for distinct names and an invertible leaf codec, whatever the hash held, `Get` after
      `Set` gives the value merged into what can be read of the fields `Set` did not write, and fails
      iff those cannot be read. Unreadable text under a name that is written does no harm. */
  lemma GetAfterSet<V(!new)>(codec: Codec<V>, fields: seq<Field>, v: seq<Slot<V>>, store: map<string, string>)
    requires Invertible(codec) && Conforms(fields, v) && Distinct(CollectFields(fields))
    ensures var pairs := Serialize(codec, fields, v);
            var older := Deserialize(codec, fields, Zero(codec, fields), Kept(store, pairs));
            var read := Get(codec, fields, Set(codec, fields, v, store));
            && (read.Err? <==> older.Err?)
            && (read.Ok? ==>
                  read.value == if pairs != [] || exists name :: name in CollectFields(fields) && name in store
                  then Some(Merge(codec, fields, v, older.value)) else None)
  {
    var kept, now := Kept(store, Serialize(codec, fields, v)), Set(codec, fields, v, store);
    SetOverwrites(codec, fields, v, store);
    TwoPasses(codec, fields, Zero(codec, fields), kept);
    TwoPasses(codec, fields, Zero(codec, fields), now);
    MergeReads(codec, fields, Zero(codec, fields), v, kept, now);
    SomethingWritten(codec, fields, v, store);
  }

  /** The struct holds, in itself or in an embedded struct that is there, a leaf so tagged with this value. */
  predicate Holds<V(==)>(fields: seq<Field>, slots: seq<Slot<V>>, tag: string, value: V)
    requires Conforms(fields, slots)
  {
    fields != [] &&
    ((match fields[0]
      case Leaf(own) => own == tag && slots[0] == Plain(value)
      case Embed(_, _, inner) => slots[0].slots.Some? && Holds(inner, slots[0].slots.value, tag, value)) ||
     Holds(fields[1..], slots[1..], tag, value))
  }

  lemma {:induction false} HeldIsCollected<V>(fields: seq<Field>, slots: seq<Slot<V>>, tag: string, value: V)
    requires Conforms(fields, slots) && Holds(fields, slots, tag, value) && Tagged(tag)
    ensures NameOf(tag) in CollectFields(fields)
  {
    if Holds(fields[1..], slots[1..], tag, value) {
      HeldIsCollected(fields[1..], slots[1..], tag, value);
    } else if fields[0].Embed? {
      HeldIsCollected(fields[0].fields, slots[0].slots.value, tag, value);
    }
  }

  lemma {:induction false} HeldIsWritten<V>(codec: Codec<V>, fields: seq<Field>, slots: seq<Slot<V>>,
                                            tag: string, value: V)
    requires Conforms(fields, slots) && Distinct(CollectFields(fields))
    requires Holds(fields, slots, tag, value) && Stored(tag)
    ensures Lookup(Serialize(codec, fields, slots), NameOf(tag)) ==
            if Omitted(codec, tag, value) then None else Some(codec.write(value))
  {
    var name, rest := NameOf(tag), Serialize(codec, fields[1..], slots[1..]);
    var own := OwnPairs(codec, fields[0], slots[0]);
    assert Serialize(codec, fields, slots) == own + rest;
    assert CollectFields(fields) == OwnNames(fields[0]) + CollectFields(fields[1..]);
    DistinctParts(OwnNames(fields[0]), CollectFields(fields[1..]));
    LookupAppend(own, rest, name);
    if Holds(fields[1..], slots[1..], tag, value) {
      HeldIsCollected(fields[1..], slots[1..], tag, value);
      HeldIsWritten(codec, fields[1..], slots[1..], tag, value);
      if Lookup(own, name).Some? {
        OwnPairsOwnNames(codec, fields[0], slots[0], name);
      }
    } else {
      if Lookup(rest, name).Some? {
        RestPairsRestNames(codec, fields[1..], slots[1..], name);
      }
      if fields[0].Embed? {
        HeldIsCollected(fields[0].fields, slots[0].slots.value, tag, value);
        HeldIsWritten(codec, fields[0].fields, slots[0].slots.value, tag, value);
      }
    }
  }

  /** What `Set` does with one leaf, read off its tag: the entry under its name becomes its text, unless
      its options contain `omitempty` and its value is empty; then the entry stays as it was. */
  lemma SetWritesLeaf<V>(codec: Codec<V>, fields: seq<Field>, v: seq<Slot<V>>, store: map<string, string>,
                         name: string, opt: string, value: V)
    requires Conforms(fields, v) && Distinct(CollectFields(fields))
    requires name != "" && ',' !in name
    ensures var now := Set(codec, fields, v, store);
            && (Holds(fields, v, name + "," + opt, value) ==>
                  if Between(opt, "omitempty") && codec.isEmpty(value)
                  then (name in now <==> name in store) && (name in store ==> now[name] == store[name])
                  else name in now && now[name] == codec.write(value))
            && (Holds(fields, v, name, value) && name != "-" ==> name in now && now[name] == codec.write(value))
  {
    ApplyLookup(store, Serialize(codec, fields, v), name);
    TagMeaning(name, opt);
    if Holds(fields, v, name + "," + opt, value) {
      assert |name + "," + opt| >= 2;
      HeldIsWritten(codec, fields, v, name + "," + opt, value);
    }
    if Holds(fields, v, name, value) && name != "-" {
      HeldIsWritten(codec, fields, v, name, value);
    }
  }

  lemma {:induction false} WrittenIsHeld<V>(codec: Codec<V>, fields: seq<Field>, slots: seq<Slot<V>>, name: string)
    returns (tag: string, value: V)
    requires Conforms(fields, slots) && Lookup(Serialize(codec, fields, slots), name).Some?
    ensures Holds(fields, slots, tag, value) && Stored(tag) && NameOf(tag) == name
  {
    var own, rest := OwnPairs(codec, fields[0], slots[0]), Serialize(codec, fields[1..], slots[1..]);
    assert Serialize(codec, fields, slots) == own + rest;
    LookupAppend(own, rest, name);
    if Lookup(rest, name).Some? {
      tag, value := WrittenIsHeld(codec, fields[1..], slots[1..], name);
    } else if fields[0].Embed? {
      tag, value := WrittenIsHeld(codec, fields[0].fields, slots[0].slots.value, name);
    } else {
      tag, value := fields[0].tag, slots[0].value;
      assert own[1..] == [];
    }
  }

  /** A name that no leaf of the struct bears is left alone; so are leaves tagged `-` or without a name. */
  lemma SetLeavesOthers<V>(codec: Codec<V>, fields: seq<Field>, v: seq<Slot<V>>, store: map<string, string>,
                           name: string)
    requires Conforms(fields, v)
    requires forall tag, value :: Holds(fields, v, tag, value) ==>
                                    tag in ["", "-"] || tag[0] == ',' || (tag != name && !(name + "," <= tag))
    ensures var now := Set(codec, fields, v, store);
            (name in now <==> name in store) && (name in store ==> now[name] == store[name])
  {
    ApplyLookup(store, Serialize(codec, fields, v), name);
    if Lookup(Serialize(codec, fields, v), name).Some? {
      var tag, value := WrittenIsHeld(codec, fields, v, name);
      assert Holds(fields, v, tag, value);
      CutApart(tag, ',');
      CutShrinks(tag, ',');
      assert false;
    }
  }

  /** Every leaf is written, and every embedded struct is there and within reach. */
  predicate Complete<V>(codec: Codec<V>, fields: seq<Field>, v: seq<Slot<V>>)
    requires Conforms(fields, v)
  {
    fields == [] ||
    (Complete(codec, fields[1..], v[1..]) &&
     match fields[0]
     case Leaf(tag) => Stored(tag) && !Omitted(codec, tag, v[0].value)
     case Embed(_, exported, inner) => exported && v[0].slots.Some? && Complete(codec, inner, v[0].slots.value))
  }

  lemma {:induction false} CompleteWrites<V>(codec: Codec<V>, fields: seq<Field>, v: seq<Slot<V>>)
    requires Conforms(fields, v) && Complete(codec, fields, v)
    ensures Names(Serialize(codec, fields, v)) == CollectFields(fields)
  {
    if fields != [] {
      var own, rest := OwnPairs(codec, fields[0], v[0]), Serialize(codec, fields[1..], v[1..]);
      assert Serialize(codec, fields, v) == own + rest;
      CompleteWrites(codec, fields[1..], v[1..]);
      NamesAppend(own, rest);
      if fields[0].Embed? {
        CompleteWrites(codec, fields[0].fields, v[0].slots.value);
      } else {
        assert own[1..] == [];
      }
    }
  }

  lemma {:induction false} CompleteReads<V(!new)>(codec: Codec<V>, fields: seq<Field>, target: seq<Slot<V>>,
                                                  v: seq<Slot<V>>, before: map<string, string>,
                                                  now: map<string, string>)
    requires Invertible(codec) && Conforms(fields, target) && Conforms(fields, v) && Complete(codec, fields, v)
    requires Distinct(CollectFields(fields))
    requires Overwrites(CollectFields(fields), Serialize(codec, fields, v), before, now)
    ensures Fieldwise(codec, fields, target, now) == Some(v)
    decreases fields
  {
    if fields != [] {
      OverwritesSplit(codec, fields, v, before, now);
      CompleteReads(codec, fields[1..], target[1..], v[1..], before, now);
      CompleteReadsOne(codec, fields[0], target[0], v[0], before, now);
      assert [v[0]] + v[1..] == v;
    }
  }

  lemma {:induction false} CompleteReadsOne<V(!new)>(codec: Codec<V>, field: Field, target: Slot<V>, v: Slot<V>,
                                                     before: map<string, string>, now: map<string, string>)
    requires Invertible(codec) && Conforms([field], [target]) && Conforms([field], [v])
    requires field.Leaf? ==> Stored(field.tag) && !Omitted(codec, field.tag, v.value)
    requires field.Embed? ==> field.exported && v.slots.Some? && Complete(codec, field.fields, v.slots.value)
    requires Distinct(OwnNames(field))
    requires Overwrites(OwnNames(field), OwnPairs(codec, field, v), before, now)
    ensures One(codec, field, target, now) == Some(v)
    decreases field
  {
    match field {
      case Leaf(tag) =>
        var pairs := OwnPairs(codec, field, v);
        assert pairs == [(NameOf(tag), codec.write(v.value))] && pairs[1..] == [];
        assert NameOf(tag) in OwnNames(field) && Lookup(pairs, NameOf(tag)) == Some(codec.write(v.value));
        assert codec.parse(codec.write(v.value)) == Some(v.value);
      case Embed(_, _, inner) =>
        CompleteReads(codec, inner, if target.slots.None? then Zero(codec, inner) else target.slots.value,
                      v.slots.value, before, now);
    }
  }

  /** Main result: a value whose leaves are all written, with every embedded struct there and within
      reach, is read back exactly, whatever the hash held before, unreadable texts included. */
  lemma WholeValueComesBack<V(!new)>(codec: Codec<V>, fields: seq<Field>, v: seq<Slot<V>>, store: map<string, string>)
    requires Invertible(codec) && Conforms(fields, v) && Complete(codec, fields, v)
    requires Distinct(CollectFields(fields)) && CollectFields(fields) != []
    ensures Get(codec, fields, Set(codec, fields, v, store)) == Ok(Some(v))
  {
    var pairs, now := Serialize(codec, fields, v), Set(codec, fields, v, store);
    SetOverwrites(codec, fields, v, store);
    CompleteReads(codec, fields, Zero(codec, fields), v, Kept(store, pairs), now);
    TwoPasses(codec, fields, Zero(codec, fields), now);
    CompleteWrites(codec, fields, v);
    var name := CollectFields(fields)[0];
    LookupNames(pairs, name);
    ApplyLookup(store, pairs, name);
    assert name in CollectFields(fields) && name in now;
  }

  /** The names of the leaves that reading can reach. */
  function Visible(fields: seq<Field>): seq<string> {
    if fields == [] then [] else
    (match fields[0]
     case Embed(_, exported, inner) => if exported then Visible(inner) else []
     case Leaf(tag) => if Stored(tag) then [NameOf(tag)] else []) + Visible(fields[1..])
  }

  /** Reading fails iff the text stored for some leaf in reach cannot be parsed. */
  lemma ReadFailure<V>(codec: Codec<V>, fields: seq<Field>, target: seq<Slot<V>>, store: map<string, string>)
    requires Conforms(fields, target)
    ensures Deserialize(codec, fields, target, store).Err? <==>
            exists name :: name in Visible(fields) && name in store && codec.parse(store[name]).None?
  {
    TwoPasses(codec, fields, target, store);
    FieldwiseFailure(codec, fields, target, store);
  }

  lemma {:induction false} FieldwiseFailure<V>(codec: Codec<V>, fields: seq<Field>, target: seq<Slot<V>>,
                                               store: map<string, string>)
    requires Conforms(fields, target)
    ensures Fieldwise(codec, fields, target, store).None? <==>
            exists name :: name in Visible(fields) && name in store && codec.parse(store[name]).None?
  {
    if fields != [] {
      FieldwiseFailure(codec, fields[1..], target[1..], store);
      var own := if fields[0].Leaf? then (if Stored(fields[0].tag) then [NameOf(fields[0].tag)] else [])
      else if fields[0].exported then Visible(fields[0].fields) else [];
      assert Visible(fields) == own + Visible(fields[1..]);
      if fields[0].Embed? {
        FieldwiseFailure(codec, fields[0].fields,
                         if target[0].slots.None? then Zero(codec, fields[0].fields) else target[0].slots.value, store);
      }
      assert One(codec, fields[0], target[0], store).None? <==>
             exists name :: name in own && name in store && codec.parse(store[name]).None?;
    }
  }
}
