/** Comma grouping and JSON of ICE texts (coin/coin.go). */
module CoinFormat {
  import opened Decimal
  import opened CoinText

  /** Groups of three from the right, each with a comma before it. */
  function Groups(s: string): string {
    if |s| < 3 then s else Groups(s[..|s| - 3]) + "," + s[|s| - 3..]
  }

  method FormatGroups(dotIx: nat, r: string) returns (val: string)
    requires dotIx <= |r|
    ensures val == Groups(r[..dotIx])
  {
    val := "";
    var group := "";
    var j := dotIx - 1;
    assert r[..dotIx] + "" == r[..dotIx];
    while j >= 0
      invariant -1 <= j < dotIx && |group| < 3
      invariant Groups(r[..dotIx]) == Groups(r[..j + 1] + group) + val
    {
      assert r[..j + 1] + group == r[..j] + ([r[j]] + group);
      group := [r[j]] + group;
      if |group| == 3 {
        assert (r[..j] + group)[..|r[..j] + group| - 3] == r[..j];
        val := "," + group + val;
        group := "";
        assert r[..j] + "" == r[..j];
      }
      j := j - 1;
    }
    assert r[..0] + group == group;
    if group != "" {
      val := group + val;
    }
  }

  function DropComma(s: string): string {
    if s != "" && s[0] == ',' then s[1..] else s
  }

  /** The text that is grouped: no blanks around it, a digit before the dot, and a dot at all. */
  function Normal(text: string): string {
    var val := Trim(text);
    if val == "" then ZERO_ICE
    else if Index(val, '.') == 0 then "0" + val
    else if Index(val, '.') < 0 then val + ".0"
    else val
  }

  /** The integer part of a normalised text, and what follows it. */
  function Whole(text: string): string {
    var t := Normal(text);
    if Index(t, '.') < 0 then t else t[..Index(t, '.')]
  }

  method Format(text: string) returns (val: string)
    ensures val == FormatText(text)
  {
    val := Trim(text);
    if val == "" {
      return ZERO_ICE;
    }
    var dotIx := Index(val, '.');
    if dotIx == 0 {
      val := "0" + val;
      dotIx := 1;
    }
    if dotIx < 0 {
      dotIx := |val|;
    }
    var s := FormatGroups(dotIx, val);
    GroupsNonEmpty(val[..dotIx]);
    if s[0] == ',' {
      s := s[1..];
    }
    val := s + val[dotIx..];
    if '.' !in val {
      val := val + ".0";
    }
  }

  function FormatText(text: string): string {
    var val := Trim(text);
    if val == "" then ZERO_ICE else
    var ix := Index(val, '.');
    var full := if ix == 0 then "0" + val else val;
    var dotIx := if ix == 0 then 1 else if ix < 0 then |full| else ix;
    var grouped := DropComma(Groups(full[..dotIx])) + full[dotIx..];
    if '.' in grouped then grouped else grouped + ".0"
  }

  lemma {:induction false} GroupsNonEmpty(s: string)
    requires s != ""
    ensures Groups(s) != ""
  {
  }

  /** Counted from the right, place `4q + r` of a grouped text is a comma for r = 3 and otherwise
      place `3q + r` of the plain text. */
  ghost predicate PlaceOk(g: string, s: string, q: nat, r: nat) {
    r < 4 && 4 * q + r < |g| ==>
      if r == 3 then g[|g| - 1 - (4 * q + r)] == ','
      else 3 * q + r < |s| && g[|g| - 1 - (4 * q + r)] == s[|s| - 1 - (3 * q + r)]
  }

  lemma {:induction false} GroupsLength(s: string, k: nat)
    requires 3 * k <= |s| < 3 * k + 3
    ensures |Groups(s)| == |s| + k
  {
    if k > 0 {
      GroupsLength(s[..|s| - 3], k - 1);
    }
  }

  lemma PlaceInLastGroup(g: string, init: string, last: string, r: nat)
    requires |last| == 3
    ensures PlaceOk(g + ("," + last), init + last, 0, r)
  {
  }

  lemma PlaceBeforeLastGroup(g: string, init: string, last: string, q: nat, r: nat)
    requires |last| == 3 && PlaceOk(g, init, q, r)
    ensures PlaceOk(g + ("," + last), init + last, q + 1, r)
  {
    var all := g + ("," + last);
    if r < 4 && 4 * (q + 1) + r < |all| {
      assert |all| - 1 - (4 * (q + 1) + r) == |g| - 1 - (4 * q + r);
    }
  }

  lemma {:induction false} GroupsPlace(s: string, q: nat, r: nat)
    ensures PlaceOk(Groups(s), s, q, r)
  {
    if |s| >= 3 {
      var init, last := s[..|s| - 3], s[|s| - 3..];
      assert Groups(s) == Groups(init) + ("," + last) && s == init + last;
      if q == 0 {
        PlaceInLastGroup(Groups(init), init, last, r);
      } else {
        GroupsPlace(init, q - 1, r);
        PlaceBeforeLastGroup(Groups(init), init, last, q - 1, r);
      }
    }
  }

  lemma {:induction false} GroupsHaveNoDot(s: string)
    requires '.' !in s
    ensures '.' !in Groups(s)
  {
    if |s| >= 3 {
      GroupsHaveNoDot(s[..|s| - 3]);
    }
  }

  /** The integer part goes up to the first dot. */
  lemma WholeOf(text: string, w: string, rest: string)
    requires Normal(text) == w + "." + rest && '.' !in w
    ensures Whole(text) == w && Normal(text)[|w|..] == "." + rest
  {
    IndexOf(w, '.', rest);
  }

  lemma FormatDotted(text: string, w: string, rest: string)
    requires Trim(text) == w + "." + rest && '.' !in w && w != ""
    ensures Normal(text) == w + "." + rest
    ensures FormatText(text) == DropComma(Groups(w)) + ("." + rest)
  {
    IndexOf(w, '.', rest);
    var val := Trim(text);
    assert val[..|w|] == w && val[|w|..] == "." + rest;
  }

  lemma FormatLeadingDot(text: string, rest: string)
    requires Trim(text) == "." + rest
    ensures Normal(text) == "0" + "." + rest
    ensures FormatText(text) == DropComma(Groups("0")) + ("." + rest)
  {
    var val := Trim(text);
    assert val[0] == '.';
    assert ("0" + val)[..1] == "0" && ("0" + val)[1..] == val;
    assert '.' in val && '.' in DropComma(Groups("0")) + val;
    Associative("0", ".", rest);
  }

  lemma FormatUndotted(text: string)
    requires Trim(text) != "" && '.' !in Trim(text)
    ensures Normal(text) == Trim(text) + "." + "0"
    ensures FormatText(text) == DropComma(Groups(Trim(text))) + ("." + "0")
  {
    var val := Trim(text);
    var grouped := DropComma(Groups(val));
    GroupsHaveNoDot(val);
    assert val[..|val|] == val && val[|val|..] == "";
    assert grouped + "" == grouped;
    ZeroFractionAdded(val);
    ZeroFractionAdded(grouped);
    assert FormatText(text) == grouped + ".0";
  }

  lemma ZeroFractionAdded(s: string)
    ensures s + ".0" == s + "." + "0" == s + ("." + "0")
  {
  }

  /** The parts of a normalised text, and its grouped form. */
  lemma FormatParts(text: string) returns (w: string, rest: string)
    ensures Normal(text) == w + "." + rest && '.' !in w && w != ""
    ensures FormatText(text) == DropComma(Groups(w)) + ("." + rest)
  {
    var val := Trim(text);
    if val == "" {
      w, rest := "0", "0";
    } else if '.' !in val {
      FormatUndotted(text);
      w, rest := val, "0";
    } else {
      w, rest := SplitAtDot(val);
      if w == "" {
        assert val == "." + rest;
        FormatLeadingDot(text, rest);
        w := "0";
      } else {
        FormatDotted(text, w, rest);
      }
    }
  }

  /** `Format` is the normalised text with its integer part grouped; nothing else changes. */
  lemma FormatIsGrouping(text: string)
    ensures Whole(text) != "" && Whole(text) + Normal(text)[|Whole(text)|..] == Normal(text)
    ensures FormatText(text) == DropComma(Groups(Whole(text))) + Normal(text)[|Whole(text)|..]
  {
    var w, rest := FormatParts(text);
    WholeOf(text, w, rest);
    Associative(w, ".", rest);
  }

  /** `g` is `w` with a comma before each third place from the right, except at the front. */
  ghost predicate CommasPlaced(g: string, w: string, k: nat) {
    |g| == |w| + k && forall q: nat, r: nat :: PlaceOk(g, w, q, r)
  }

  /** Commas stand exactly before each third integer digit from the right and never at the front, iff
      the integer part does not itself start with a comma that `Format` takes for one of its own and
      drops: one at the front of a text whose length is no multiple of three. */
  lemma CommaPlaces(text: string, k: nat)
    requires 3 * k < |Whole(text)| <= 3 * k + 3
    ensures var w := Whole(text);
            var g := DropComma(Groups(w));
            && FormatText(text) == g + Normal(text)[|w|..]
            && (CommasPlaced(g, w, k) <==> w[0] != ',' || |w| % 3 == 0)
  {
    FormatIsGrouping(text);
    DropKeepsPlaces(Whole(text), k);
  }

  lemma DropKeepsPlaces(w: string, k: nat)
    requires 3 * k < |w| <= 3 * k + 3
    ensures CommasPlaced(DropComma(Groups(w)), w, k) <==> w[0] != ',' || |w| % 3 == 0
  {
    RestOfThree(|w|, k);
    FrontOfGroups(w, k);
    if w[0] != ',' || |w| % 3 == 0 {
      AllPlaces(DropComma(Groups(w)), w);
    }
  }

  lemma RestOfThree(n: nat, k: nat)
    requires 3 * k < n <= 3 * k + 3
    ensures n % 3 == 0 <==> n == 3 * k + 3
  {
  }

  /** A full first group is led by a comma of its own; otherwise the text's first character leads. */
  lemma FrontOfGroups(w: string, k: nat)
    requires 3 * k < |w| <= 3 * k + 3
    ensures |w| == 3 * k + 3 ==> |DropComma(Groups(w))| == |w| + k
    ensures |w| < 3 * k + 3 ==> |DropComma(Groups(w))| == if w[0] == ',' then |w| + k - 1 else |w| + k
  {
    if |w| == 3 * k + 3 {
      GroupsLength(w, k + 1);
      GroupsPlace(w, k, 3);
      assert Groups(w)[0] == ',';
    } else {
      GroupsLength(w, k);
      GroupsPlace(w, k, |w| - 3 * k - 1);
      assert Groups(w)[0] == w[0];
    }
  }

  /** Places are counted from the right, so dropping the first character moves none. */
  lemma DropKeepsPlace(raw: string, w: string, q: nat, r: nat)
    requires PlaceOk(raw, w, q, r)
    ensures PlaceOk(DropComma(raw), w, q, r)
  {
  }

  lemma AllPlaces(g: string, w: string)
    requires g == DropComma(Groups(w))
    ensures forall q: nat, r: nat :: PlaceOk(g, w, q, r)
  {
    forall q: nat, r: nat
      ensures PlaceOk(g, w, q, r)
    {
      GroupsPlace(w, q, r);
      DropKeepsPlace(Groups(w), w, q, r);
    }
  }

  lemma {:induction false} RemoveAppend(a: string, b: string, c: char)
    ensures Remove(a + b, c) == Remove(a, c) + Remove(b, c)
  {
    if a == "" {
      assert a + b == b;
    } else {
      assert (a + b)[1..] == a[1..] + b;
      RemoveAppend(a[1..], b, c);
    }
  }

  lemma {:induction false} RemoveAbsent(s: string, c: char)
    requires c !in s
    ensures Remove(s, c) == s
  {
    if s != "" {
      RemoveAbsent(s[1..], c);
    }
  }

  lemma {:induction false} UngroupGroups(s: string)
    ensures Remove(Groups(s), ',') == Remove(s, ',')
  {
    if |s| >= 3 {
      var init, last := s[..|s| - 3], s[|s| - 3..];
      UngroupGroups(init);
      RemoveAppend(Groups(init) + ",", last, ',');
      RemoveAppend(Groups(init), ",", ',');
      RemoveAppend(init, last, ',');
      assert init + last == s;
      assert Remove(",", ',') == "";
    }
  }

  /** Deleting the commas gives the normalised text without the commas it had of its own; so it
      undoes the grouping iff the text had none. */
  lemma UngroupFormat(text: string)
    ensures Remove(FormatText(text), ',') == Remove(Normal(text), ',')
    ensures Remove(FormatText(text), ',') == Normal(text) <==> ',' !in text
  {
    UngroupParts(text);
    TrimOnlyBlanks(text, ',');
    assert ',' in Normal(text) <==> ',' in Trim(text);
    if ',' !in Normal(text) {
      RemoveAbsent(Normal(text), ',');
    }
  }

  lemma UngroupParts(text: string)
    ensures Remove(FormatText(text), ',') == Remove(Normal(text), ',')
  {
    FormatIsGrouping(text);
    var w, rest := Whole(text), Normal(text)[|Whole(text)|..];
    UngroupGroups(w);
    RemoveAppend(DropComma(Groups(w)), rest, ',');
    RemoveAppend(w, rest, ',');
  }

  // JSON.

  datatype Unmarshalled = Accepted(text: string) | Refused | Undetermined

  const QUOTE := "\""

  function MarshalText(text: string): string {
    QUOTE + (if ',' in text then text else FormatText(text)) + QUOTE
  }

  /** The part of the text that `UnmarshalJSON` checks: with a dot, only the fraction. */
  function ToIceFlake(val: string): string {
    var ix := Index(val, '.');
    if ix < 0 then TrimLeft(val + Zeros(E9), '0') else
    var ice := if ix == 0 then "0" + val else val;
    var dotIx := if ix == 0 then 1 else ix;
    TrimLeft(ice[dotIx + 1..] + Padding(E9 - (|ice| - dotIx) + 1), '0')
  }

  function Cleaned(bytes: string): string {
    Trim(Remove(Remove(bytes, ','), '"'))
  }

  /** The text stored for an accepted one. */
  function Completed(val: string): string {
    var filled := if val == "" then ZERO_ICE else val;
    var dotted := if '.' in filled then filled else filled + ".0";
    if Index(dotted, '.') == 0 then "0" + dotted else dotted
  }

  function UnmarshalText(bytes: string): Unmarshalled {
    match ParseAmount(ToIceFlake(Cleaned(bytes)))
    case Rejected => Refused
    case LibraryDefined => Undetermined
    case _ => Accepted(Completed(Cleaned(bytes)))
  }

  /** An ICE value whose text `UnmarshalJSON` replaces. */
  class IceValue {
    var text: string

    constructor (text: string)
      ensures this.text == text
    {
      this.text := text;
    }

    method MarshalJson() returns (bytes: string)
      ensures bytes == MarshalText(text)
      ensures ',' in text ==> bytes == "\"" + text + "\""
    {
      if ',' in text {
        return QUOTE + text + QUOTE;
      }
      var formatted := Format(text);
      bytes := QUOTE + formatted + QUOTE;
    }

    /** `determined` is false where the outcome is the integer library's. */
    method UnmarshalJson(bytes: string) returns (ok: bool, determined: bool)
      modifies this
      ensures determined <==> !UnmarshalText(bytes).Undetermined?
      ensures ok <==> UnmarshalText(bytes).Accepted?
      ensures text == if ok then UnmarshalText(bytes).text else old(text)
    {
      var val := Remove(bytes, ',');
      val := Remove(val, '"');
      val := Trim(val);
      var checked := ParseAmount(ToIceFlake(val));
      determined := !checked.LibraryDefined?;
      ok := checked.NilAmount? || checked.Flakes?;
      if ok {
        if val == "" {
          val := ZERO_ICE;
        }
        if '.' !in val {
          val := val + ".0";
        }
        if Index(val, '.') == 0 {
          val := "0" + val;
        }
        text := val;
      }
    }
  }

  /** The digits that are checked: all of an undotted text, only the fraction of a dotted one. */
  function CheckedDigits(val: string): string {
    if '.' in val then val[Index(val, '.') + 1..] else val
  }

  /** How many zeros complete them to flakes. */
  function CheckedPadding(val: string): nat {
    var d := CheckedDigits(val);
    if '.' !in val then E9 else if |d| < E9 then E9 - |d| else 0
  }

  /** Whatever stands before the first dot is not checked. */
  lemma CheckedPart(val: string)
    ensures ToIceFlake(val) == TrimLeft(CheckedDigits(val) + Zeros(CheckedPadding(val)), '0')
  {
    if Index(val, '.') == 0 {
      assert ("0" + val)[2..] == val[1..];
    }
  }

  /** Digits without their leading zeros are a valid amount iff they denote one below 2^256. */
  lemma ParseTrimmed(s: string)
    ensures !Digits(s) <==> ParseAmount(TrimLeft(s, '0')).LibraryDefined?
    ensures Digits(s) ==> (ParseAmount(TrimLeft(s, '0')).Rejected? <==> Value(s) >= UINT_LIMIT)
  {
    TrimLeftDigits(s);
    if Digits(s) {
      TrimLeftCanonical(s);
    }
  }

  lemma PadDigits(s: string, k: nat)
    ensures Digits(s + Zeros(k)) <==> Digits(s)
  {
    assert forall i :: 0 <= i < |s| ==> (s + Zeros(k))[i] == s[i];
  }

  /** What `UnmarshalJSON` makes of every text: it is accepted, completed to a dotted one, iff the
      digits it checks denote a valid flake amount. What is not digits is the library's to judge. */
  lemma UnmarshalMeaning(bytes: string)
    ensures var val := Cleaned(bytes);
            UnmarshalText(bytes) ==
            if !Digits(CheckedDigits(val)) then Undetermined
            else if Value(CheckedDigits(val)) * Pow10(CheckedPadding(val)) < UINT_LIMIT then Accepted(Completed(val))
            else Refused
  {
    var val := Cleaned(bytes);
    CheckedPart(val);
    ParseTrimmed(CheckedDigits(val) + Zeros(CheckedPadding(val)));
    PadDigits(CheckedDigits(val), CheckedPadding(val));
    if Digits(CheckedDigits(val)) {
      PadRight(CheckedDigits(val), CheckedPadding(val));
    }
  }

  /** What is checked of a dotted decimal is its fraction alone, scaled to flakes. */
  lemma CheckedFraction(a: string, b: string)
    requires '.' !in a && Digits(b)
    ensures var f := Value(b) * Pow10(if |b| < E9 then E9 - |b| else 0);
            ParseAmount(ToIceFlake(a + "." + b)) == if f == 0 then NilAmount else Limited(f)
  {
    CompletedDotted(a, b);
    assert '.' in a + "." + b;
    CheckedPart(a + "." + b);
    ParsePadded(b, if |b| < E9 then E9 - |b| else 0);
  }

  lemma ParsePadded(b: string, k: nat)
    requires Digits(b)
    ensures var f := Value(b) * Pow10(k);
            ParseAmount(TrimLeft(b + Zeros(k), '0')) == if f == 0 then NilAmount else Limited(f)
  {
    PadRight(b, k);
    TrimLeftCanonical(b + Zeros(k));
  }

  lemma CompletedDotted(a: string, b: string)
    requires '.' !in a
    ensures CheckedDigits(a + "." + b) == b
    ensures CheckedPadding(a + "." + b) == if |b| < E9 then E9 - |b| else 0
    ensures Completed(a + "." + b) == (if a == "" then "0" else a) + "." + b
  {
    DigitsOfDotted(a, b, "");
    if a == "" {
      assert a + "." + b == "." + b && "0" + ("." + b) == "0" + "." + b;
    }
  }

  /** A dotted decimal in quotes is accepted as it is, given a digit before its dot, iff the
      fraction alone is a valid flake amount; the integer part is not looked at. */
  lemma UnmarshalDotted(bytes: string, a: string, b: string)
    requires Cleaned(bytes) == a + "." + b && '.' !in a && Digits(b)
    ensures UnmarshalText(bytes) ==
            if Value(b) * Pow10(if |b| < E9 then E9 - |b| else 0) < UINT_LIMIT
            then Accepted((if a == "" then "0" else a) + "." + b)
            else Refused
  {
    UnmarshalMeaning(bytes);
    CompletedDotted(a, b);
  }

  lemma CompletedUndotted(val: string)
    requires '.' !in val && val != ""
    ensures Completed(val) == val + "." + "0"
  {
    DigitsOfDotted(val, "0", "");
    assert val + ".0" == val + "." + "0";
  }

  /** The two parts of the stored text. */
  lemma CompletedParts(val: string) returns (a: string, b: string)
    ensures Completed(val) == a + "." + b && a != "" && '.' !in a
    ensures '.' in val ==> b == CheckedDigits(val)
    ensures '.' !in val ==> b == "0" && a == if val == "" then "0" else val
  {
    if '.' in val {
      a, b := SplitAtDot(val);
      CompletedDotted(a, b);
      a := if a == "" then "0" else a;
    } else if val == "" {
      a, b := "0", "0";
      assert Completed(val) == "0" + "." + "0";
    } else {
      a, b := val, "0";
      CompletedUndotted(val);
    }
  }

  lemma CompletedTrimmed(bytes: string)
    ensures Trim(Completed(Cleaned(bytes))) == Completed(Cleaned(bytes))
  {
    var val := Cleaned(bytes);
    TrimmedEnds(Remove(Remove(bytes, ','), '"'));
    if val == "" {
      CompletedDotted("0", "0");
      assert Completed(val) == "0" + "." + "0";
      NoBlankEnds("0" + "." + "0");
    } else if '.' !in val {
      CompletedUndotted(val);
      NoBlankEnds(val + "." + "0");
    } else if Index(val, '.') == 0 {
      NoBlankEnds("0" + val);
    } else {
      NoBlankEnds(val);
    }
  }

  lemma TrimmedEnds(s: string)
    ensures Trim(s) != "" ==> Trim(s)[0] != ' ' && Trim(s)[|Trim(s)| - 1] != ' '
  {
    var left := TrimLeft(s, ' ');
    assert Trim(s) <= left;
  }

  lemma NoBlankEnds(t: string)
    requires t != "" && t[0] != ' ' && t[|t| - 1] != ' '
    ensures Trim(t) == t
  {
  }

  /** What an accepted text is worth: `ICEFlake` converts it iff its whole part is digits and the whole
      amount fits. An accepted text without a dot always converts; a dotted one is accepted on its
      fraction alone, so `ICEFlake` may reject it, or have to leave it to the library. */
  lemma AcceptedConvertible(bytes: string) returns (a: string, b: string)
    requires UnmarshalText(bytes).Accepted?
    ensures UnmarshalText(bytes).text == a + "." + b && a != "" && '.' !in a && Digits(b)
    ensures IceFlake(a + "." + b) == if Digits(a) then Limited(FlakesOf(a, b)) else LibraryDefined
    ensures '.' !in Cleaned(bytes) ==> IceFlake(a + "." + b).Flakes?
  {
    var val := Cleaned(bytes);
    UnmarshalMeaning(bytes);
    a, b := CompletedParts(val);
    CompletedTrimmed(bytes);
    WorthOf(a, b);
    if '.' !in val {
      Pow9();
      DotZero(a);
    }
  }

  lemma WorthOf(a: string, b: string)
    requires '.' !in a && Digits(b) && Trim(a + "." + b) == a + "." + b
    ensures IceFlake(a + "." + b) == if Digits(a) then Limited(FlakesOf(a, b)) else LibraryDefined
  {
    if Digits(a) {
      DottedIceFlake(a + "." + b, a, b);
    } else {
      NonDecimalIceFlake(a + "." + b, a, b);
    }
  }

  lemma OneAndZeros(k: nat)
    ensures Digits("1" + Zeros(k)) && Value("1" + Zeros(k)) == Pow10(k)
  {
    assert "1"[..0] == "";
    PadRight("1", k);
  }

  lemma NinthPower(k: nat)
    requires Pow10(k) == DENOMINATION
    ensures Pow10(9 * k) >= UINT_LIMIT
  {
    PowAdd(k, k);
    PowAdd(2 * k, 2 * k);
    PowAdd(4 * k, 4 * k);
    PowAdd(8 * k, k);
  }

  lemma DotZero(a: string)
    requires Digits(a)
    ensures Digits("0") && Value("0") == 0 && FlakesOf(a, "0") == Value(a) * DENOMINATION
  {
    ZeroValue("0");
    FlakesOfParts(a, "0");
    TimesZero(Value("0"), Pow10(E9 - 1));
  }

  /** Accepted, and too big to convert: 10^81 ICE. */
  lemma AcceptedTooBig()
    ensures var t := "1" + Zeros(81) + "." + "0";
            UnmarshalText(QUOTE + t + QUOTE) == Accepted(t) && IceFlake(t) == Rejected
  {
    var a := "1" + Zeros(81);
    OneAndZeros(81);
    Pow9();
    NinthPower(E9);
    DotZero(a);
    DigitsHaveNo(a, '.');
    QuotedDecimal(a, "0");
    FractionFits("0");
    UnmarshalDotted(QUOTE + (a + "." + "0") + QUOTE, a, "0");
    NoBlanks(a, "0");
    DottedIceFlake(a + "." + "0", a, "0");
  }

  lemma QuotedDecimal(a: string, b: string)
    requires Digits(a) && Digits(b)
    ensures Cleaned(QUOTE + (a + "." + b) + QUOTE) == a + "." + b
  {
    NoBlanks(a, b);
    RemoveAbsent(a + "." + b, ',');
    CleanQuoted(a + "." + b, a + "." + b);
  }

  /** Accepted, and no decimal at all. */
  lemma AcceptedUnreadable()
    ensures UnmarshalText(QUOTE + "abc.5" + QUOTE) == Accepted("abc.5") && IceFlake("abc.5") == LibraryDefined
  {
    var t := "abc.5";
    assert t == "abc" + "." + "5";
    RemoveAbsent(t, ',');
    CleanQuoted(t, t);
    FractionFits("5");
    UnmarshalDotted(QUOTE + t + QUOTE, "abc", "5");
    NonDecimalIceFlake(t, "abc", "5");
  }

  lemma CleanQuoted(f: string, t: string)
    requires Remove(f, ',') == t && '"' !in t && Trim(t) == t
    ensures Cleaned(QUOTE + f + QUOTE) == t
  {
    RemoveAppend(QUOTE + f, QUOTE, ',');
    RemoveAppend(QUOTE, f, ',');
    RemoveAbsent(QUOTE, ',');
    RemoveAppend(QUOTE + t, QUOTE, '"');
    RemoveAppend(QUOTE, t, '"');
    RemoveAbsent(t, '"');
    assert Remove(QUOTE, '"') == "";
    assert "" + t + "" == t;
  }

  lemma CleanedOfQuoted(f: string)
    ensures Cleaned(QUOTE + f + QUOTE) == Cleaned(f)
  {
    RemoveAppend(QUOTE + f, QUOTE, ',');
    RemoveAppend(QUOTE, f, ',');
    RemoveAbsent(QUOTE, ',');
    var t := Remove(f, ',');
    RemoveAppend(QUOTE + t, QUOTE, '"');
    RemoveAppend(QUOTE, t, '"');
    assert Remove(QUOTE, '"') == "";
    assert "" + Remove(t, '"') + "" == Remove(t, '"');
  }

  /** A text with a comma is taken for a grouped one: JSON carries it as it is, and reads it as it
      would be read without the quotes. */
  lemma GroupedJson(text: string)
    requires ',' in text
    ensures MarshalText(text) == "\"" + text + "\""
    ensures UnmarshalText(MarshalText(text)) == UnmarshalText(text)
  {
    CleanedOfQuoted(text);
  }

  /** `Format` changes the notation, not the amount: without its commas the text is read as before. */
  lemma FormatKeepsAmount(text: string)
    requires IceFlake(text).Flakes? || IceFlake(text).Rejected?
    ensures IceFlake(Remove(FormatText(text), ',')) == IceFlake(text)
  {
    var a, b := IceFlakeMeaning(text);
    UngroupFormat(text);
    NormalKeepsAmount(text, a, b);
    TrimOnlyBlanks(text, ',');
    if '.' in Trim(text) {
      DigitsHaveNo(a, ',');
      DigitsHaveNo(b, ',');
      NoCommaInParts(a, b);
    } else {
      DigitsHaveNo(a, ',');
    }
  }

  lemma NoCommaInParts(a: string, b: string)
    requires ',' !in a && ',' !in b
    ensures ',' !in a + "." + b
  {
  }

  lemma NormalKeepsAmount(text: string, a: string, b: string)
    requires Trim(text) != "" && Digits(a) && Digits(b)
    requires if '.' in Trim(text) then Trim(text) == a + "." + b else Trim(text) == a && b == "" && Canonical(a)
    ensures IceFlake(Normal(text)) ==
            if '.' in Trim(text) then Limited(FlakesOf(a, b)) else Limited(Value(a) * DENOMINATION)
  {
    DigitsHaveNo(a, '.');
    if '.' !in Trim(text) {
      FormatUndotted(text);
      DotZero(a);
      NoBlanks(a, "0");
      DottedIceFlake(Normal(text), a, "0");
    } else if a == "" {
      assert Trim(text) == "." + b;
      FormatLeadingDot(text, b);
      NoBlanks("0", b);
      ZeroValue("0");
      ValueAppend("0", b);
      TimesZero(Value("0"), Pow10(|b|));
      assert "" + b == b;
      DottedIceFlake(Normal(text), "0", b);
    } else {
      FormatDotted(text, a, b);
      NoBlanks(a, b);
      DottedIceFlake(Normal(text), a, b);
    }
  }

  lemma CanonicalIsPlain(t: string, a: string, b: string)
    requires CanonicalIce(t, a, b)
    ensures Normal(t) == Trim(t) == t && ',' !in t && '"' !in t
  {
    NoBlanks(a, b);
    DigitsHaveNo(a, '.');
    IndexOf(a, '.', b);
  }

  /** JSON gives back every ICE text in normal form, whether it was grouped before or not. */
  lemma JsonRoundTrip(t: string, a: string, b: string)
    requires CanonicalIce(t, a, b)
    ensures UnmarshalText(MarshalText(t)) == Accepted(t)
    ensures UnmarshalText(QUOTE + t + QUOTE) == Accepted(t)
  {
    CanonicalIsPlain(t, a, b);
    UngroupFormat(t);
    RemoveAbsent(t, ',');
    CleanQuoted(FormatText(t), t);
    CleanQuoted(t, t);
    FractionFits(b);
    UnmarshalDotted(MarshalText(t), a, b);
    UnmarshalDotted(QUOTE + t + QUOTE, a, b);
  }

  lemma FractionFits(b: string)
    requires Digits(b) && |b| <= E9
    ensures Value(b) * Pow10(if |b| < E9 then E9 - |b| else 0) < UINT_LIMIT
  {
    RestBelow(b);
  }

  /** Main result: any amount below 2^256 survives ICE, JSON out, JSON in, and back to flakes. */
  lemma AmountRoundTrip(n: nat)
    requires n < UINT_LIMIT
    ensures UnmarshalText(MarshalText(IceText(n))) == Accepted(IceText(n))
    ensures IceFlake(UnmarshalText(MarshalText(IceText(n))).text) == Flakes(n)
  {
    var a, b := FlakeRoundTrip(n);
    JsonRoundTrip(IceText(n), a, b);
  }
}
