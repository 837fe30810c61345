/** Text notations of coin amounts (coin/coin.go): flakes as an integer text, and ICE as a decimal text
    with up to nine fraction digits. Texts are ASCII. */
module CoinText {
  import opened Decimal

  const E9: nat := 9
  const DENOMINATION: nat := 1_000_000_000
  const UINT_LIMIT: nat := 0x1_0000000000000000_0000000000000000_0000000000000000_0000000000000000
  const ZERO_ICE := "0.0"

  /** Outcome of reading a flake amount. What the unsigned-integer library makes of a text that is
      not a plain decimal integer (signs, base prefixes, separators) is left to the library. */
  datatype Parsed = NilAmount | Flakes(n: nat) | Rejected | LibraryDefined

  function ParseUint(s: string): Parsed {
    if !Canonical(s) then LibraryDefined
    else if Value(s) < UINT_LIMIT then Flakes(Value(s))
    else Rejected
  }

  function ParseAmount(s: string): Parsed {
    if s == "" then NilAmount else if s == "0" then Flakes(0) else ParseUint(s)
  }

  // String helpers of the source.

  function Trim(s: string): string {
    TrimRight(TrimLeft(s, ' '), ' ')
  }

  /** First position of `c`, or -1. */
  function Index(s: string, c: char): (i: int)
    ensures -1 <= i < |s|
    ensures i >= 0 ==> s[i] == c && c !in s[..i]
    ensures i < 0 <==> c !in s
  {
    if s == "" then -1
    else if s[0] == c then 0
    else
      var i := Index(s[1..], c);
      assert i >= 0 ==> s[..i + 1] == [s[0]] + s[1..][..i];
      if i < 0 then -1 else i + 1
  }

  function Remove(s: string, c: char): (r: string)
    ensures c !in r
  {
    if s == "" then "" else if s[0] == c then Remove(s[1..], c) else [s[0]] + Remove(s[1..], c)
  }

  /** Zeros written by a counting loop, none if the count is negative. */
  function Padding(count: int): string {
    Zeros(if count > 0 then count else 0)
  }

  // From flakes to ICE.

  /** Flakes from one ICE up: split before the last nine digits, drop the zeros at the end. */
  function BigText(val: string, n: nat): string
    requires |val| >= E9
  {
    val[..|val| - E9] + "." + if n % DENOMINATION == 0 then "0" else TrimRight(val[|val| - E9..], '0')
  }

  function IceText(n: nat): string {
    if n == 0 then ZERO_ICE
    else if n >= DENOMINATION && |Text(n)| >= E9 then BigText(Text(n), n)
    else "0." + Padding(E9 - |Text(n)|) + TrimRight(Text(n), '0')
  }

  /** The digits up to the last non-zero one, written into `rest` from right to left. */
  method CollectFromRight(digits: string, rest: array<char>) returns (len: nat)
    requires |digits| <= rest.Length
    modifies rest
    ensures len == |TrimRight(digits, '0')|
    ensures forall k :: 0 <= k < len ==> rest[k] == digits[len - 1 - k]
  {
    ghost var kept := |TrimRight(digits, '0')|;
    len := 0;
    var hasNonZeroTrailing := false;
    var digitIx := |digits| - 1;
    assert digits[..|digits|] == digits;
    while digitIx >= 0
      invariant -1 <= digitIx < |digits| && 0 <= len <= |digits| - 1 - digitIx
      invariant hasNonZeroTrailing ==> digitIx < kept && len == kept - digitIx - 1
      invariant !hasNonZeroTrailing ==> len == 0 && TrimRight(digits, '0') == TrimRight(digits[..digitIx + 1], '0')
      invariant forall k :: 0 <= k < len ==> rest[k] == digits[kept - 1 - k]
    {
      if digits[digitIx] != '0' {
        hasNonZeroTrailing := true;
      }
      if hasNonZeroTrailing {
        rest[len] := digits[digitIx];
        len := len + 1;
      } else {
        assert digits[..digitIx + 1][..digitIx] == digits[..digitIx];
      }
      digitIx := digitIx - 1;
    }
  }

  method ReverseInPlace(rest: array<char>, len: nat)
    requires len <= rest.Length
    modifies rest
    ensures forall k :: 0 <= k < len ==> rest[k] == old(rest[len - 1 - k])
  {
    var ii, jj := 0, len - 1;
    while ii < jj
      invariant 0 <= ii <= jj + 1 <= len && ii + jj == len - 1
      invariant forall k :: 0 <= k < ii || jj < k < len ==> rest[k] == old(rest[len - 1 - k])
      invariant forall k :: ii <= k <= jj ==> rest[k] == old(rest[k])
    {
      rest[ii], rest[jj] := rest[jj], rest[ii];
      ii, jj := ii + 1, jj - 1;
    }
  }

  /** `transformNumbersBiggerThan1ICE`: collects the fraction digits from the right into an array,
      then reverses the array in place. */
  method TransformNumbersBiggerThanOneIce(val: string, n: nat) returns (ice: string)
    requires |val| >= E9
    ensures ice == BigText(val, n)
  {
    if n % DENOMINATION == 0 {
      return val[..|val| - E9] + ".0";
    }
    var digits := val[|val| - E9..];
    var rest := new char[E9];
    var len := CollectFromRight(digits, rest);
    ReverseInPlace(rest, len);
    assert rest[..len] == TrimRight(digits, '0');
    ice := val[..|val| - E9] + "." + rest[..len];
  }

  method Ice(n: nat) returns (ice: string)
    ensures ice == IceText(n)
  {
    if n == 0 {
      return ZERO_ICE;
    }
    var bytes := Text(n);
    if n >= DENOMINATION {
      BigHasTenDigits(n);
      ice := TransformNumbersBiggerThanOneIce(bytes, n);
    } else {
      ice := "0." + Padding(E9 - |bytes|) + TrimRight(bytes, '0');
    }
  }

  lemma Pow9()
    ensures Pow10(9) == DENOMINATION
  {
    assert Pow10(1) == 10 && Pow10(2) == 100 && Pow10(3) == 1000 && Pow10(4) == 10000 && Pow10(5) == 100000;
    assert Pow10(6) == 1000000 && Pow10(7) == 10000000 && Pow10(8) == 100000000;
  }

  lemma BigHasTenDigits(n: nat)
    requires n >= DENOMINATION
    ensures |Text(n)| > E9
  {
    ValueOfText(n);
    ValueBound(Text(n));
    Pow9();
    if |Text(n)| <= E9 {
      PowMonotone(|Text(n)|, E9);
    }
  }

  // What the ICE text of an amount is, said without the source's case split.

  /** `f` with exactly nine digits. */
  function NineDigits(f: nat): string {
    Padding(E9 - |Text(f)|) + Text(f)
  }

  function Fraction(f: nat): string {
    if f == 0 then "0" else TrimRight(NineDigits(f), '0')
  }

  lemma NineDigitsValue(f: nat)
    requires f < DENOMINATION
    ensures Digits(NineDigits(f)) && |NineDigits(f)| == E9 && Value(NineDigits(f)) == f
  {
    Pow9();
    TextLength(f, E9);
    ValueOfText(f);
    PadLeft(Text(f), E9 - |Text(f)|);
  }

  lemma JoinedValue(q: nat, f: nat)
    requires f < DENOMINATION
    ensures Digits(Text(q) + NineDigits(f)) && Value(Text(q) + NineDigits(f)) == q * DENOMINATION + f
  {
    NineDigitsValue(f);
    ValueOfText(q);
    ValueAppend(Text(q), NineDigits(f));
    Pow9();
  }

  lemma SplitText(n: nat)
    requires n >= DENOMINATION
    ensures Text(n) == Text(n / DENOMINATION) + NineDigits(n % DENOMINATION)
  {
    var q, f := n / DENOMINATION, n % DENOMINATION;
    var s := Text(q) + NineDigits(f);
    JoinedValue(q, f);
    ValueOfText(q);
    assert s[0] == Text(q)[0];
    TextOfValue(s);
  }

  lemma BigIceMeaning(n: nat)
    requires n >= DENOMINATION
    ensures IceText(n) == Text(n / DENOMINATION) + "." + Fraction(n % DENOMINATION)
  {
    var q, f, t := n / DENOMINATION, n % DENOMINATION, Text(n);
    BigHasTenDigits(n);
    SplitText(n);
    NineDigitsValue(f);
    assert |t| - E9 == |Text(q)|;
    assert t[..|t| - E9] == Text(q) && t[|t| - E9..] == NineDigits(f);
  }

  lemma SmallIceMeaning(n: nat)
    requires 0 < n < DENOMINATION
    ensures IceText(n) == Text(0) + "." + Fraction(n)
  {
    assert Text(0) + "." == "0.";
    Pow9();
    TextLength(n, E9);
    var pad := Padding(E9 - |Text(n)|);
    ValueOfText(n);
    TrimAfterPadding(pad, Text(n));
    Associative("0.", pad, TrimRight(Text(n), '0'));
  }

  lemma Associative(a: string, b: string, c: string)
    ensures (a + b) + c == a + (b + c)
  {
  }

  /** The ICE text is the whole ICE, a dot, and the rest as a fraction of nine digits without the
      zeros at its end. */
  lemma IceMeaning(n: nat)
    ensures IceText(n) == Text(n / DENOMINATION) + "." + Fraction(n % DENOMINATION)
  {
    if n >= DENOMINATION {
      BigIceMeaning(n);
    } else {
      assert n / DENOMINATION == 0 && n % DENOMINATION == n;
      if n > 0 {
        SmallIceMeaning(n);
      } else {
        assert Text(0) + "." + "0" == ZERO_ICE;
      }
    }
  }

  lemma {:induction false} TrimAfterPadding(pad: string, s: string)
    requires s != "" && s[0] != '0'
    ensures TrimRight(pad + s, '0') == pad + TrimRight(s, '0')
  {
    TrimRightSplit(s);
    var kept := TrimRight(s, '0');
    var k := |s| - |kept|;
    if kept != "" {
      assert pad + s == (pad + kept) + Zeros(k);
      TrimRightZeros(pad + kept, k);
    }
  }

  // From ICE to flakes.

  function IceFlake(text: string): Parsed {
    var val := Trim(text);
    if val == "" then NilAmount else
    var ix := Index(val, '.');
    if ix < 0 then ParseAmount(val + Zeros(E9)) else
    var padded := val + Padding(E9 - |val[ix + 1..]|);
    var res := TrimLeft(padded[..ix] + padded[ix + 1..], '0');
    if res == "" && ('.' in text || '0' in text) then Flakes(0) else ParseAmount(res)
  }

  /** The flakes of the decimal `a.b`: exact for up to nine fraction digits, and for more digits the
      whole digit text, unscaled. */
  function FlakesOf(a: string, b: string): nat
    requires Digits(a) && Digits(b)
  {
    Value(a + b) * Pow10(if |b| < E9 then E9 - |b| else 0)
  }

  function Limited(n: nat): Parsed {
    if n < UINT_LIMIT then Flakes(n) else Rejected
  }

  lemma {:induction false} IndexOf(a: string, c: char, b: string)
    requires c !in a
    ensures Index(a + [c] + b, c) == |a|
  {
    if a != "" {
      assert (a + [c] + b)[1..] == a[1..] + [c] + b;
      IndexOf(a[1..], c, b);
    }
  }

  lemma DigitsHaveNo(s: string, c: char)
    requires Digits(s) && !IsDigit(c)
    ensures c !in s
  {
  }

  lemma TrimLeftCanonical(s: string)
    requires Digits(s)
    ensures Digits(TrimLeft(s, '0'))
    ensures TrimLeft(s, '0') == "" <==> Value(s) == 0
    ensures TrimLeft(s, '0') != "" ==> Canonical(TrimLeft(s, '0')) && Value(TrimLeft(s, '0')) == Value(s)
  {
    TrimLeftValue(s);
    var t := TrimLeft(s, '0');
    if t != "" {
      PositiveValue(t);
    }
  }

  lemma DigitsOfDotted(a: string, b: string, pad: string)
    requires '.' !in a
    ensures var val := a + "." + b; var padded := val + pad;
                                    && Index(val, '.') == |a| && val[|a| + 1..] == b
                                    && padded[..|a|] + padded[|a| + 1..] == (a + b) + pad
  {
    IndexOf(a, '.', b);
  }

  /** What is left to parse of a text whose trimmed form is `val`, with a dot at `ix`. */
  function Unpointed(val: string, ix: nat): string
    requires ix < |val|
  {
    var padded := val + Padding(E9 - |val[ix + 1..]|);
    TrimLeft(padded[..ix] + padded[ix + 1..], '0')
  }

  lemma IceFlakeWithDot(text: string)
    requires '.' in Trim(text)
    ensures var res := Unpointed(Trim(text), Index(Trim(text), '.'));
            IceFlake(text) == if res == "" then Flakes(0) else ParseAmount(res)
  {
    TrimOnlyBlanks(text, '.');
  }

  lemma UnpointedDotted(a: string, b: string)
    requires '.' !in a
    ensures var val := a + "." + b;
            Index(val, '.') == |a| && Unpointed(val, |a|) == TrimLeft((a + b) + Padding(E9 - |b|), '0')
  {
    DigitsOfDotted(a, b, Padding(E9 - |b|));
  }

  /** Every dotted decimal text, with blanks around it or not, is read as `FlakesOf` says. */
  lemma DottedIceFlake(text: string, a: string, b: string)
    requires Digits(a) && Digits(b) && Trim(text) == a + "." + b
    ensures IceFlake(text) == Limited(FlakesOf(a, b))
  {
    DigitsHaveNo(a, '.');
    UnpointedDotted(a, b);
    IceFlakeWithDot(text);
    ScaledDigits(a, b);
  }

  lemma ScaledDigits(a: string, b: string)
    requires Digits(a) && Digits(b)
    ensures var res := TrimLeft((a + b) + Padding(E9 - |b|), '0');
            (if res == "" then Flakes(0) else ParseAmount(res)) == Limited(FlakesOf(a, b))
  {
    var pad := Padding(E9 - |b|);
    ValueAppend(a, b);
    PadRight(a + b, |pad|);
    TrimLeftCanonical((a + b) + pad);
  }

  /** Unless the parts around the dot are digits the text is the library's to judge. */
  lemma NonDecimalIceFlake(text: string, a: string, b: string)
    requires '.' !in a && !(Digits(a) && Digits(b)) && Trim(text) == a + "." + b
    ensures IceFlake(text) == LibraryDefined
  {
    UnpointedDotted(a, b);
    IceFlakeWithDot(text);
    NoDigitsAfter(a, b, Padding(E9 - |b|));
    TrimLeftDigits((a + b) + Padding(E9 - |b|));
  }

  lemma NoDigitsAfter(a: string, b: string, c: string)
    requires !(Digits(a) && Digits(b))
    ensures !Digits((a + b) + c)
  {
    if i :| 0 <= i < |a| && !IsDigit(a[i]) {
      assert ((a + b) + c)[i] == a[i];
    } else {
      var i :| 0 <= i < |b| && !IsDigit(b[i]);
      assert ((a + b) + c)[|a| + i] == b[i];
    }
  }

  lemma {:induction false} TrimLeftDigits(s: string)
    ensures Digits(TrimLeft(s, '0')) <==> Digits(s)
  {
    if s != "" && s[0] == '0' {
      TrimLeftDigits(s[1..]);
      assert forall i :: 0 < i < |s| ==> s[i] == s[1..][i - 1];
    }
  }

  /** Ten fraction digits, and a tenth of an ICE is read as a whole one. */
  lemma TenDigitsMisread()
    ensures var b := "1" + Zeros(9);
            && IceFlake("0" + "." + b) == Flakes(DENOMINATION)
            && IceFlake("0" + "." + b).n * Pow10(|b|) == 10 * (Value("0" + b) * Pow10(E9))
  {
    var b := "1" + Zeros(9);
    assert "1"[..0] == "";
    PadRight("1", 9);
    Pow9();
    assert Zeros(1) == "0";
    PadLeft(b, 1);
    NoBlanks("0", b);
    DottedIceFlake("0" + "." + b, "0", b);
    assert Pow10(10) == 10 * Pow10(9);
  }

  lemma {:induction false} TrimLeftOnlyBlanks(s: string, c: char)
    requires c != ' '
    ensures c in TrimLeft(s, ' ') <==> c in s
  {
    if s != "" && s[0] == ' ' {
      TrimLeftOnlyBlanks(s[1..], c);
    }
  }

  lemma {:induction false} TrimRightOnlyBlanks(s: string, c: char)
    requires c != ' '
    ensures c in TrimRight(s, ' ') <==> c in s
  {
    if s != "" && s[|s| - 1] == ' ' {
      TrimRightOnlyBlanks(s[..|s| - 1], c);
      assert s == s[..|s| - 1] + " ";
    }
  }

  /** Trimming blanks removes no other character. */
  lemma TrimOnlyBlanks(s: string, c: char)
    requires c != ' '
    ensures c in Trim(s) <==> c in s
  {
    TrimLeftOnlyBlanks(s, c);
    TrimRightOnlyBlanks(TrimLeft(s, ' '), c);
  }

  /** An integer text without leading zeros is read as that many whole ICE. */
  lemma UndottedIceFlake(text: string)
    requires Canonical(Trim(text)) && Trim(text) != "0"
    ensures IceFlake(text) == Limited(Value(Trim(text)) * DENOMINATION)
  {
    var val := Trim(text);
    DigitsHaveNo(val, '.');
    PadRight(val, E9);
    Pow9();
  }

  lemma SplitAtDot(val: string) returns (w: string, rest: string)
    requires '.' in val
    ensures val == w + "." + rest && '.' !in w
  {
    var ix := Index(val, '.');
    w, rest := val[..ix], val[ix + 1..];
  }

  lemma PaddedCanonical(val: string)
    requires val != ""
    ensures Canonical(val + Zeros(E9)) <==> Canonical(val) && val != "0"
  {
    var s := val + Zeros(E9);
    assert s[0] == val[0];
    assert forall i :: 0 <= i < |val| ==> s[i] == val[i];
    if Canonical(val) && val[0] == '0' {
      assert val == "0";
    }
  }

  /** What `ICEFlake` makes of every text: blank is no amount, a dotted decimal is scaled by nine places,
      an integer without leading zeros is whole ICE, and the rest is the library's to judge. */
  lemma IceFlakeMeaning(text: string) returns (a: string, b: string)
    ensures Trim(text) == "" ==> IceFlake(text) == NilAmount
    ensures '.' in Trim(text) ==>
              Trim(text) == a + "." + b && '.' !in a &&
              IceFlake(text) == if Digits(a) && Digits(b) then Limited(FlakesOf(a, b)) else LibraryDefined
    ensures '.' !in Trim(text) && Trim(text) != "" ==>
              Trim(text) == a && b == "" &&
              IceFlake(text) ==
              if Canonical(a) && a != "0" then Limited(Value(a) * DENOMINATION) else LibraryDefined
  {
    a, b := Trim(text), "";
    if '.' in Trim(text) {
      a, b := SplitAtDot(Trim(text));
      if Digits(a) && Digits(b) {
        DottedIceFlake(text, a, b);
      } else {
        NonDecimalIceFlake(text, a, b);
      }
    } else if a != "" {
      PaddedCanonical(a);
      if Canonical(a) && a != "0" {
        UndottedIceFlake(text);
      }
    }
  }

  /** The amount is exact iff there are at most nine fraction digits (or it is zero): the decimal
      `a.b` stands for Value(a+b) / 10^|b| ICE, and one ICE is 10^9 flakes. */
  lemma ExactUpToNineDigits(text: string, a: string, b: string)
    requires Digits(a) && Digits(b) && Trim(text) == a + "." + b && IceFlake(text).Flakes?
    ensures IceFlake(text).n * Pow10(|b|) == Value(a + b) * Pow10(E9) <==> |b| <= E9 || Value(a + b) == 0
  {
    DottedIceFlake(text, a, b);
    ScaleIff(Value(a + b), |b|);
  }

  lemma ScaleIff(v: nat, k: nat)
    ensures v * Pow10(if k < E9 then E9 - k else 0) * Pow10(k) == v * Pow10(E9) <==> k <= E9 || v == 0
  {
    if k <= E9 {
      PowAdd(E9 - k, k);
      Associate(v, Pow10(E9 - k), Pow10(k));
    } else {
      PowMonotone(E9 + 1, k);
      assert Pow10(E9 + 1) == 10 * Pow10(E9);
      if v > 0 {
        MultiplyGreater(v, Pow10(k), Pow10(E9));
      }
    }
  }

  lemma Associate(x: nat, y: nat, z: nat)
    ensures x * y * z == x * (y * z)
  {
  }

  lemma MultiplyGreater(x: nat, y: nat, z: nat)
    requires x > 0 && y > z
    ensures x * y > x * z
  {
  }

  /** An ICE text in normal form: whole ICE without superfluous zeros, then one to nine fraction
      digits of which the last is not a superfluous zero. */
  ghost predicate CanonicalIce(t: string, a: string, b: string) {
    && t == a + "." + b
    && Canonical(a) && Digits(b) && 1 <= |b| <= E9
    && (b == "0" || b[|b| - 1] != '0')
    && FlakesOf(a, b) < UINT_LIMIT
  }

  lemma FractionShape(f: nat)
    requires f < DENOMINATION
    ensures var b := Fraction(f);
            && Digits(b) && 1 <= |b| <= E9 && (b == "0" || b[|b| - 1] != '0')
            && Value(b) * Pow10(E9 - |b|) == f
  {
    NineDigitsValue(f);
    var s := NineDigits(f);
    TrimRightSplit(s);
    var b := TrimRight(s, '0');
    if b != "" {
      PadRight(b, E9 - |b|);
    } else {
      ValueZeros(E9);
    }
    if f != 0 {
      PadRight(b, E9 - |b|);
    } else {
      assert Value("0") == 0 by {
        ValueZeros(1);
        assert Zeros(1) == "0";
      }
    }
  }

  lemma PartsScaled(a: string, b: string, k: nat)
    requires Digits(a) && Digits(b)
    ensures Value(a + b) * Pow10(k) == Value(a) * Pow10(|b| + k) + Value(b) * Pow10(k)
  {
    ValueAppend(a, b);
    PowAdd(|b|, k);
    Distribute(Value(a), Pow10(|b|), Value(b), Pow10(k));
  }

  lemma FlakesOfParts(a: string, b: string)
    requires Digits(a) && Digits(b) && |b| <= E9
    ensures FlakesOf(a, b) == Value(a) * DENOMINATION + Value(b) * Pow10(E9 - |b|)
  {
    PartsScaled(a, b, E9 - |b|);
    Pow9();
  }

  lemma Distribute(a: nat, p: nat, b: nat, q: nat)
    ensures (a * p + b) * q == a * (p * q) + b * q
  {
  }

  /** `ICE` writes normal forms, and `ICEFlake` reads them back. */
  lemma FlakeRoundTrip(n: nat) returns (a: string, b: string)
    requires n < UINT_LIMIT
    ensures CanonicalIce(IceText(n), a, b)
    ensures IceFlake(IceText(n)) == Flakes(n)
  {
    IceMeaning(n);
    a, b := Text(n / DENOMINATION), Fraction(n % DENOMINATION);
    ValueOfText(n / DENOMINATION);
    FractionShape(n % DENOMINATION);
    FlakesOfParts(a, b);
    NoBlanks(a, b);
    DottedIceFlake(IceText(n), a, b);
  }

  lemma NoBlanks(a: string, b: string)
    requires Digits(a) && Digits(b)
    ensures Trim(a + "." + b) == a + "." + b
  {
    var t := a + "." + b;
    assert t[0] != ' ' && t[|t| - 1] != ' ';
  }

  /** On texts in normal form, writing undoes reading. */
  lemma IceRoundTrip(t: string, a: string, b: string)
    requires CanonicalIce(t, a, b)
    ensures IceFlake(t) == Flakes(FlakesOf(a, b)) && IceText(FlakesOf(a, b)) == t
  {
    var n := FlakesOf(a, b);
    NoBlanks(a, b);
    DottedIceFlake(t, a, b);
    WholeAndRest(a, b);
    IceMeaning(n);
    TextOfValue(a);
    FractionUnique(b, E9 - |b|);
  }

  lemma WholeAndRest(a: string, b: string)
    requires Digits(a) && Digits(b) && |b| <= E9
    ensures FlakesOf(a, b) / DENOMINATION == Value(a)
    ensures FlakesOf(a, b) % DENOMINATION == Value(b) * Pow10(E9 - |b|)
  {
    FlakesOfParts(a, b);
    RestBelow(b);
    DivideBack(Value(a), Value(b) * Pow10(E9 - |b|));
  }

  lemma RestBelow(b: string)
    requires Digits(b) && |b| <= E9
    ensures Value(b) * Pow10(E9 - |b|) < DENOMINATION
  {
    PadRight(b, E9 - |b|);
    ValueBound(b + Zeros(E9 - |b|));
    Pow9();
  }

  lemma DivideBack(q: nat, r: nat)
    requires r < DENOMINATION
    ensures (q * DENOMINATION + r) / DENOMINATION == q && (q * DENOMINATION + r) % DENOMINATION == r
  {
  }

  lemma NineDigitsUnique(s: string)
    requires Digits(s) && |s| == E9
    ensures Value(s) < DENOMINATION && NineDigits(Value(s)) == s
  {
    ValueBound(s);
    Pow9();
    NineDigitsValue(Value(s));
    SameLengthSameValue(s, NineDigits(Value(s)));
  }

  lemma FractionUnique(b: string, k: nat)
    requires Digits(b) && b != "" && |b| + k == E9 && (b == "0" || b[|b| - 1] != '0')
    ensures Fraction(Value(b) * Pow10(k)) == b
  {
    if b[|b| - 1] != '0' {
      FractionPadded(b, k);
    } else {
      ZeroFraction(b, k);
    }
  }

  lemma ZeroFraction(b: string, k: nat)
    requires Digits(b) && b == "0"
    ensures Fraction(Value(b) * Pow10(k)) == b
  {
    ZeroValue(b);
    TimesZero(Value(b), Pow10(k));
  }

  lemma ZeroValue(b: string)
    requires Digits(b) && b == "0"
    ensures Value(b) == 0 && Fraction(0) == b
  {
    ValueZeros(1);
    assert Zeros(1) == b;
  }

  lemma TimesZero(x: nat, y: nat)
    requires x == 0
    ensures x * y == 0
  {
  }

  lemma FractionPadded(b: string, k: nat)
    requires Digits(b) && b != "" && |b| + k == E9 && b[|b| - 1] != '0'
    ensures Fraction(Value(b) * Pow10(k)) == b
  {
    var s := b + Zeros(k);
    PadRight(b, k);
    NineDigitsUnique(s);
    TrimRightZeros(b, k);
    LastDigitCounts(b);
    MultiplyGreater(Pow10(k), Value(b), 0);
    assert Value(s) != 0;
  }

  lemma LastDigitCounts(b: string)
    requires Digits(b) && b != "" && b[|b| - 1] != '0'
    ensures Value(b) > 0
  {
  }

  lemma {:induction false} SameLengthSameValue(s: string, t: string)
    requires Digits(s) && Digits(t) && |s| == |t| && Value(s) == Value(t)
    ensures s == t
  {
    if s != "" {
      var i := |s| - 1;
      SameQuotient(Value(s[..i]), DigitOf(s[i]), Value(t[..i]), DigitOf(t[i]));
      SameDigit(s[i], t[i]);
      SameLengthSameValue(s[..i], t[..i]);
      assert s == s[..i] + [s[i]] && t == t[..i] + [t[i]];
    }
  }

  lemma SameQuotient(p: nat, d: nat, q: nat, e: nat)
    requires d < 10 && e < 10 && 10 * p + d == 10 * q + e
    ensures p == q && d == e
  {
  }

  lemma SameDigit(c: char, d: char)
    requires IsDigit(c) && IsDigit(d) && DigitOf(c) == DigitOf(d)
    ensures c == d
  {
    assert CharOf(DigitOf(c)) == c && CharOf(DigitOf(d)) == d;
  }
}
