/** Decimal digit texts of any length and the natural numbers they denote. */
module Decimal {

  predicate IsDigit(c: char) {
    '0' <= c <= '9'
  }

  predicate Digits(s: string) {
    forall i :: 0 <= i < |s| ==> IsDigit(s[i])
  }

  function DigitOf(c: char): (d: nat)
    requires IsDigit(c)
    ensures d < 10
  {
    (c - '0') as nat
  }

  function CharOf(d: nat): (c: char)
    requires d < 10
    ensures IsDigit(c) && DigitOf(c) == d
  {
    '0' + d as char
  }

  function Pow10(k: nat): (p: nat)
    ensures p > 0
  {
    if k == 0 then 1 else 10 * Pow10(k - 1)
  }

  /** The number a digit text denotes; leading zeros are harmless and the empty text is zero. */
  function Value(s: string): nat
    requires Digits(s)
  {
    if s == "" then 0 else 10 * Value(s[..|s| - 1]) + DigitOf(s[|s| - 1])
  }

  /** The usual decimal text, without leading zeros. */
  function Text(n: nat): (s: string)
    ensures s != "" && Digits(s)
  {
    if n < 10 then [CharOf(n)] else Text(n / 10) + [CharOf(n % 10)]
  }

  predicate Canonical(s: string) {
    s != "" && Digits(s) && (|s| > 1 ==> s[0] != '0')
  }

  function Zeros(k: nat): (s: string)
    ensures |s| == k && Digits(s) && forall i :: 0 <= i < k ==> s[i] == '0'
  {
    seq(k, _ => '0')
  }

  function TrimLeft(s: string, c: char): (r: string)
    ensures r != "" ==> r[0] != c
  {
    if s == "" || s[0] != c then s else TrimLeft(s[1..], c)
  }

  function TrimRight(s: string, c: char): (r: string)
    ensures r <= s
    ensures r != "" ==> r[|r| - 1] != c
  {
    if s == "" || s[|s| - 1] != c then s else TrimRight(s[..|s| - 1], c)
  }

  lemma {:induction false} PowAdd(a: nat, b: nat)
    ensures Pow10(a + b) == Pow10(a) * Pow10(b)
  {
    if a > 0 {
      PowAdd(a - 1, b);
      TenTimes(Pow10(b), Pow10(a - 1));
    }
  }

  lemma {:induction false} PowMonotone(a: nat, b: nat)
    requires a <= b
    ensures Pow10(a) <= Pow10(b)
  {
    if a < b {
      PowMonotone(a, b - 1);
    }
  }

  lemma TenTimes(x: nat, y: nat)
    ensures 10 * (x * y) == x * (10 * y)
  {
  }

  lemma ValueSnoc(s: string, c: char)
    requires Digits(s) && IsDigit(c)
    ensures Digits(s + [c]) && Value(s + [c]) == 10 * Value(s) + DigitOf(c)
  {
    assert (s + [c])[..|s|] == s;
  }

  lemma {:induction false} ValueAppend(a: string, b: string)
    requires Digits(a) && Digits(b)
    ensures Digits(a + b) && Value(a + b) == Value(a) * Pow10(|b|) + Value(b)
  {
    if b == "" {
      assert a + b == a;
    } else {
      var init, last := b[..|b| - 1], b[|b| - 1];
      ValueAppend(a, init);
      ValueSnoc(a + init, last);
      assert a + b == (a + init) + [last];
      TenTimes(Value(a), Pow10(|init|));
    }
  }

  lemma {:induction false} ValueZeros(k: nat)
    ensures Value(Zeros(k)) == 0
  {
    if k > 0 {
      ValueZeros(k - 1);
      assert Zeros(k)[..k - 1] == Zeros(k - 1);
    }
  }

  lemma PadRight(s: string, k: nat)
    requires Digits(s)
    ensures Digits(s + Zeros(k)) && Value(s + Zeros(k)) == Value(s) * Pow10(k)
  {
    ValueAppend(s, Zeros(k));
    ValueZeros(k);
  }

  lemma PadLeft(s: string, k: nat)
    requires Digits(s)
    ensures Digits(Zeros(k) + s) && Value(Zeros(k) + s) == Value(s)
  {
    ValueAppend(Zeros(k), s);
    ValueZeros(k);
  }

  lemma {:induction false} ValueBound(s: string)
    requires Digits(s)
    ensures Value(s) < Pow10(|s|)
  {
    if s != "" {
      ValueBound(s[..|s| - 1]);
    }
  }

  lemma {:induction false} TrimLeftValue(s: string)
    requires Digits(s)
    ensures Digits(TrimLeft(s, '0')) && Value(TrimLeft(s, '0')) == Value(s)
  {
    if s != "" && s[0] == '0' {
      TrimLeftValue(s[1..]);
      assert s == Zeros(1) + s[1..];
      PadLeft(s[1..], 1);
    }
  }

  /** Trimming splits a text into the part kept and a run of the trimmed character. */
  lemma {:induction false} TrimRightSplit(s: string)
    ensures TrimRight(s, '0') + Zeros(|s| - |TrimRight(s, '0')|) == s
  {
    if s != "" && s[|s| - 1] == '0' {
      var init := s[..|s| - 1];
      TrimRightSplit(init);
      var k := |init| - |TrimRight(init, '0')|;
      assert Zeros(k + 1) == Zeros(k) + "0";
    }
  }

  lemma {:induction false} TrimRightZeros(s: string, k: nat)
    requires s == "" || s[|s| - 1] != '0'
    ensures TrimRight(s + Zeros(k), '0') == s
  {
    if k == 0 {
      assert s + Zeros(0) == s;
    } else {
      assert (s + Zeros(k))[..|s| + k - 1] == s + Zeros(k - 1);
      TrimRightZeros(s, k - 1);
    }
  }

  // Text and Value are inverse on canonical texts.

  lemma {:induction false} ValueOfText(n: nat)
    ensures Value(Text(n)) == n && Canonical(Text(n)) && (n > 0 ==> Text(n)[0] != '0')
  {
    if n < 10 {
      assert [CharOf(n)][..0] == "";
    } else {
      ValueOfText(n / 10);
      var s := Text(n);
      assert s[..|s| - 1] == Text(n / 10);
      assert s[0] == Text(n / 10)[0];
    }
  }

  lemma {:induction false} PositiveValue(s: string)
    requires Digits(s) && s != "" && s[0] != '0'
    ensures Value(s) >= Pow10(|s| - 1)
  {
    if |s| == 1 {
      assert s[..0] == "";
    } else {
      PositiveValue(s[..|s| - 1]);
    }
  }

  lemma {:induction false} TextOfValue(s: string)
    requires Canonical(s)
    ensures Text(Value(s)) == s
  {
    if |s| == 1 {
      assert s[..0] == "" && s == [s[0]];
      assert Value(s) == DigitOf(s[0]);
      assert CharOf(DigitOf(s[0])) == s[0];
    } else {
      var init := s[..|s| - 1];
      TextOfValue(init);
      PositiveValue(init);
      var d := DigitOf(s[|s| - 1]);
      assert Value(s) / 10 == Value(init) && Value(s) % 10 == d;
      assert CharOf(d) == s[|s| - 1];
      assert s == init + [s[|s| - 1]];
    }
  }

  lemma TextLength(n: nat, k: nat)
    requires n < Pow10(k) && k > 0
    ensures |Text(n)| <= k
  {
    ValueOfText(n);
    if |Text(n)| > k {
      PositiveValue(Text(n));
      PowMonotone(k, |Text(n)| - 1);
    }
  }
}
