/** Bookkeeping for systems whose items are spread over many holders: how often an item occurs in
    a sequence, sums over holders, where a change at one holder changes the sum by as much, and
    subsequences. */
module Ledgers {
  function Occurrences<T(==)>(xs: seq<T>, x: T): nat {
    if xs == [] then 0 else (if xs[0] == x then 1 else 0) + Occurrences(xs[1..], x)
  }

  lemma {:induction false} OccursAppend<T>(a: seq<T>, b: seq<T>, x: T)
    ensures Occurrences(a + b, x) == Occurrences(a, x) + Occurrences(b, x)
  {
    if a == [] {
      assert a + b == b;
    } else {
      assert (a + b)[1..] == a[1..] + b;
      OccursAppend(a[1..], b, x);
    }
  }

  lemma {:induction false} OccursMember<T>(xs: seq<T>, x: T)
    ensures Occurrences(xs, x) > 0 <==> x in xs
  {
    if xs != [] {
      OccursMember(xs[1..], x);
    }
  }

  lemma {:induction false} OccursRemove<T>(xs: seq<T>, j: nat, x: T)
    requires j < |xs|
    ensures Occurrences(xs, x) == Occurrences(xs[..j] + xs[j + 1..], x) + if xs[j] == x then 1 else 0
  {
    if j == 0 {
      assert xs[..0] + xs[1..] == xs[1..];
    } else {
      var rest := xs[1..];
      OccursRemove(rest, j - 1, x);
      assert (xs[..j] + xs[j + 1..])[1..] == rest[..j - 1] + rest[j..];
    }
  }

  /** What occurs once occurs at one position. */
  lemma {:induction false} OccursOnce<T>(xs: seq<T>, i: nat, j: nat)
    requires i < |xs| && j < |xs| && xs[i] == xs[j] && Occurrences(xs, xs[i]) <= 1
    ensures i == j
  {
    if i != j {
      OccursRemove(xs, i, xs[i]);
      var rest := xs[..i] + xs[i + 1..];
      assert rest[if j < i then j else j - 1] == xs[i];
      OccursMember(rest, xs[i]);
    }
  }

  function Sum(counts: seq<nat>): nat {
    if counts == [] then 0 else counts[0] + Sum(counts[1..])
  }

  lemma {:induction false} SumUpdate(counts: seq<nat>, i: nat, count: nat)
    requires i < |counts|
    ensures Sum(counts[i := count]) + counts[i] == Sum(counts) + count
  {
    if i == 0 {
      assert counts[0 := count][1..] == counts[1..];
    } else {
      assert counts[i := count][1..] == counts[1..][i - 1 := count];
      SumUpdate(counts[1..], i - 1, count);
    }
  }

  lemma {:induction false} SumZero(counts: seq<nat>)
    ensures Sum(counts) == 0 <==> forall i :: 0 <= i < |counts| ==> counts[i] == 0
  {
    if counts != [] {
      SumZero(counts[1..]);
      assert forall i :: 0 < i < |counts| ==> counts[i] == counts[1..][i - 1];
      assert forall i :: 0 <= i < |counts| - 1 ==> counts[1..][i] == counts[i + 1];
    }
  }

  lemma {:induction false} SumPart(counts: seq<nat>, i: nat)
    requires i < |counts|
    ensures counts[i] <= Sum(counts)
  {
    if i != 0 {
      SumPart(counts[1..], i - 1);
    }
  }

  /** Two different holders share nothing: their parts add up inside the sum. */
  lemma SumPair(counts: seq<nat>, i: nat, j: nat)
    requires i < |counts| && j < |counts| && i != j
    ensures counts[i] + counts[j] <= Sum(counts)
  {
    SumUpdate(counts, j, 0);
    SumPart(counts[j := 0], i);
  }

  /** `a` is `b` with some elements left out. */
  predicate Subsequence<T(==)>(a: seq<T>, b: seq<T>) {
    a == [] || (b != [] && ((a[0] == b[0] && Subsequence(a[1..], b[1..])) || Subsequence(a, b[1..])))
  }

  lemma {:induction false} SubsequenceAppend<T>(a: seq<T>, b: seq<T>, c: seq<T>, d: seq<T>)
    requires Subsequence(a, b) && Subsequence(c, d)
    ensures Subsequence(a + c, b + d)
    decreases |a| + |b|
  {
    if b == [] {
      assert a + c == c && b + d == d;
    } else {
      assert (b + d)[1..] == b[1..] + d;
      if a == [] {
        SubsequenceAppend(a, b[1..], c, d);
      } else if a[0] == b[0] && Subsequence(a[1..], b[1..]) {
        assert (a + c)[1..] == a[1..] + c;
        SubsequenceAppend(a[1..], b[1..], c, d);
      } else {
        SubsequenceAppend(a, b[1..], c, d);
      }
    }
  }

  lemma {:induction false} SubsequenceLength<T>(a: seq<T>, b: seq<T>)
    requires Subsequence(a, b)
    ensures |a| <= |b|
  {
    if a != [] {
      if a[0] == b[0] && Subsequence(a[1..], b[1..]) {
        SubsequenceLength(a[1..], b[1..]);
      } else {
        SubsequenceLength(a, b[1..]);
      }
    }
  }

  lemma {:induction false} SubsequenceMember<T>(a: seq<T>, b: seq<T>, x: T)
    requires Subsequence(a, b) && x in a
    ensures x in b
  {
    if a[0] == b[0] && Subsequence(a[1..], b[1..]) {
      if x != a[0] {
        SubsequenceMember(a[1..], b[1..], x);
      }
    } else {
      SubsequenceMember(a, b[1..], x);
    }
  }
}
