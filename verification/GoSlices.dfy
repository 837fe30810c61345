/** Go slices: a window with length and capacity over a backing array that other windows may share. */
module GoSlices {

  datatype Slice<T> = Slice(base: array<T>, off: nat, len: nat, cap: nat)

  predicate Fits<T>(s: Slice<T>) {
    s.len <= s.cap && s.off + s.cap <= s.base.Length
  }

  function View<T>(s: Slice<T>): seq<T>
    requires Fits(s)
    reads s.base
  {
    s.base[s.off..s.off + s.len]
  }

  /** `s[lo:hi]`: same backing array, capacity up to the end of the old window. */
  function Sub<T>(s: Slice<T>, lo: nat, hi: nat): (r: Slice<T>)
    requires Fits(s) && lo <= hi <= s.len
    reads s.base
    ensures Fits(r) && r.base == s.base && View(r) == View(s)[lo..hi]
  {
    Slice(s.base, s.off + lo, hi - lo, s.cap - lo)
  }

  /** `make([]T, 0, cap)`. */
  method Make<T(0)>(cap: nat) returns (s: Slice<T>)
    ensures Fits(s) && fresh(s.base) && s.off == 0 && s.len == 0 && s.cap == cap
    ensures View(s) == []
  {
    var base := new T[cap];
    s := Slice(base, 0, 0, cap);
  }

  /** `append(s, xs...)`: in place while the capacity lasts, otherwise into a new array whose
      `spare` capacity is the runtime's choice. */
  method Append<T(0)>(s: Slice<T>, xs: seq<T>, spare: nat) returns (r: Slice<T>, grew: bool)
    requires Fits(s)
    modifies s.base
    ensures Fits(r) && View(r) == old(View(s)) + xs
    ensures grew <==> s.len + |xs| > s.cap
    ensures !grew ==> r == s.(len := s.len + |xs|)
    ensures !grew ==> forall k :: 0 <= k < s.base.Length && !(s.off + s.len <= k < s.off + s.len + |xs|)
                                  ==> s.base[k] == old(s.base[k])
    ensures grew ==> fresh(r.base) && s.base[..] == old(s.base[..])
  {
    grew := s.len + |xs| > s.cap;
    if grew {
      var base := new T[s.len + |xs| + spare];
      forall k | 0 <= k < s.len {
        base[k] := s.base[s.off + k];
      }
      forall k | 0 <= k < |xs| {
        base[s.len + k] := xs[k];
      }
      r := Slice(base, 0, s.len + |xs|, s.len + |xs| + spare);
    } else {
      forall k | 0 <= k < |xs| {
        s.base[s.off + s.len + k] := xs[k];
      }
      r := s.(len := s.len + |xs|);
    }
  }
}
