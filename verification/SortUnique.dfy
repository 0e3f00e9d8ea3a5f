/** The in-place bubble sort and duplicate removal that turn edge coordinates into cut lists. */
module SortUnique {
  predicate Sorted(s: seq<int>) {
    forall i, j :: 0 <= i <= j < |s| ==> s[i] <= s[j]
  }

  predicate Increasing(s: seq<int>) {
    forall i, j :: 0 <= i < j < |s| ==> s[i] < s[j]
  }

  /** Same values with the same multiplicities. */
  ghost predicate Permutes(s: seq<int>, t: seq<int>) {
    multiset(s) == multiset(t)
  }

  lemma PermutesIn(s: seq<int>, t: seq<int>)
    requires Permutes(s, t)
    ensures forall v :: v in s <==> v in t
  {
    forall v ensures v in s <==> v in t {
      assert v in multiset(s) <==> v in multiset(t);
    }
  }

  function Exchanged(s: seq<int>, i: nat, j: nat): seq<int>
    requires i < |s| && j < |s|
  {
    s[i := s[j]][j := s[i]]
  }

  /** The exchange of two entries among the first `len`. */
  method Exchange(a: array<int>, i: nat, j: nat, len: nat)
    requires j < i < len <= a.Length
    modifies a
    ensures a[..len] == Exchanged(old(a[..len]), i, j) && a[len..] == old(a[len..])
  {
    var temp := a[i];
    a[i] := a[j];
    a[j] := temp;
  }

  ghost predicate SortedTo(s: seq<int>, i: nat) {
    i <= |s| && forall p, q :: 0 <= p <= q < i ==> s[p] <= s[q]
  }

  /** The first `i` entries are in order, and the first `j` of them not above entry `i`. */
  ghost predicate Settling(s: seq<int>, i: nat, j: nat) {
    j <= i < |s| && SortedTo(s, i) && forall k :: 0 <= k < j ==> s[k] <= s[i]
  }

  /** Comparing entry `i` with the next one, and exchanging them if needed, settles one more. */
  lemma SettleNext(s: seq<int>, i: nat, j: nat)
    requires Settling(s, i, j) && j < i
    ensures Settling(if s[i] < s[j] then Exchanged(s, i, j) else s, i, j + 1)
    ensures Permutes(Exchanged(s, i, j), s)
  {
    if s[i] < s[j] { SettleExchanged(s, Exchanged(s, i, j), i, j); }
  }

  lemma SettleExchanged(s: seq<int>, t: seq<int>, i: nat, j: nat)
    requires Settling(s, i, j) && j < i && s[i] < s[j] && |t| == |s|
    requires forall k :: 0 <= k < |s| ==> t[k] == if k == j then s[i] else if k == i then s[j] else s[k]
    ensures Settling(t, i, j + 1)
  {
  }

  /** `rgz_bsort`: sorts the first `len` entries; the rest of the array is untouched. */
  method BSort(a: array<int>, len: nat)
    requires len <= a.Length
    modifies a
    ensures Sorted(a[..len])
    ensures Permutes(a[..len], old(a[..len]))
    ensures a[len..] == old(a[len..])
  {
    for i := 0 to len
      invariant SortedTo(a[..len], i)
      invariant Permutes(a[..len], old(a[..len])) && a[len..] == old(a[len..])
    {
      for j := 0 to i
        invariant Settling(a[..len], i, j)
        invariant Permutes(a[..len], old(a[..len])) && a[len..] == old(a[len..])
      {
        SettleNext(a[..len], i, j);
        if a[i] < a[j] {
          Exchange(a, i, j, len);
        }
      }
    }
  }

  /**
    The inner loops of `rgz_bunique`: repeats of `a[base]` give way to the next larger value. There
    is none if `a[base]` is the last value.
   */
  method Backfill(a: array<int>, len: nat, base: nat) returns (last: bool)
    requires base + 1 < len <= a.Length && Sorted(a[..len])
    modifies a
    ensures Sorted(a[..len]) && a[len..] == old(a[len..])
    ensures forall k :: 0 <= k <= base ==> a[k] == old(a[k])
    ensures forall v :: v in a[..len] <==> v in old(a[..len])
    ensures if last then forall k :: base <= k < len ==> a[k] == a[base] else a[base] < a[base + 1]
  {
    if a[base] != a[base + 1] {
      return false;
    }
    var skip := 1;
    while base + skip < len && a[base] == a[base + skip]
      invariant 1 <= skip && base + skip <= len
      invariant forall k :: base <= k < base + skip ==> a[k] == a[base]
    {
      skip := skip + 1;
    }
    if base + skip == len {
      return true;
    }
    ghost var before := a[..len];
    for i := 0 to skip - 1
      invariant forall k :: 0 <= k < len ==>
        a[k] == if base + 1 <= k < base + 1 + i then before[base + skip] else before[k]
      invariant forall k :: len <= k < a.Length ==> a[k] == old(a[k])
    {
      a[base + 1 + i] := a[base + skip];
    }
    BackfillKeeps(before, a[..len], base, skip);
    last := false;
  }

  /** `rgz_bunique`: leaves every distinct value once, in order, in the first `unique` entries. */
  method BUnique(a: array<int>, len: nat) returns (unique: nat)
    requires 0 < len <= a.Length
    requires Sorted(a[..len])
    modifies a
    ensures 1 <= unique <= len
    ensures Increasing(a[..unique])
    ensures forall v :: v in a[..unique] <==> v in old(a[..len])
    ensures a[len..] == old(a[len..])
  {
    unique := 1;
    var base := 0;
    while base + 1 < len
      invariant unique == base + 1 <= len
      invariant Sorted(a[..len])
      invariant IncreasingTo(a[..len], unique)
      invariant forall v :: v in a[..len] <==> v in old(a[..len])
      invariant a[len..] == old(a[len..])
    {
      ghost var before := a[..len];
      var last := Backfill(a, len, base);
      IncreasingNext(before, a[..len], base);
      if last {
        break;
      }
      unique := unique + 1;
      base := base + 1;
    }
    TailRepeats(a[..len], unique);
    assert a[..len][..unique] == a[..unique];
  }

  ghost predicate IncreasingTo(s: seq<int>, n: nat) {
    n <= |s| && forall i, j :: 0 <= i < j < n ==> s[i] < s[j]
  }

  lemma IncreasingNext(s: seq<int>, t: seq<int>, base: nat)
    requires |s| == |t| && base + 1 < |s| && IncreasingTo(s, base + 1)
    requires forall k :: 0 <= k <= base ==> t[k] == s[k]
    ensures IncreasingTo(t, base + 1) && (t[base] < t[base + 1] ==> IncreasingTo(t, base + 2))
  {
    forall i, j | 0 <= i < j < base + 1 ensures t[i] < t[j] {
      assert s[i] < s[j];
    }
  }

  /** Both passes, as `rgz_in_hwc` and `rgz_gen_blitregions` make them. */
  method SortAndUnique(a: array<int>, len: nat) returns (unique: nat)
    requires 0 < len <= a.Length
    modifies a
    ensures 1 <= unique <= len
    ensures Increasing(a[..unique])
    ensures forall v :: v in a[..unique] <==> v in old(a[..len])
  {
    BSort(a, len);
    PermutesIn(a[..len], old(a[..len]));
    unique := BUnique(a, len);
  }

  /** Overwriting repeats of `s[base]` by the next larger value keeps order and the set of values. */
  lemma BackfillKeeps(s: seq<int>, t: seq<int>, base: nat, skip: nat)
    requires Sorted(s) && |t| == |s| && 1 < skip && base + skip < |s|
    requires s[base] < s[base + skip]
    requires forall k :: base <= k < base + skip ==> s[k] == s[base]
    requires forall k :: 0 <= k < |s| ==>
      t[k] == if base + 1 <= k < base + skip then s[base + skip] else s[k]
    ensures Sorted(t) && t[base] < t[base + 1]
    ensures forall v :: v in t <==> v in s
  {
    forall v | v in s ensures v in t {
      var k :| 0 <= k < |s| && s[k] == v;
      assert t[if base + 1 <= k < base + skip then base else k] == v;
    }
  }

  /** When the scan stops, everything past the kept prefix repeats its last value. */
  lemma TailRepeats(s: seq<int>, unique: nat)
    requires 1 <= unique <= |s|
    requires forall k :: unique <= k < |s| ==> s[k] == s[unique - 1]
    ensures forall v :: v in s[..unique] <==> v in s
  {
    forall v | v in s ensures v in s[..unique] {
      var k :| 0 <= k < |s| && s[k] == v;
      assert s[..unique][if k < unique then k else unique - 1] == v;
    }
  }
}
