/** `sortUint16s`: ascending in-place sorting, specified by the unique sorted permutation. */
module Sorting {
  import opened Wire

  ghost predicate Ascending(s: seq<uint16>) {
    forall i, j | 0 <= i < j < |s| :: s[i] <= s[j]
  }

  ghost predicate SortedVersion(sorted: seq<uint16>, original: seq<uint16>) {
    Ascending(sorted) && multiset(sorted) == multiset(original)
  }

  function Insert(x: uint16, s: seq<uint16>): seq<uint16> {
    if s == [] || x <= s[0] then [x] + s else [s[0]] + Insert(x, s[1..])
  }

  function Sorted(s: seq<uint16>): seq<uint16> {
    if s == [] then [] else Insert(s[0], Sorted(s[1..]))
  }

  lemma {:induction false} InsertAscends(x: uint16, s: seq<uint16>)
    requires Ascending(s)
    ensures Ascending(Insert(x, s))
  {
    if s == [] || x <= s[0] {
    } else {
      InsertAscends(x, s[1..]);
      InsertAbove(s[0], x, s[1..]);
    }
  }

  lemma {:induction false} InsertKeeps(x: uint16, s: seq<uint16>)
    ensures multiset(Insert(x, s)) == multiset{x} + multiset(s)
  {
    if s == [] || x <= s[0] {
    } else {
      InsertKeeps(x, s[1..]);
      Beheaded(s);
    }
  }

  lemma InsertAbove(low: uint16, x: uint16, t: seq<uint16>)
    requires low <= x && forall i | 0 <= i < |t| :: low <= t[i]
    ensures forall i | 0 <= i < |Insert(x, t)| :: low <= Insert(x, t)[i]
  {
  }

  lemma {:induction false} SortedSorts(s: seq<uint16>)
    ensures SortedVersion(Sorted(s), s)
  {
    if s != [] {
      SortedSorts(s[1..]);
      InsertKeeps(s[0], Sorted(s[1..]));
      InsertAscends(s[0], Sorted(s[1..]));
      Beheaded(s);
    }
  }

  lemma SameHead(s: seq<uint16>, t: seq<uint16>)
    requires Ascending(s) && Ascending(t) && multiset(s) == multiset(t) && s != [] && t != []
    ensures s[0] == t[0]
  {
    assert s[0] in multiset(t) && t[0] in multiset(s);
  }

  lemma Beheaded(s: seq<uint16>)
    requires s != []
    ensures multiset(s[1..]) == multiset(s) - multiset{s[0]}
  {
    assert s == [s[0]] + s[1..];
  }

  /** Ascending sequences with equal multisets are equal, so any correct sort gives the same list. */
  lemma {:induction false} SortUnique(s: seq<uint16>, t: seq<uint16>)
    requires Ascending(s) && Ascending(t) && multiset(s) == multiset(t)
    ensures s == t
  {
    assert |s| == |multiset(s)| == |multiset(t)| == |t|;
    if s != [] {
      SameHead(s, t);
      Beheaded(s);
      Beheaded(t);
      SortUnique(s[1..], t[1..]);
      assert s == [s[0]] + s[1..] && t == [t[0]] + t[1..];
    }
  }

  lemma SortedDependsOnContentsOnly(s: seq<uint16>, t: seq<uint16>)
    requires multiset(s) == multiset(t)
    ensures Sorted(s) == Sorted(t)
  {
    SortedSorts(s);
    SortedSorts(t);
    SortUnique(Sorted(s), Sorted(t));
  }

  method Swap<T>(a: array<T>, i: nat, j: nat)
    requires i < j < a.Length
    modifies a
    ensures a[i] == old(a[j]) && a[j] == old(a[i])
    ensures forall k | 0 <= k < a.Length && k != i && k != j :: a[k] == old(a[k])
    ensures multiset(a[..]) == multiset(old(a[..]))
  {
    a[i], a[j] := a[j], a[i];
  }

  /** `sort.Slice`: in-place sorting by a key, ascending; the order among equal keys is not promised. */
  method SortSlice<T>(a: array<T>, key: T -> int)
    modifies a
    ensures forall i, j | 0 <= i < j < a.Length :: key(a[i]) <= key(a[j])
    ensures multiset(a[..]) == multiset(old(a[..]))
  {
    var n := a.Length;
    var i := 0;
    while i < n
      invariant 0 <= i <= n
      invariant forall p, q | 0 <= p < q < i :: key(a[p]) <= key(a[q])
      invariant multiset(a[..]) == multiset(old(a[..]))
    {
      Sift(a, key, i);
      i := i + 1;
    }
  }

  /** Moving item `i` down to its place among the sorted ones before it. */
  method Sift<T>(a: array<T>, key: T -> int, i: nat)
    requires i < a.Length && forall p, q | 0 <= p < q < i :: key(a[p]) <= key(a[q])
    modifies a
    ensures forall p, q | 0 <= p < q <= i :: key(a[p]) <= key(a[q])
    ensures multiset(a[..]) == multiset(old(a[..]))
  {
    var j := i;
    while j > 0 && key(a[j - 1]) > key(a[j])
      invariant 0 <= j <= i
      invariant forall p, q | 0 <= p < q <= i && q != j :: key(a[p]) <= key(a[q])
      invariant multiset(a[..]) == multiset(old(a[..]))
    {
      Swap(a, j - 1, j);
      j := j - 1;
    }
  }

  method SortUint16s(a: array<uint16>)
    modifies a
    ensures a[..] == Sorted(old(a[..]))
  {
    ghost var was := a[..];
    SortSlice(a, (w: uint16) => w);
    SortedSorts(was);
    assert Ascending(a[..]);
    SortUnique(a[..], Sorted(was));
  }
}
