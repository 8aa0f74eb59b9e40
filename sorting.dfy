/** The exchange sort that the listing and history handlers run over the
    slice they have just gathered. */
module Sorting {

  ghost predicate SortedBy<T>(s: seq<T>, key: T -> int) {
    forall p, q :: 0 <= p < q < |s| ==> key(s[p]) <= key(s[q])
  }

  /** For every position i and every later position j, swap the two when the
      element at i has the larger key. The slice is local to the handler, so
      the model copies it into a fresh array, sorts that in place and returns
      its contents. A descending sort is this one on the negated key: the
      source's `a[i].Before(a[j])` swaps exactly when `-a[i] > -a[j]`. */
  method SortByKey<T>(s: seq<T>, key: T -> int) returns (r: seq<T>)
    ensures SortedBy(r, key)
    ensures multiset(r) == multiset(s)
  {
    var a := new T[|s|](k requires 0 <= k < |s| => s[k]);
    assert a[..] == s;
    var i := 0;
    while i + 1 < a.Length
      invariant 0 <= i <= a.Length
      invariant SortedBelow(a[..], i, key)
      invariant multiset(a[..]) == multiset(s)
    {
      SmallestFirst(a, i, key);
      i := i + 1;
    }
    r := a[..];
  }

  /** The first i elements are in order and none has a larger key than any
      element after them. */
  ghost predicate SortedBelow<T>(s: seq<T>, i: int, key: T -> int) {
    && (forall p, q :: 0 <= p < q < i && q < |s| ==> key(s[p]) <= key(s[q]))
    && (forall p, q :: 0 <= p < i <= q < |s| ==> key(s[p]) <= key(s[q]))
  }

  /** Exchanging the element at i with a later one of smaller key keeps the
      first i in place and the bound they set, and puts the smaller key first. */
  lemma SwapStep<T>(s: seq<T>, i: int, j: int, key: T -> int)
    requires 0 <= i < j < |s|
    requires SortedBelow(s, i, key) && LeadsUpTo(s, i, j, key)
    requires key(s[i]) > key(s[j])
    ensures SortedBelow(s[i := s[j]][j := s[i]], i, key)
    ensures LeadsUpTo(s[i := s[j]][j := s[i]], i, j + 1, key)
  {
  }

  /** A smallest key of s[i..] at position i extends the sorted prefix by one. */
  lemma ExtendSortedBelow<T>(s: seq<T>, i: int, key: T -> int)
    requires 0 <= i < |s|
    requires SortedBelow(s, i, key)
    requires forall q :: i < q < |s| ==> key(s[i]) <= key(s[q])
    ensures SortedBelow(s, i + 1, key)
  {
  }

  /** Smallest key of s[i..] among positions below j, at position i. */
  ghost predicate LeadsUpTo<T>(s: seq<T>, i: int, j: int, key: T -> int)
    requires 0 <= i < |s| && j <= |s|
  {
    forall q :: i < q < j ==> key(s[i]) <= key(s[q])
  }

  /** The inner loop: after it, position i holds a smallest key of a[i..],
      the sorted prefix before i is untouched, and the elements are permuted. */
  method SmallestFirst<T>(a: array<T>, i: nat, key: T -> int)
    requires i < a.Length
    requires SortedBelow(a[..], i, key)
    modifies a
    ensures SortedBelow(a[..], i + 1, key)
    ensures multiset(a[..]) == multiset(old(a[..]))
  {
    var j := i + 1;
    while j < a.Length
      invariant i < j <= a.Length
      invariant SortedBelow(a[..], i, key)
      invariant LeadsUpTo(a[..], i, j, key)
      invariant multiset(a[..]) == multiset(old(a[..]))
    {
      if key(a[i]) > key(a[j]) {
        SwapStep(a[..], i, j, key);
        Swap(a, i, j);
      }
      j := j + 1;
    }
    ExtendSortedBelow(a[..], i, key);
  }

  /** `a[i], a[j] = a[j], a[i]`. */
  method Swap<T>(a: array<T>, i: int, j: int)
    requires 0 <= i < j < a.Length
    modifies a
    ensures a[..] == old(a[..])[i := old(a[j])][j := old(a[i])]
    ensures multiset(a[..]) == multiset(old(a[..]))
  {
    a[i], a[j] := a[j], a[i];
  }
}
