/**
 * Sequence operations that the task code performs on std::vector:
 * std::find, erase at a position, index swap, and order-preserving selection.
 */
module Sequences {

  /** std::find: the position of the first occurrence of x, or |s| when x is absent. */
  function IndexOf<T(==)>(s: seq<T>, x: T): (i: nat)
    ensures i <= |s|
    ensures i == |s| <==> x !in s
    ensures i < |s| ==> s[i] == x
    ensures x !in s[..i]
  {
    if s == [] then 0
    else if s[0] == x then 0
    else
      var j := IndexOf(s[1..], x);
      assert s[..1 + j] == [s[0]] + s[1..][..j];
      1 + j
  }

  /** A position holding x with no earlier x is the one std::find returns. */
  lemma IndexOfUnique<T>(s: seq<T>, x: T, i: nat)
    requires i < |s| && s[i] == x && x !in s[..i]
    ensures IndexOf(s, x) == i
  {
  }

  /** A sequence is its prefix before k, the entry at k, and the rest. */
  lemma SplitAt<T>(s: seq<T>, k: nat)
    requires k < |s|
    ensures s == s[..k] + [s[k]] + s[k + 1..]
  {
  }

  /** The vector with its first x erased, as erase(begin() + find(x)); unchanged when x is absent. */
  function RemoveFirst<T(==)>(s: seq<T>, x: T): (r: seq<T>)
    ensures x !in s ==> r == s
  {
    var i := IndexOf(s, x);
    if i < |s| then s[..i] + s[i + 1..] else s
  }

  /** Erasing the first x takes exactly one x out of the vector and nothing else. */
  lemma RemoveFirstMultiset<T>(s: seq<T>, x: T)
    ensures multiset(RemoveFirst(s, x)) == if x in s then multiset(s) - multiset{x} else multiset(s)
  {
    var i := IndexOf(s, x);
    if i < |s| {
      SplitAt(s, i);
    }
  }

  /** An element listed exactly once is gone after RemoveFirst; every other element keeps its count. */
  lemma RemoveOnlyOccurrence<T>(s: seq<T>, x: T, y: T)
    requires multiset(s)[x] == 1
    ensures x !in RemoveFirst(s, x)
    ensures y != x ==> multiset(RemoveFirst(s, x))[y] == multiset(s)[y]
  {
    RemoveFirstMultiset(s, x);
  }

  /** s with the entries at i and j exchanged: `s[i] = s[j]; s[j] = old s[i]`. */
  function Swapped<T>(s: seq<T>, i: nat, j: nat): (r: seq<T>)
    requires i < |s| && j < |s|
    ensures |r| == |s|
    ensures r[i] == s[j] && r[j] == s[i]
    ensures forall k :: 0 <= k < |s| && k != i && k != j ==> r[k] == s[k]
    ensures multiset(r) == multiset(s)
  {
    s[i := s[j]][j := s[i]]
  }

  /** Exchanging the same two entries again restores the sequence. */
  lemma SwappedTwice<T>(s: seq<T>, i: nat, j: nat)
    requires i < |s| && j < |s|
    ensures Swapped(Swapped(s, i, j), i, j) == s
  {
    var r := Swapped(Swapped(s, i, j), i, j);
    assert forall k :: 0 <= k < |s| ==> r[k] == s[k];
  }

  /** No entry occurs twice. */
  predicate Distinct<T(==)>(s: seq<T>)
  {
    forall i, j :: 0 <= i < j < |s| ==> s[i] != s[j]
  }

  /** In a sequence without repeats, std::find returns the position of the entry. */
  lemma IndexOfDistinct<T>(s: seq<T>, i: nat)
    requires Distinct(s) && i < |s|
    ensures IndexOf(s, s[i]) == i
  {
    assert forall k :: 0 <= k < i ==> s[..i][k] == s[k];
    IndexOfUnique(s, s[i], i);
  }

  /** After exchanging two entries of a sequence without repeats, each is found at the other's position. */
  lemma IndexOfSwapped<T>(s: seq<T>, i: nat, j: nat)
    requires Distinct(s) && i < |s| && j < |s|
    ensures Distinct(Swapped(s, i, j))
    ensures IndexOf(Swapped(s, i, j), s[i]) == j && IndexOf(Swapped(s, i, j), s[j]) == i
  {
    var r := Swapped(s, i, j);
    forall a, b | 0 <= a < b < |r|
      ensures r[a] != r[b]
    {
      var a' := if a == i then j else if a == j then i else a;
      var b' := if b == i then j else if b == j then i else b;
      assert r[a] == s[a'] && r[b] == s[b'] && a' != b';
    }
    IndexOfDistinct(r, j);
    IndexOfDistinct(r, i);
  }

  /** Exchanging two entries is the same in either order. */
  lemma SwappedSymmetric<T>(s: seq<T>, i: nat, j: nat)
    requires i < |s| && j < |s|
    ensures Swapped(s, i, j) == Swapped(s, j, i)
  {
  }

  /** In a sequence without repeats, exchanging a and b twice, found afresh each time, restores it. */
  lemma SwapBackRestores<T>(s: seq<T>, a: T, b: T)
    requires Distinct(s) && a in s && b in s
    ensures var s1 := Swapped(s, IndexOf(s, a), IndexOf(s, b));
      Swapped(s1, IndexOf(s1, a), IndexOf(s1, b)) == s
  {
    var ia, ib := IndexOf(s, a), IndexOf(s, b);
    IndexOfSwapped(s, ia, ib);
    SwappedSymmetric(Swapped(s, ia, ib), ib, ia);
    SwappedTwice(s, ia, ib);
  }

  /** The entry before the first t, or t itself when t is first. */
  function Above<T(==)>(f: seq<T>, t: T): (r: T)
    requires t in f
    ensures r in f
  {
    if t == f[0] then t else f[IndexOf(f, t) - 1]
  }

  /** The entry after the first t, or t itself when t is last. */
  function Below<T(==)>(f: seq<T>, t: T): (r: T)
    requires t in f
    ensures r in f
  {
    if t == f[|f| - 1] then t else f[IndexOf(f, t) + 1]
  }

  /** In a sequence without repeats, the entry above t (when t is not first) has t below it. */
  lemma BelowAbove<T>(f: seq<T>, t: T)
    requires Distinct(f) && t in f && t != f[0]
    ensures Above(f, t) != t && Below(f, Above(f, t)) == t
  {
    IndexOfDistinct(f, IndexOf(f, t) - 1);
  }

  /** std::find as the loop it is: the first position holding x, or |s|. */
  method Find<T(==)>(s: seq<T>, x: T) returns (i: nat)
    ensures i == IndexOf(s, x)
  {
    i := 0;
    while i < |s| && s[i] != x
      invariant i <= |s|
      invariant x !in s[..i]
    {
      assert s[..i + 1] == s[..i] + [s[i]];
      i := i + 1;
    }
    if i < |s| {
      IndexOfUnique(s, x, i);
    }
  }

  /** a can be obtained from b by deleting entries: an order-preserving selection. */
  predicate IsSubseq<T(==)>(a: seq<T>, b: seq<T>)
  {
    a == [] ||
    (b != [] && ((a[0] == b[0] && IsSubseq(a[1..], b[1..])) || IsSubseq(a, b[1..])))
  }

  /** Every entry of a subsequence is an entry of the sequence. */
  lemma {:induction false} SubseqMembers<T>(a: seq<T>, b: seq<T>, x: T)
    requires x in a
    ensures IsSubseq(a, b) ==> x in b
  {
    if IsSubseq(a, b) {
      if a[0] == b[0] && IsSubseq(a[1..], b[1..]) {
        if x != a[0] { SubseqMembers(a[1..], b[1..], x); }
      } else {
        SubseqMembers(a, b[1..], x);
      }
    }
  }
}
