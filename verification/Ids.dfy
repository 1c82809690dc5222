/** The sorted, duplicate-free list of row ids that every locking statement uses. */
module Ids {
  import opened Domain
  import opened Order

  predicate Sorted(s: seq<Id>) {
    forall i, j | 0 <= i < j < |s| :: s[i] <= s[j]
  }

  /** Sorts in place, by insertion. */
  method SortInPlace(a: array<Id>)
    modifies a
    ensures Sorted(a[..])
    ensures multiset(a[..]) == multiset(old(a[..]))
  {
    var i := 0;
    while i < a.Length
      invariant 0 <= i <= a.Length
      invariant Sorted(a[..][..i])
      invariant multiset(a[..]) == multiset(old(a[..]))
    {
      ghost var was := a[..];
      var j := SinkLast(a, i);
      MovedIsSorted(was, i, j);
      MovedIsPermutation(was, i, j);
      i := i + 1;
    }
    assert a[..][..i] == a[..];
  }

  /** Moves the element at `i` down behind the nearest element before it that is not above it. */
  method SinkLast(a: array<Id>, i: nat) returns (j: nat)
    requires i < a.Length
    modifies a
    ensures j <= i && (j > 0 ==> old(a[..])[j - 1] <= old(a[..])[i])
    ensures forall k | j <= k < i :: old(a[..])[k] > old(a[..])[i]
    ensures a[..] == Moved(old(a[..]), i, j)
  {
    ghost var was := a[..];
    j := i;
    while j > 0 && a[j - 1] > a[j]
      invariant 0 <= j <= i && a[..] == Moved(was, i, j)
      invariant forall k | j <= k < i :: was[k] > was[i]
    {
      MovedOn(was, i, j);
      assert a[j - 1] == a[..][j - 1] && a[j] == a[..][j];
      a[j - 1], a[j] := a[j], a[j - 1];
      j := j - 1;
    }
    assert j > 0 ==> a[j - 1] == a[..][j - 1] == was[j - 1] && a[j] == a[..][j] == was[i];
  }

  lemma MovedIsSorted(s: seq<Id>, i: nat, j: nat)
    requires j <= i < |s| && Sorted(s[..i]) && (j > 0 ==> s[j - 1] <= s[i])
    requires forall k | j <= k < i :: s[k] > s[i]
    ensures Sorted(Moved(s, i, j)[..i + 1])
  {
    var front := s[..i];
    assert forall k | 0 <= k < i :: front[k] == s[k];
    assert Moved(s, i, j)[..i + 1] == front[..j] + [s[i]] + front[j..];
  }

  lemma MovedIsPermutation(s: seq<Id>, i: nat, j: nat)
    requires j <= i < |s|
    ensures multiset(Moved(s, i, j)) == multiset(s)
  {
    assert s == s[..j] + s[j..i] + [s[i]] + s[i + 1..];
  }

  /** The list of distinct elements after one more element of a sorted list. */
  function Extended(kept: seq<Id>, id: Id): seq<Id> {
    if kept == [] || kept[|kept| - 1] != id then kept + [id] else kept
  }

  predicate BoundedBy(kept: seq<Id>, bound: Id) {
    forall k | 0 <= k < |kept| :: kept[k] <= bound
  }

  lemma ExtendedKeepsAll(kept: seq<Id>, read: seq<Id>, id: Id)
    requires Ascending(kept) && BoundedBy(kept, id) && forall x :: x in kept <==> x in read
    ensures Ascending(Extended(kept, id)) && BoundedBy(Extended(kept, id), id)
    ensures forall x :: x in Extended(kept, id) <==> x in read + [id]
  {
    if kept != [] {
      assert kept[|kept| - 1] in kept;
    }
  }

  /** Compacts a sorted array in place: the list of distinct elements grows over the elements already
      read. The first `n` elements are the result. */
  method CompactInPlace(a: array<Id>) returns (n: nat)
    requires Sorted(a[..])
    modifies a
    ensures n <= a.Length && Ascending(a[..n])
    ensures forall x :: x in a[..n] <==> x in old(a[..])
  {
    n := 0;
    var i := 0;
    ghost var was, kept := a[..], a[..0];
    while i < a.Length
      invariant 0 <= n <= i <= a.Length
      invariant a[..n] == kept && Ascending(kept)
      invariant forall x :: x in kept <==> x in was[..i]
      invariant forall k | i <= k < a.Length :: a[k] == was[k]
      invariant i > 0 ==> BoundedBy(kept, was[i - 1])
    {
      var id := a[i];
      assert i > 0 ==> was[i - 1] <= id;
      assert was[..i + 1] == was[..i] + [id];
      ExtendedKeepsAll(kept, was[..i], id);
      assert n > 0 ==> a[n - 1] == kept[n - 1];
      if n == 0 || a[n - 1] != id {
        a[n] := id;
        n := n + 1;
      }
      kept := Extended(kept, id);
      i := i + 1;
    }
    assert was[..i] == was;
  }

  /** The ids in strictly ascending order, each once; the argument is copied before it is sorted. */
  method SortedUniqueIds(ids: array<Id>) returns (unique: seq<Id>)
    ensures ids[..] == old(ids[..])
    ensures Ascending(unique)
    ensures forall x :: x in unique <==> x in ids[..]
  {
    var ordered := new Id[ids.Length](i requires 0 <= i < ids.Length reads ids => ids[i]);
    assert ordered[..] == ids[..];
    SortInPlace(ordered);
    forall x
      ensures x in ordered[..] <==> x in ids[..]
    {
      assert x in multiset(ordered[..]) <==> x in multiset(ids[..]);
    }
    var n := CompactInPlace(ordered);
    unique := ordered[..n];
  }
}
