/** The pending audit entries of a status change: a stable sort by target, in place. */
module PendingAudits {
  import opened Domain
  import opened Order
  import opened Protocol

  predicate AscendingTargets(entries: seq<AuditEntry>) {
    forall i, j | 0 <= i < j < |entries| :: entries[i].targetId <= entries[j].targetId
  }

  /** The place of `e` among the first `n` entries: behind the last one whose target is not above its own. */
  function Place(e: AuditEntry, entries: seq<AuditEntry>, n: nat): (j: nat)
    requires n <= |entries|
    ensures j <= n && (j > 0 ==> entries[j - 1].targetId <= e.targetId)
    ensures forall k | j <= k < n :: entries[k].targetId > e.targetId
  {
    if n == 0 || entries[n - 1].targetId <= e.targetId then n else Place(e, entries, n - 1)
  }

  function Insert(e: AuditEntry, sorted: seq<AuditEntry>): seq<AuditEntry> {
    var j := Place(e, sorted, |sorted|);
    sorted[..j] + [e] + sorted[j..]
  }

  /** The first `n` entries, sorted by target with ties left in their order. */
  function SortedUpTo(entries: seq<AuditEntry>, n: nat): (r: seq<AuditEntry>)
    requires n <= |entries|
    ensures |r| == n
  {
    if n == 0 then [] else Insert(entries[n - 1], SortedUpTo(entries, n - 1))
  }

  function SortedByTarget(entries: seq<AuditEntry>): seq<AuditEntry> {
    SortedUpTo(entries, |entries|)
  }

  /** The entries of one target, in their order. */
  function OfTarget(entries: seq<AuditEntry>, id: Id): seq<AuditEntry> {
    if entries == [] then []
    else (if entries[0].targetId == id then [entries[0]] else []) + OfTarget(entries[1..], id)
  }

  lemma Regroup(a: seq<AuditEntry>, b: seq<AuditEntry>, c: seq<AuditEntry>)
    ensures a + (b + c) == a + b + c
  {
  }

  lemma {:induction false} OfTargetAppend(a: seq<AuditEntry>, b: seq<AuditEntry>, id: Id)
    ensures OfTarget(a + b, id) == OfTarget(a, id) + OfTarget(b, id)
  {
    if a == [] {
      assert a + b == b;
    } else {
      var first := if a[0].targetId == id then [a[0]] else [];
      assert (a + b)[1..] == a[1..] + b;
      OfTargetAppend(a[1..], b, id);
      Regroup(first, OfTarget(a[1..], id), OfTarget(b, id));
    }
  }

  lemma InsertAscends(e: AuditEntry, sorted: seq<AuditEntry>)
    requires AscendingTargets(sorted)
    ensures AscendingTargets(Insert(e, sorted))
  {
  }

  lemma SwapEmpty(x: seq<AuditEntry>, e: seq<AuditEntry>, h: seq<AuditEntry>)
    requires e == [] || h == []
    ensures x + e + h == x + h + e
  {
  }

  lemma OfTargetThrice(low: seq<AuditEntry>, e: AuditEntry, high: seq<AuditEntry>, id: Id)
    ensures OfTarget(low + [e] + high, id) == OfTarget(low, id) + OfTarget([e], id) + OfTarget(high, id)
  {
    OfTargetAppend(low + [e], high, id);
    OfTargetAppend(low, [e], id);
  }

  lemma NotBoth(e: AuditEntry, high: seq<AuditEntry>, id: Id)
    requires forall k | 0 <= k < |high| :: high[k].targetId > e.targetId
    ensures OfTarget([e], id) == [] || OfTarget(high, id) == []
  {
  }

  /** An insertion puts the entry behind all entries of its own target. */
  lemma InsertIsLast(e: AuditEntry, sorted: seq<AuditEntry>, id: Id)
    ensures OfTarget(Insert(e, sorted), id) == OfTarget(sorted, id) + OfTarget([e], id)
  {
    var j := Place(e, sorted, |sorted|);
    InsertBetween(e, sorted[..j], sorted[j..], id);
    assert sorted[..j] + sorted[j..] == sorted;
  }

  lemma InsertBetween(e: AuditEntry, low: seq<AuditEntry>, high: seq<AuditEntry>, id: Id)
    requires forall k | 0 <= k < |high| :: high[k].targetId > e.targetId
    ensures OfTarget(low + [e] + high, id) == OfTarget(low + high, id) + OfTarget([e], id)
  {
    OfTargetThrice(low, e, high, id);
    NotBoth(e, high, id);
    SwapEmpty(OfTarget(low, id), OfTarget([e], id), OfTarget(high, id));
    OfTargetAppend(low, high, id);
  }

  lemma {:induction false} SortUpToAscends(entries: seq<AuditEntry>, n: nat)
    requires n <= |entries|
    ensures AscendingTargets(SortedUpTo(entries, n))
  {
    if n > 0 {
      SortUpToAscends(entries, n - 1);
      InsertAscends(entries[n - 1], SortedUpTo(entries, n - 1));
    }
  }

  lemma OfTargetNext(entries: seq<AuditEntry>, n: nat, id: Id)
    requires 0 < n <= |entries|
    ensures OfTarget(entries[..n], id) == OfTarget(entries[..n - 1], id) + OfTarget([entries[n - 1]], id)
  {
    OfTargetAppend(entries[..n - 1], [entries[n - 1]], id);
    assert entries[..n] == entries[..n - 1] + [entries[n - 1]];
  }

  lemma {:induction false} SortUpToKeepsTies(entries: seq<AuditEntry>, n: nat, id: Id)
    requires n <= |entries|
    ensures OfTarget(SortedUpTo(entries, n), id) == OfTarget(entries[..n], id)
  {
    if n > 0 {
      SortUpToKeepsTies(entries, n - 1, id);
      InsertIsLast(entries[n - 1], SortedUpTo(entries, n - 1), id);
      OfTargetNext(entries, n, id);
    }
  }

  /** The sort orders the entries by target and keeps the entries of each target in their order. */
  lemma SortIsStable(entries: seq<AuditEntry>, id: Id)
    ensures AscendingTargets(SortedByTarget(entries))
    ensures OfTarget(SortedByTarget(entries), id) == OfTarget(entries, id)
  {
    SortUpToAscends(entries, |entries|);
    SortUpToKeepsTies(entries, |entries|, id);
    assert entries[..|entries|] == entries;
  }

  /** The sorted prefix takes in one more entry. */
  lemma MovedIsInserted(s: seq<AuditEntry>, entries: seq<AuditEntry>, i: nat, j: nat)
    requires i < |s| == |entries| && s[..i] == SortedUpTo(entries, i) && s[i..] == entries[i..]
    requires j <= i && (j > 0 ==> s[j - 1].targetId <= s[i].targetId)
    requires forall k | j <= k < i :: s[k].targetId > s[i].targetId
    ensures Moved(s, i, j)[..i + 1] == SortedUpTo(entries, i + 1)
    ensures Moved(s, i, j)[i + 1..] == entries[i + 1..]
  {
    var sorted := SortedUpTo(entries, i);
    assert s[i] == s[i..][0] == entries[i];
    PlaceIsUnique(entries[i], sorted, i, j);
    assert s[..j] == sorted[..j] && s[j..i] == sorted[j..];
    assert s[i + 1..] == s[i..][1..] && entries[i + 1..] == entries[i..][1..];
    assert Moved(s, i, j)[..i + 1] == s[..j] + [s[i]] + s[j..i];
  }

  lemma PlaceIsUnique(e: AuditEntry, sorted: seq<AuditEntry>, n: nat, j: nat)
    requires j <= n <= |sorted| && (j > 0 ==> sorted[j - 1].targetId <= e.targetId)
    requires forall k | j <= k < n :: sorted[k].targetId > e.targetId
    ensures Place(e, sorted, n) == j
  {
  }

  /** Sorts entries by target, in place and stably. */
  method SortByTarget(a: array<AuditEntry>)
    modifies a
    ensures a[..] == SortedByTarget(old(a[..]))
  {
    ghost var entries := a[..];
    var i := 0;
    while i < a.Length
      invariant 0 <= i <= a.Length
      invariant a[..][..i] == SortedUpTo(entries, i) && a[..][i..] == entries[i..]
    {
      ghost var was := a[..];
      var j := SinkEntry(a, i);
      MovedIsInserted(was, entries, i, j);
      i := i + 1;
    }
    assert a[..][..i] == a[..];
  }

  /** Moves the entry at `i` down behind the nearest entry before it that is not above it. */
  method SinkEntry(a: array<AuditEntry>, i: nat) returns (j: nat)
    requires i < a.Length
    modifies a
    ensures j <= i && (j > 0 ==> old(a[..])[j - 1].targetId <= old(a[..])[i].targetId)
    ensures forall k | j <= k < i :: old(a[..])[k].targetId > old(a[..])[i].targetId
    ensures a[..] == Moved(old(a[..]), i, j)
  {
    ghost var was := a[..];
    j := i;
    while j > 0 && a[j - 1].targetId > a[j].targetId
      invariant 0 <= j <= i && a[..] == Moved(was, i, j)
      invariant forall k | j <= k < i :: was[k].targetId > was[i].targetId
    {
      MovedOn(was, i, j);
      assert a[j - 1] == a[..][j - 1] && a[j] == a[..][j];
      a[j - 1], a[j] := a[j], a[j - 1];
      j := j - 1;
    }
    assert j > 0 ==> a[j - 1] == a[..][j - 1] == was[j - 1] && a[j] == a[..][j] == was[i];
  }

  lemma SortOfOne(e: AuditEntry)
    ensures SortedByTarget([e]) == [e]
  {
  }

  lemma SortOfTwo(a: AuditEntry, b: AuditEntry)
    ensures SortedByTarget([a, b]) == if a.targetId <= b.targetId then [a, b] else [b, a]
  {
    assert SortedUpTo([a, b], 0) == [];
    assert SortedUpTo([a, b], 1) == [a];
    var j := if a.targetId <= b.targetId then 1 else 0;
    PlaceIsUnique(b, [a], 1, j);
  }

  /** For at most one pending entry of each party, the sort is the order in which the entries are due. */
  lemma PendingInTargetOrder(c: Call, ofActor: seq<AuditEntry>, ofTarget: seq<AuditEntry>)
    requires c.ChangeStatus? && c.actorId != c.targetId && |ofActor| <= 1 && |ofTarget| <= 1
    requires (forall e <- ofActor :: e.targetId == c.actorId) && (forall e <- ofTarget :: e.targetId == c.targetId)
    ensures SortedByTarget(ofActor + ofTarget) == InTargetOrder(c, ofActor, ofTarget)
  {
    if |ofActor| == 1 && |ofTarget| == 1 {
      BothPending(c, ofActor[0], ofTarget[0]);
      assert ofActor == [ofActor[0]] && ofTarget == [ofTarget[0]];
    } else if |ofActor| == 1 {
      SortOfOne(ofActor[0]);
      assert ofActor + ofTarget == ofTarget + ofActor == [ofActor[0]];
    } else if |ofTarget| == 1 {
      SortOfOne(ofTarget[0]);
      assert ofActor + ofTarget == ofTarget + ofActor == [ofTarget[0]];
    }
  }

  lemma BothPending(c: Call, x: AuditEntry, y: AuditEntry)
    requires c.ChangeStatus? && c.actorId != c.targetId && x.targetId == c.actorId && y.targetId == c.targetId
    ensures SortedByTarget([x] + [y]) == InTargetOrder(c, [x], [y])
  {
    SortOfTwo(x, y);
    assert [x] + [y] == [x, y] && [y] + [x] == [y, x];
  }
}
