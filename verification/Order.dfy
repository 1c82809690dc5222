/** Ascending sequences of ids. */
module Order {
  import opened Domain

  predicate Ascending(ids: seq<Id>) {
    forall i, j | 0 <= i < j < |ids| :: ids[i] < ids[j]
  }

  lemma Pick(s: set<Id>) returns (x: Id)
    requires s != {}
    ensures x in s
  {
    if y: Id :| y in s {
      x := y;
    } else {
      assert !exists y :: y in s;
      assert false;
    }
  }

  lemma LeastExists(s: set<Id>) returns (least: Id)
    requires s != {}
    ensures least in s && forall x | x in s :: least <= x
  {
    var x := Pick(s);
    least := x;
    if s != {x} {
      var y := LeastExists(s - {x});
      least := if x < y then x else y;
      assert forall z | z in s :: z == x || z in s - {x};
    }
  }

  /** `ids` lists exactly the elements of `s`, in ascending order. */
  ghost predicate Lists(ids: seq<Id>, s: set<Id>) {
    && Ascending(ids)
    && (forall i | 0 <= i < |ids| :: ids[i] in s)
    && (forall x | x in s :: x in ids)
  }

  lemma ListedBefore(least: Id, rest: seq<Id>, s: set<Id>)
    requires least in s && (forall x | x in s :: least <= x) && Lists(rest, s - {least})
    ensures Lists([least] + rest, s)
  {
  }

  /** The elements of a set in ascending order, as `ORDER BY id` returns them. */
  function InOrder(s: set<Id>): (ids: seq<Id>)
    ensures Lists(ids, s)
  {
    if s == {} then []
    else
      assert exists least :: least in s && forall x | x in s :: least <= x by {
        var l := LeastExists(s);
      }
      var least :| least in s && forall x | x in s :: least <= x;
      ListedBefore(least, InOrder(s - {least}), s);
      [least] + InOrder(s - {least})
  }

  lemma {:induction false} AscendingIsUnique(a: seq<Id>, b: seq<Id>)
    requires Ascending(a) && Ascending(b) && forall x :: x in a <==> x in b
    ensures a == b
  {
    assert a != [] ==> a[0] in a;
    assert b != [] ==> b[0] in b;
    if a != [] && b != [] {
      assert a[0] in b && b[0] in a;
      forall x
        ensures x in a[1..] <==> x in b[1..]
      {
        assert x in a[1..] <==> x in a && x != a[0] by {
          assert a == [a[0]] + a[1..];
        }
        assert x in b[1..] <==> x in b && x != b[0] by {
          assert b == [b[0]] + b[1..];
        }
      }
      AscendingIsUnique(a[1..], b[1..]);
      assert a == [a[0]] + a[1..] && b == [b[0]] + b[1..];
    }
  }

  /** The list with its element at `i` moved down to `j`. */
  function Moved<T>(s: seq<T>, i: nat, j: nat): (r: seq<T>)
    requires j <= i < |s|
    ensures |r| == |s| && r[j] == s[i] && (j > 0 ==> r[j - 1] == s[j - 1])
  {
    s[..j] + [s[i]] + s[j..i] + s[i + 1..]
  }

  lemma MovedOn<T>(s: seq<T>, i: nat, j: nat)
    requires 0 < j <= i < |s|
    ensures Moved(s, i, j)[j - 1 := s[i]][j := s[j - 1]] == Moved(s, i, j - 1)
  {
  }
}
