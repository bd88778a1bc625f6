/** Sequence operations shared by the registry and the advertisement queue. */
module Lists {

  datatype Option<T> = None | Some(value: T)

  function Inserted<T>(s: seq<T>, at: nat, x: T): seq<T>
    requires at <= |s|
  {
    s[..at] + [x] + s[at..]
  }

  function Removed<T>(s: seq<T>, at: nat): seq<T>
    requires at < |s|
  {
    s[..at] + s[at + 1..]
  }

  /** The first position of x, or the length of s. */
  function First<T(==)>(s: seq<T>, x: T): (i: nat)
    ensures i <= |s|
    ensures i < |s| ==> s[i] == x
    ensures x in s <==> i < |s|
  {
    if s == [] || s[0] == x then 0 else 1 + First(s[1..], x)
  }

  lemma {:induction false} FirstIsOnly<T>(s: seq<T>, i: nat)
    requires Distinct(s) && i < |s|
    ensures First(s, s[i]) == i
  {
    DistinctFrom(s, i);
  }

  /** Recursive, so that a proof meets the pairwise fact only where it asks for it. */
  predicate Distinct<T(==)>(s: seq<T>) {
    s == [] || (s[0] !in s[1..] && Distinct(s[1..]))
  }

  lemma {:induction false} DistinctPairs<T>(s: seq<T>)
    ensures Distinct(s) <==> forall i, j :: 0 <= i < j < |s| ==> s[i] != s[j]
    decreases s
  {
    if s != [] {
      DistinctPairs(s[1..]);
      assert forall j :: 1 <= j < |s| ==> s[j] == s[1..][j - 1];
      if Distinct(s[1..]) && s[0] in s[1..] {
        var j :| 0 <= j < |s[1..]| && s[1..][j] == s[0];
        assert s[0] == s[j + 1];
      }
      if !Distinct(s[1..]) {
        var i, j :| 0 <= i < j < |s[1..]| && s[1..][i] == s[1..][j];
        assert s[i + 1] == s[j + 1];
      }
    }
  }

  lemma DistinctFrom<T>(s: seq<T>, at: nat)
    requires Distinct(s) && at < |s|
    ensures forall i :: 0 <= i < |s| && i != at ==> s[i] != s[at]
  {
    DistinctPairs(s);
  }

  lemma {:induction false} DistinctInserted<T>(s: seq<T>, at: nat, x: T)
    requires Distinct(s) && at <= |s| && x !in s
    ensures Distinct(Inserted(s, at, x))
    decreases at
  {
    var r := Inserted(s, at, x);
    if at == 0 {
      assert r[1..] == s;
    } else {
      assert r[1..] == Inserted(s[1..], at - 1, x) == s[1..][..at - 1] + [x] + s[1..][at - 1..];
      DistinctInserted(s[1..], at - 1, x);
    }
  }

  lemma DistinctRemoved<T>(s: seq<T>, at: nat)
    requires Distinct(s) && at < |s|
    ensures Distinct(Removed(s, at)) && s[at] !in Removed(s, at)
  {
    DistinctPairs(s);
    DistinctPairs(Removed(s, at));
  }

  lemma InsertedMembers<T>(who: seq<T>, at: nat, x: T)
    requires at <= |who|
    ensures forall y :: y in Inserted(who, at, x) <==> y == x || y in who
  {
    assert who == who[..at] + who[at..];
  }

  lemma RemovedMembers<T>(who: seq<T>, at: nat)
    requires at < |who| && Distinct(who)
    ensures forall y :: y in Removed(who, at) <==> y != who[at] && y in who
  {
    DistinctRemoved(who, at);
    assert who == who[..at] + [who[at]] + who[at + 1..];
  }

  lemma InsertedNeighbours<T>(s: seq<T>, at: nat, x: T, i: nat)
    requires at <= |s| && i <= |s|
    ensures var r := Inserted(s, at, x);
      && r[i] == (if i < at then s[i] else if i == at then x else s[i - 1])
      && (i + 1 < |r| ==> r[i + 1] == if i + 1 < at then s[i + 1] else if i + 1 == at then x else s[i])
      && (i > 0 ==> r[i - 1] == if i - 1 < at then s[i - 1] else if i - 1 == at then x else s[i - 2])
  {
  }

  lemma RemovedNeighbours<T>(s: seq<T>, at: nat, i: nat)
    requires at < |s| && i < |s| - 1
    ensures var r := Removed(s, at);
      && r[i] == (if i < at then s[i] else s[i + 1])
      && (i + 1 < |r| ==> r[i + 1] == if i + 1 < at then s[i + 1] else s[i + 2])
      && (i > 0 ==> r[i - 1] == if i - 1 < at then s[i - 1] else s[i])
  {
  }

  /** The place of x in a sorted sequence: in front of the first element that is not smaller. */
  function Place(s: seq<nat>, x: int): (i: nat)
    ensures i <= |s|
  {
    if s == [] || s[0] >= x then 0 else 1 + Place(s[1..], x)
  }

  lemma {:induction false} PlaceIsFirst(s: seq<nat>, x: int)
    ensures var i := Place(s, x);
      && (forall k :: 0 <= k < i ==> s[k] < x)
      && (i < |s| ==> s[i] >= x)
    decreases s
  {
    if s != [] && s[0] < x {
      PlaceIsFirst(s[1..], x);
      assert forall k :: 1 <= k < |s| ==> s[k] == s[1..][k - 1];
    }
  }

  predicate Ascending(s: seq<nat>) {
    |s| <= 1 || (s[0] <= s[1] && Ascending(s[1..]))
  }

  lemma {:induction false} AscendingPairs(s: seq<nat>)
    ensures Ascending(s) <==> forall i, j :: 0 <= i < j < |s| ==> s[i] <= s[j]
    decreases s
  {
    if |s| > 1 {
      var rest := s[1..];
      AscendingPairs(rest);
      assert forall i :: 1 <= i < |s| ==> s[i] == rest[i - 1];
      if !Ascending(rest) {
        var i, j :| 0 <= i < j < |rest| && rest[i] > rest[j];
        assert s[i + 1] > s[j + 1];
      }
    }
  }

  lemma PlacedAscends(s: seq<nat>, d: nat)
    requires Ascending(s)
    ensures Ascending(Inserted(s, Place(s, d), d))
  {
    PlaceIsFirst(s, d);
    AscendingPairs(s);
    InsertedAscends(s, Place(s, d), d);
  }

  lemma InsertedAscends(s: seq<nat>, at: nat, d: nat)
    requires at <= |s| && forall i, j :: 0 <= i < j < |s| ==> s[i] <= s[j]
    requires (forall k :: 0 <= k < at ==> s[k] <= d) && (forall k :: at <= k < |s| ==> s[k] >= d)
    ensures Ascending(Inserted(s, at, d))
  {
    var r := Inserted(s, at, d);
    assert forall i :: 0 <= i < |r| ==> r[i] == if i < at then s[i] else if i == at then d else s[i - 1];
    AscendingPairs(r);
  }

  lemma RemovedAscends(s: seq<nat>, at: nat)
    requires Ascending(s) && at < |s|
    ensures Ascending(Removed(s, at))
  {
    var r := Removed(s, at);
    assert forall i :: 0 <= i < |r| ==> r[i] == if i < at then s[i] else s[i + 1];
    AscendingPairs(s);
    AscendingPairs(r);
  }
}
