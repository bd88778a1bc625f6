/** A schedule: who is due when, kept as two sequences in the order of the deadlines. */
module Schedules {
  import opened Lists

  /** The schedule as a map. */
  function Deadlines<T(==)>(who: seq<T>, due: seq<nat>): map<T, nat>
    requires |who| == |due|
    decreases who
  {
    if who == [] then map[] else Deadlines(who[1..], due[1..])[who[0] := due[0]]
  }

  lemma {:induction false} DeadlineAt<T>(who: seq<T>, due: seq<nat>)
    requires |who| == |due| && Distinct(who)
    ensures Deadlines(who, due).Keys == set x | x in who
    ensures forall i :: 0 <= i < |who| ==> who[i] in Deadlines(who, due) && Deadlines(who, due)[who[i]] == due[i]
    decreases who
  {
    if who != [] {
      DeadlineAt(who[1..], due[1..]);
      assert who == [who[0]] + who[1..];
      assert forall i :: 1 <= i < |who| ==> who[i] == who[1..][i - 1] && due[i] == due[1..][i - 1];
    }
  }

  /** Inserting a newcomer and removing a member are what they should be on the map. */
  lemma InsertedDeadlines<T>(who: seq<T>, due: seq<nat>, at: nat, x: T, d: nat)
    requires |who| == |due| && Distinct(who) && at <= |who| && x !in who
    ensures Deadlines(Inserted(who, at, x), Inserted(due, at, d)) == Deadlines(who, due)[x := d]
  {
    var who', due' := Inserted(who, at, x), Inserted(due, at, d);
    DistinctInserted(who, at, x);
    DeadlineAt(who, due);
    DeadlineAt(who', due');
    forall y | y in who'
      ensures Deadlines(who', due')[y] == Deadlines(who, due)[x := d][y]
    {
      var i :| 0 <= i < |who'| && who'[i] == y;
      if i < at {
        assert who[i] == y && due'[i] == due[i];
      } else if i > at {
        assert who[i - 1] == y && due'[i] == due[i - 1];
      }
    }
    InsertedMembers(who, at, x);
  }

  lemma {:induction false} DeadlinesAreDue<T>(who: seq<T>, due: seq<nat>, d: nat)
    requires |who| == |due| && forall i :: 0 <= i < |due| ==> due[i] >= d
    ensures forall x :: x in Deadlines(who, due) ==> Deadlines(who, due)[x] >= d
    decreases who
  {
    if who != [] {
      DeadlinesAreDue(who[1..], due[1..], d);
    }
  }

  /** The deadline of x once it has been entered for d, besides the one it may have: the sooner. */
  function Sooner<T>(m: map<T, nat>, x: T, d: nat): map<T, nat> {
    if x in m && m[x] < d then m else m[x := d]
  }

  lemma SoonerThenInserted<T>(m: map<T, nat>, x: T, d: nat, y: T, e: nat)
    requires e < d
    ensures Sooner(m, x, d)[y := e] == Sooner(m[y := e], x, d)
  {
  }

  lemma InsertedFirst<T>(s: seq<T>, x: T)
    ensures var r := Inserted(s, 0, x); r != [] && r[0] == x && r[1..] == s
  {
  }

  lemma InsertedLater<T>(s: seq<T>, at: nat, x: T)
    requires 0 < at <= |s|
    ensures var r := Inserted(s, at, x); r != [] && r[0] == s[0] && r[1..] == Inserted(s[1..], at - 1, x)
  {
  }

  lemma PlacedFirst<T>(who: seq<T>, due: seq<nat>, x: T, d: nat)
    requires |who| == |due| && forall i :: 0 <= i < |due| ==> due[i] >= d
    ensures Deadlines(Inserted(who, 0, x), Inserted(due, 0, d)) == Sooner(Deadlines(who, due), x, d)
  {
    InsertedFirst(who, x);
    InsertedFirst(due, d);
    DeadlinesAreDue(who, due, d);
  }

  lemma PlacedLater<T>(who: seq<T>, due: seq<nat>, at: nat, x: T, d: nat)
    requires 0 < at <= |who| == |due| && due[0] < d
    requires Deadlines(Inserted(who[1..], at - 1, x), Inserted(due[1..], at - 1, d)) ==
               Sooner(Deadlines(who[1..], due[1..]), x, d)
    ensures Deadlines(Inserted(who, at, x), Inserted(due, at, d)) == Sooner(Deadlines(who, due), x, d)
  {
    InsertedLater(who, at, x);
    InsertedLater(due, at, d);
    SoonerThenInserted(Deadlines(who[1..], due[1..]), x, d, who[0], due[0]);
  }

  /** Entering one at its place in time leaves its sooner deadline, whether it is a newcomer or not. */
  lemma {:induction false} PlacedDeadlines<T>(who: seq<T>, due: seq<nat>, x: T, d: nat)
    requires |who| == |due| && Ascending(due)
    ensures Deadlines(Inserted(who, Place(due, d), x), Inserted(due, Place(due, d), d)) ==
              Sooner(Deadlines(who, due), x, d)
    decreases who
  {
    if due == [] || due[0] >= d {
      AscendingPairs(due);
      PlacedFirst(who, due, x, d);
    } else {
      PlacedDeadlines(who[1..], due[1..], x, d);
      PlacedLater(who, due, Place(due, d), x, d);
    }
  }

  lemma RemovedDeadlines<T>(who: seq<T>, due: seq<nat>, at: nat)
    requires |who| == |due| && Distinct(who) && at < |who|
    ensures Deadlines(Removed(who, at), Removed(due, at)) == Deadlines(who, due) - {who[at]}
  {
    var who', due' := Removed(who, at), Removed(due, at);
    DistinctRemoved(who, at);
    DeadlineAt(who, due);
    DeadlineAt(who', due');
    RemovedMembers(who, at);
    forall y | y in who'
      ensures Deadlines(who', due')[y] == Deadlines(who, due)[y]
    {
      var i :| 0 <= i < |who'| && who'[i] == y;
      if i < at {
        assert who[i] == y && due'[i] == due[i];
      } else {
        assert who[i + 1] == y && due'[i] == due[i + 1];
      }
    }
  }

  ghost predicate OnSchedule<T>(now: nat, who: seq<T>, due: seq<nat>) {
    |who| == |due| && Distinct(who) && Ascending(due) && (due != [] ==> now <= due[0])
  }

  lemma InsertedOnSchedule<T>(now: nat, who: seq<T>, due: seq<nat>, x: T, d: nat)
    requires OnSchedule(now, who, due) && x !in who && now <= d
    ensures OnSchedule(now, Inserted(who, Place(due, d), x), Inserted(due, Place(due, d), d))
  {
    DistinctInserted(who, Place(due, d), x);
    PlaceIsFirst(due, d);
    PlacedAscends(due, d);
  }

  lemma RemovedOnSchedule<T>(now: nat, who: seq<T>, due: seq<nat>, at: nat)
    requires OnSchedule(now, who, due) && at < |who|
    ensures OnSchedule(now, Removed(who, at), Removed(due, at))
  {
    DistinctRemoved(who, at);
    AscendingPairs(due);
    RemovedAscends(due, at);
  }
}
