/** The list of registered instances: what its operations mean for the sequence of keys. */
module KeyLists {
  import opened Protocol
  import opened Objects
  import opened Lists

  /** The first position from i on whose key matches, or the length of the list. */
  function MatchFrom(keys: seq<Key>, query: Key, i: nat): (j: nat)
    requires i <= |keys|
    ensures i <= j <= |keys|
    ensures j < |keys| ==> Matches(keys[j], query)
    decreases |keys| - i
  {
    if i == |keys| || Matches(keys[i], query) then i else MatchFrom(keys, query, i + 1)
  }

  lemma {:induction false} MatchFromIsFirst(keys: seq<Key>, query: Key, i: nat)
    requires i <= |keys|
    ensures forall k :: i <= k < MatchFrom(keys, query, i) ==> !Matches(keys[k], query)
    decreases |keys| - i
  {
    if i < |keys| && !Matches(keys[i], query) {
      MatchFromIsFirst(keys, query, i + 1);
    }
  }

  /** A complete query takes the first match, a partial one insists on a single match. */
  function Search(keys: seq<Key>, query: Key): (r: Option<nat>)
    ensures r.Some? ==> r.value < |keys| && Matches(keys[r.value], query)
  {
    var i := MatchFrom(keys, query, 0);
    if i == |keys| then None
    else if !Complete(query) && MatchFrom(keys, query, i + 1) < |keys| then None
    else Some(i)
  }

  predicate AllComplete(keys: seq<Key>) {
    forall k :: k in keys ==> Complete(k)
  }

  function Ids(keys: seq<Key>): (r: seq<nat>)
    ensures |r| == |keys|
  {
    seq(|keys|, i requires 0 <= i < |keys| => keys[i].id)
  }

  predicate SortedById(keys: seq<Key>) {
    Ascending(Ids(keys))
  }

  /** The key with the fields cleared that the query leaves open. */
  function Cleared(k: Key, query: Key): Key {
    Key(if query.id == 0 then 0 else k.id,
        if query.ifname == "" then "" else k.ifname,
        if query.af == AF_UNSPEC then AF_UNSPEC else k.af)
  }

  /** A key matches a query exactly when the two agree in the fields the query does not leave open,
      and a complete query when it is the query. */
  lemma MatchesExactly(k: Key, query: Key)
    ensures Matches(k, query) <==> Cleared(k, query) == query
    ensures query.id != 0 && query.ifname != "" && query.af != AF_UNSPEC ==> (Matches(k, query) <==> k == query)
  {
  }

  /** A query with a VRID, a name and an address family finds the first instance of just this key. Any
      other query finds the one instance whose key agrees with it in all the fields it does not leave
      open, and none if there are two. */
  lemma SearchIsExact(keys: seq<Key>, query: Key, i: nat)
    ensures Search(keys, query) == Some(i) <==>
      if query.id != 0 && query.ifname != "" && query.af != AF_UNSPEC
      then i < |keys| && keys[i] == query && query !in keys[..i]
      else i < |keys| && forall j :: 0 <= j < |keys| ==> (Cleared(keys[j], query) == query <==> j == i)
  {
    SearchMatches(keys, query, i);
    forall j | 0 <= j < |keys|
      ensures Matches(keys[j], query) <==> Cleared(keys[j], query) == query
      ensures Complete(query) ==> (Matches(keys[j], query) <==> keys[j] == query)
    {
      MatchesExactly(keys[j], query);
    }
  }

  /** A search finds i exactly when i matches and, for a complete query, nothing before it does, or
      for a partial one nothing else does. */
  lemma SearchMatches(keys: seq<Key>, query: Key, i: nat)
    ensures Search(keys, query) == Some(i) <==>
      && i < |keys| && Matches(keys[i], query)
      && if Complete(query) then forall j :: 0 <= j < i ==> !Matches(keys[j], query)
         else forall j :: 0 <= j < |keys| && j != i ==> !Matches(keys[j], query)
  {
    var m := MatchFrom(keys, query, 0);
    MatchFromIsFirst(keys, query, 0);
    if m < |keys| {
      MatchFromIsFirst(keys, query, m + 1);
      var n := MatchFrom(keys, query, m + 1);
    }
  }

  ghost predicate OnlyMatch(keys: seq<Key>, query: Key, i: nat) {
    i < |keys| && Matches(keys[i], query) && forall j :: 0 <= j < |keys| && j != i ==> !Matches(keys[j], query)
  }

  /** A partial query finds i exactly when i is the only match. In a list of unique keys the same
      holds of complete queries, which then find exactly the instance of that key. */
  lemma SearchFindsTheOnlyMatch(keys: seq<Key>, query: Key, i: nat)
    requires !Complete(query) || Distinct(keys)
    ensures Search(keys, query) == Some(i) <==> OnlyMatch(keys, query, i)
    ensures Complete(query) ==> (Search(keys, query) == Some(i) <==> i < |keys| && keys[i] == query)
  {
    var m := MatchFrom(keys, query, 0);
    MatchFromIsFirst(keys, query, 0);
    if m < |keys| {
      MatchFromIsFirst(keys, query, m + 1);
      var n := MatchFrom(keys, query, m + 1);
      if Complete(query) {
        assert keys[m] == query;
        DistinctFrom(keys, m);
        assert forall k :: 0 <= k < |keys| && Matches(keys[k], query) ==> keys[k] == query;
      }
    }
  }

  // ----- Sorted insertion and removal -----

  /** Where a new VRID goes: in front of the first one that is not smaller. */
  function Slot(keys: seq<Key>, id: int): (i: nat)
    ensures i <= |keys|
  {
    Place(Ids(keys), id)
  }

  ghost predicate Registered(keys: seq<Key>) {
    Distinct(keys) && SortedById(keys)
  }

  ghost function KeySet(keys: seq<Key>): set<Key> {
    set k | k in keys
  }

  /** Inserting a key keeps the list sorted and free of duplicates exactly if the key is new to it;
      removing one always does. Both act on the set of keys as they should. */
  lemma InsertKeepsRegistered(keys: seq<Key>, k: Key)
    requires Registered(keys)
    ensures var after := Inserted(keys, Slot(keys, k.id), k);
      (Registered(after) <==> k !in keys) && KeySet(after) == KeySet(keys) + {k}
  {
    var at := Slot(keys, k.id);
    InsertedMembers(keys, at, k);
    SlotKeepsSorted(keys, k);
    if k in keys {
      var i :| 0 <= i < |keys| && keys[i] == k;
      KeyInsertedTwice(keys, at, k, i);
    } else {
      DistinctInserted(keys, at, k);
    }
  }

  lemma SlotKeepsSorted(keys: seq<Key>, k: Key)
    requires SortedById(keys)
    ensures SortedById(Inserted(keys, Slot(keys, k.id), k))
  {
    var at := Slot(keys, k.id);
    PlacedAscends(Ids(keys), k.id);
    assert Ids(Inserted(keys, at, k)) == Inserted(Ids(keys), at, k.id);
  }

  lemma RemoveKeepsRegistered(keys: seq<Key>, at: nat)
    requires Registered(keys) && at < |keys|
    ensures Registered(Removed(keys, at)) && KeySet(Removed(keys, at)) == KeySet(keys) - {keys[at]}
  {
    DistinctRemoved(keys, at);
    RemovedMembers(keys, at);
    RemovedKeepsSorted(keys, at);
  }

  lemma RemovedKeepsSorted(keys: seq<Key>, at: nat)
    requires SortedById(keys) && at < |keys|
    ensures SortedById(Removed(keys, at))
  {
    RemovedAscends(Ids(keys), at);
    assert Ids(Removed(keys, at)) == Removed(Ids(keys), at);
  }

  /** A create that finds no conflict registers its key twice exactly when the key is incomplete and
      registered already, and some other registered key matches it too: then the search for a
      conflict is ambiguous and reads as none. */
  lemma CreateDuplicatesExactly(keys: seq<Key>, k: Key)
    requires Distinct(keys) && Search(keys, k) == None
    ensures !Distinct(Inserted(keys, Slot(keys, k.id), k)) <==>
      !Complete(k) && k in keys && exists j :: 0 <= j < |keys| && keys[j] != k && Matches(keys[j], k)
  {
    if k in keys {
      var i :| 0 <= i < |keys| && keys[i] == k;
      DistinctFrom(keys, i);
      SearchFindsNone(keys, k, i);
      KeyInsertedTwice(keys, Slot(keys, k.id), k, i);
    } else {
      DistinctInserted(keys, Slot(keys, k.id), k);
    }
  }

  lemma SearchFindsNone(keys: seq<Key>, query: Key, i: nat)
    requires Search(keys, query) == None && i < |keys| && Matches(keys[i], query)
    ensures !Complete(query) && exists j :: 0 <= j < |keys| && j != i && Matches(keys[j], query)
  {
    var m := MatchFrom(keys, query, 0);
    MatchFromIsFirst(keys, query, 0);
    var n := MatchFrom(keys, query, m + 1);
    assert Matches(keys[m], query) && Matches(keys[n], query);
  }

  lemma AmbiguousIsNotFound(keys: seq<Key>, k: Key, i: nat, j: nat)
    requires !Complete(k) && i < |keys| && j < |keys| && i != j && Matches(keys[i], k) && Matches(keys[j], k)
    ensures Search(keys, k) == None
  {
    if Search(keys, k).Some? {
      SearchFindsTheOnlyMatch(keys, k, Search(keys, k).value);
    }
  }

  lemma KeyInsertedTwice(keys: seq<Key>, at: nat, k: Key, i: nat)
    requires at <= |keys| && i < |keys| && keys[i] == k
    ensures !Distinct(Inserted(keys, at, k))
  {
    var (r, j) := (Inserted(keys, at, k), if i < at then i else i + 1);
    DistinctPairs(r);
    assert r[at] == k && r[j] == k;
    assert if j < at then r[j] == r[at] else at < j && r[at] == r[j];
  }

  /** An incomplete key is only looked for with wildcards, so it can be registered twice: with two
      instances on the interface the query is ambiguous, reads as no conflict, and goes on doing so. */
  lemma IncompleteKeysCanBeDuplicated()
    ensures
      var k := Key(0, "eth0", AF_INET);
      var two := [Key(1, "eth0", AF_INET), Key(2, "eth0", AF_INET)];
      var three := Inserted(two, Slot(two, 0), k);
      && Registered(two)
      && Search(two, k) == None && Search(three, k) == None
      && !Distinct(Inserted(three, Slot(three, 0), k))
  {
    var k := Key(0, "eth0", AF_INET);
    var two := [Key(1, "eth0", AF_INET), Key(2, "eth0", AF_INET)];
    var three := [k] + two;
    assert Inserted(two, Slot(two, 0), k) == three;
    assert MatchFrom(two, k, 0) == 0 && MatchFrom(two, k, 1) == 1;
    assert MatchFrom(three, k, 0) == 0 && MatchFrom(three, k, 1) == 1;
    var four := Inserted(three, Slot(three, 0), k);
    assert four[0] == four[1] == k;
  }

  // ----- The cursor -----

  /** The position a cursor delivers. */
  function Cursor(keys: seq<Key>, query: Key): (r: Option<nat>)
    ensures r.Some? ==> r.value < |keys|
  {
    if query == NULL_KEY then if keys == [] then None else Some(0) else Search(keys, query)
  }

  function NextCursor(keys: seq<Key>, at: nat): Key
    requires at < |keys|
  {
    if at + 1 == |keys| then NULL_KEY else keys[at + 1]
  }

  /** The positions delivered by starting at `query` and feeding back each returned cursor until
      the null key comes back, in at most `calls` calls. */
  function Listing(keys: seq<Key>, query: Key, calls: nat): seq<nat>
    decreases calls
  {
    if calls == 0 || Cursor(keys, query) == None then []
    else
      var at := Cursor(keys, query).value;
      [at] + if NextCursor(keys, at) == NULL_KEY then [] else Listing(keys, NextCursor(keys, at), calls - 1)
  }

  function Positions(from: nat, count: nat): (r: seq<nat>)
    requires from <= count
    ensures |r| == count - from && forall i :: 0 <= i < |r| ==> r[i] == from + i
    decreases count - from
  {
    if from == count then [] else [from] + Positions(from + 1, count)
  }

  /** The key of instance k, given back as a cursor, asks for instance k. */
  predicate Resumes(keys: seq<Key>, k: nat)
    requires k < |keys|
  {
    keys[k] != NULL_KEY && Search(keys, keys[k]) == Some(k)
  }

  /** The first instance from i on that its own key does not find, or the number of instances. */
  function LostFrom(keys: seq<Key>, i: nat): (j: nat)
    requires i <= |keys|
    ensures i <= j <= |keys|
    decreases |keys| - i
  {
    if i == |keys| || !Resumes(keys, i) then i else LostFrom(keys, i + 1)
  }

  lemma {:induction false} LostFromIsFirst(keys: seq<Key>, i: nat)
    requires i <= |keys|
    ensures var j := LostFrom(keys, i);
      (forall k: nat :: i <= k < j ==> Resumes(keys, k)) && (j < |keys| ==> !Resumes(keys, j))
    decreases |keys| - i
  {
    if i < |keys| && Resumes(keys, i) {
      LostFromIsFirst(keys, i + 1);
    }
  }

  /** What the calls after the first one list. */
  function Further(keys: seq<Key>, at: nat, calls: nat): seq<nat>
    requires at < |keys| && calls > 0
  {
    if NextCursor(keys, at) == NULL_KEY then [] else Listing(keys, NextCursor(keys, at), calls - 1)
  }

  lemma FirstCall(keys: seq<Key>, query: Key, at: nat, calls: nat)
    requires at < |keys| && calls > 0 && Cursor(keys, query) == Some(at)
    ensures Listing(keys, query, calls) == [at] + Further(keys, at, calls)
  {
  }

  lemma PositionsAfter(at: nat, count: nat, rest: seq<nat>)
    requires at < count
    ensures [at] + rest == Positions(at, count) <==> rest == Positions(at + 1, count)
  {
    assert ([at] + rest)[1..] == rest;
    assert Positions(at, count) == [at] + Positions(at + 1, count);
    assert Positions(at, count)[1..] == Positions(at + 1, count);
  }

  lemma LostIsSkipped(keys: seq<Key>, at: nat, calls: nat)
    requires at + 1 < |keys| && calls > 1 && !Resumes(keys, at + 1)
    ensures Further(keys, at, calls) != Positions(at + 1, |keys|)
  {
    var (next, rest) := (keys[at + 1], Further(keys, at, calls));
    assert Positions(at + 1, |keys|)[0] == at + 1;
    if next != NULL_KEY && Cursor(keys, next).Some? {
      assert rest[0] == Cursor(keys, next).value;
    }
  }

  /** From an instance on, the cursor visits all that follow, in list order, exactly if none of them
      is lost to its own key. */
  lemma {:induction false} ListingFrom(keys: seq<Key>, query: Key, at: nat, calls: nat)
    requires at < |keys| && calls >= |keys| - at && Cursor(keys, query) == Some(at)
    ensures Listing(keys, query, calls) == Positions(at, |keys|) <==> LostFrom(keys, at + 1) == |keys|
    decreases |keys| - at
  {
    FirstCall(keys, query, at, calls);
    PositionsAfter(at, |keys|, Further(keys, at, calls));
    if at + 1 < |keys| {
      if Resumes(keys, at + 1) {
        ListingFrom(keys, keys[at + 1], at + 1, calls - 1);
      } else {
        LostIsSkipped(keys, at, calls);
      }
    }
  }

  /** From the null key the cursor visits every instance once, in list order, exactly if each but the
      first is found by its own key. */
  lemma ListingExactly(keys: seq<Key>, calls: nat)
    requires calls >= |keys|
    ensures Listing(keys, NULL_KEY, calls) == Positions(0, |keys|) <==>
              forall k: nat :: 1 <= k < |keys| ==> Resumes(keys, k)
  {
    if keys != [] {
      ListingFrom(keys, NULL_KEY, 0, calls);
      LostFromIsFirst(keys, 1);
    }
  }

  /** In a list of unique keys an instance is found by its own key exactly if the key is complete or
      no other key matches it. */
  lemma ResumesExactly(keys: seq<Key>, k: nat)
    requires Distinct(keys) && k < |keys|
    ensures Resumes(keys, k) <==> keys[k] != NULL_KEY && (Complete(keys[k]) || OnlyMatch(keys, keys[k], k))
    ensures Search(keys, keys[k]) in {None, Some(k)}
  {
    SearchFindsTheOnlyMatch(keys, keys[k], k);
    var found := Search(keys, keys[k]);
    if found.Some? {
      SearchFindsTheOnlyMatch(keys, keys[k], found.value);
    }
  }

  /** Of unique keys the cursor never shows one twice, or out of order: it shows all those before the
      first one that its own key does not find. */
  lemma {:induction false} CursorStopsExactly(keys: seq<Key>, query: Key, at: nat, calls: nat)
    requires Distinct(keys) && at < |keys| && calls >= |keys| - at && Cursor(keys, query) == Some(at)
    ensures Listing(keys, query, calls) == Positions(at, LostFrom(keys, at + 1))
    decreases |keys| - at
  {
    FirstCall(keys, query, at, calls);
    if at + 1 < |keys| {
      ResumesExactly(keys, at + 1);
      if Resumes(keys, at + 1) {
        CursorStopsExactly(keys, keys[at + 1], at + 1, calls - 1);
        PositionsAfter(at, LostFrom(keys, at + 2), Further(keys, at, calls));
      } else {
        assert Further(keys, at, calls) == [];
      }
    }
  }

  /** A registry of unique keys is listed in full exactly if every key behind the first is complete or
      matched by no other key. */
  lemma CursorVisitsAllExactly(keys: seq<Key>, calls: nat)
    requires Distinct(keys) && calls >= |keys|
    ensures Listing(keys, NULL_KEY, calls) == Positions(0, |keys|) <==>
              forall k: nat :: 1 <= k < |keys| ==> Complete(keys[k]) || OnlyMatch(keys, keys[k], k)
  {
    ListingExactly(keys, calls);
    forall k: nat | 1 <= k < |keys|
      ensures Resumes(keys, k) <==> Complete(keys[k]) || OnlyMatch(keys, keys[k], k)
    {
      ResumesExactly(keys, k);
      assert Matches(keys[0], NULL_KEY);
    }
  }

  /** So the cursor visits every instance of a registry of complete keys once, in list order, and comes
      back as the null key with the last of them and not before. */
  lemma CursorVisitsEveryInstanceOnce(keys: seq<Key>, calls: nat)
    requires Distinct(keys) && AllComplete(keys) && calls >= |keys|
    ensures Listing(keys, NULL_KEY, calls) == Positions(0, |keys|)
    ensures forall at :: 0 <= at < |keys| ==> (NextCursor(keys, at) == NULL_KEY <==> at == |keys| - 1)
  {
    assert forall i :: 0 <= i < |keys| ==> keys[i] in keys;
    CursorVisitsAllExactly(keys, calls);
  }
}

module InstanceRegistry {
  import opened Protocol
  import opened Objects
  import opened Lists
  import opened KeyLists

  ghost predicate HaveVrs(list: seq<Instance>) {
    forall i :: 0 <= i < |list| ==> list[i].vr != null
  }

  ghost function KeysOf(list: seq<Instance>): (k: seq<Key>)
    requires HaveVrs(list)
    ensures |k| == |list|
  {
    seq(|list|, i requires 0 <= i < |list| && list[i].vr != null => list[i].vr.key)
  }

  lemma KeysOfInserted(list: seq<Instance>, at: nat, inst: Instance)
    requires HaveVrs(list) && at <= |list| && inst.vr != null
    ensures HaveVrs(Inserted(list, at, inst))
    ensures KeysOf(Inserted(list, at, inst)) == Inserted(KeysOf(list), at, inst.vr.key)
  {
  }

  lemma KeysOfRemoved(list: seq<Instance>, at: nat)
    requires HaveVrs(list) && at < |list|
    ensures HaveVrs(Removed(list, at)) && KeysOf(Removed(list, at)) == Removed(KeysOf(list), at)
  {
  }

  ghost function At(list: seq<Instance>, i: int): Instance? {
    if 0 <= i < |list| then list[i] else null
  }

  /** Instance i is linked to its neighbours, the first one back to the list head. */
  ghost predicate Linked(list: seq<Instance>, head: Instance, i: nat)
    requires i < |list|
    reads list`next, list`prev
  {
    list[i].next == At(list, i + 1) && list[i].prev == if i == 0 then head else list[i - 1]
  }

  class Registry {
    /** The list head: its `next` is the first instance. */
    const head: Instance
    ghost var insts: seq<Instance>

    /** The links are those of a doubly linked list through the head and `insts`. */
    ghost predicate Valid()
      reads this, head`next, insts`next, insts`prev
    {
      && HaveVrs(insts) && head !in insts
      && Distinct(insts)
      && head.next == At(insts, 0)
      && forall i: nat :: i < |insts| ==> Linked(insts, head, i)
    }

    ghost function Keys(): (k: seq<Key>)
      requires Valid()
      reads this, head, insts
    {
      KeysOf(insts)
    }

    /** The instance a search of the key list stands for. */
    ghost function Found(at: Option<nat>): Instance?
      requires at.Some? ==> at.value < |insts|
      reads this
    {
      if at.None? then null else insts[at.value]
    }

    constructor ()
      ensures Valid() && fresh(this) && fresh(head) && insts == []
    {
      head := new Instance(null);
      insts := [];
    }

    /** The first instance whose VRID is not smaller, or else the last one. */
    method WalkTo(id: int) returns (curr: Instance, ghost at: nat)
      requires Valid() && head.next != null
      ensures at < |insts| && curr == insts[at]
      ensures curr.vr.key.id < id ==> at == |insts| - 1
      ensures Slot(Keys(), id) == if curr.vr.key.id < id then at + 1 else at
    {
      ghost var keys := Keys();
      curr := head.next;
      at := 0;
      while curr.vr.key.id < id && curr.next != null
        invariant at < |insts| && curr == insts[at]
        invariant forall k :: 0 <= k < at ==> keys[k].id < id
        decreases |insts| - at
      {
        assert keys[at] == curr.vr.key && Linked(insts, head, at);
        curr := curr.next;
        at := at + 1;
      }
      assert keys[at] == curr.vr.key && Linked(insts, head, at);
      PlaceIsFirst(Ids(keys), id);
      assert forall k :: 0 <= k < |keys| ==> Ids(keys)[k] == keys[k].id;
    }

    method Append(curr: Instance, inst: Instance)
      requires Valid() && inst != head && inst !in insts && inst.vr != null
      requires curr == if insts == [] then head else insts[|insts| - 1]
      modifies `insts, curr`next, inst`next, inst`prev
      ensures Valid() && insts == old(insts) + [inst]
    {
      ghost var was := insts;
      DistinctPairs(was);
      DistinctInserted(was, |was|, inst);
      assert Inserted(was, |was|, inst) == was + [inst];
      curr.next := inst;
      inst.prev := curr;
      inst.next := null;
      insts := was + [inst];
      forall i: nat | i < |insts|
        ensures Linked(insts, head, i)
      {
        assert i < |was| ==> old(Linked(was, head, i));
      }
    }

    /** The links around a new instance in front of curr. */
    method LinkBefore(curr: Instance, inst: Instance, ghost at: nat)
      requires Valid() && inst != head && inst !in insts && at < |insts| && curr == insts[at]
      modifies head`next, insts`next, curr`prev, inst`next, inst`prev
      ensures inst.next == curr && curr.prev == inst && inst.prev == if at == 0 then head else insts[at - 1]
      ensures (if at == 0 then head else insts[at - 1]).next == inst && (at > 0 ==> head.next == old(head.next))
      ensures forall i: nat :: i < |insts| && i + 1 != at ==> insts[i].next == old(insts[i].next)
      ensures forall i: nat :: i < |insts| && i != at ==> insts[i].prev == old(insts[i].prev)
    {
      assert Linked(insts, head, at);
      DistinctPairs(insts);
      inst.prev := curr.prev;
      inst.next := curr;
      curr.prev.next := inst;
      curr.prev := inst;
    }

    method InsertBefore(curr: Instance, inst: Instance, ghost at: nat)
      requires Valid() && inst != head && inst !in insts && inst.vr != null && at < |insts| && curr == insts[at]
      modifies `insts, head`next, insts`next, curr`prev, inst`next, inst`prev
      ensures Valid() && insts == Inserted(old(insts), at, inst)
    {
      ghost var was := insts;
      DistinctInserted(was, at, inst);
      LinkBefore(curr, inst, at);
      insts := Inserted(was, at, inst);
      forall i: nat | i < |insts|
        ensures Linked(insts, head, i)
      {
        InsertedNeighbours(was, at, inst, i);
        if i < at {
          assert old(Linked(was, head, i));
        } else if i > at {
          assert old(Linked(was, head, i - 1));
        }
      }
    }

    /** Links a new instance in, before the first one whose VRID is not smaller. */
    method Link(inst: Instance)
      requires Valid() && inst != head && inst !in insts && inst.vr != null
      modifies `insts, head`next, insts`next, insts`prev, inst`next, inst`prev
      ensures Valid()
      ensures insts == Inserted(old(insts), Slot(old(Keys()), inst.vr.key.id), inst)
      ensures Keys() == Inserted(old(Keys()), Slot(old(Keys()), inst.vr.key.id), inst.vr.key)
    {
      ghost var was, at := insts, Slot(Keys(), inst.vr.key.id);
      if head.next == null {
        Append(head, inst);
      } else {
        var curr;
        ghost var place;
        curr, place := WalkTo(inst.vr.key.id);
        if curr.vr.key.id < inst.vr.key.id {
          Append(curr, inst);
        } else {
          InsertBefore(curr, inst, place);
        }
      }
      assert insts == Inserted(was, at, inst);
      KeysOfInserted(was, at, inst);
    }

    /** Leads the links around an instance past it. */
    method Bypass(inst: Instance, ghost at: nat)
      requires Valid() && at < |insts| && insts[at] == inst
      modifies head`next, insts`next, insts`prev
      ensures (if at == 0 then head else insts[at - 1]).next == At(insts, at + 1)
      ensures at > 0 ==> head.next == old(head.next)
      ensures at + 1 < |insts| ==> insts[at + 1].prev == if at == 0 then head else insts[at - 1]
      ensures forall i: nat :: i < |insts| && i != at && i + 1 != at ==> insts[i].next == old(insts[i].next)
      ensures forall i: nat :: i < |insts| && i != at && i != at + 1 ==> insts[i].prev == old(insts[i].prev)
    {
      assert Linked(insts, head, at);
      DistinctPairs(insts);
      inst.prev.next := inst.next;
      if inst.next != null {
        inst.next.prev := inst.prev;
      }
    }

    /** Takes an instance out of the list. */
    method Unlink(inst: Instance, ghost at: nat)
      requires Valid() && at < |insts| && insts[at] == inst
      modifies `insts, head`next, insts`next, insts`prev
      ensures Valid() && insts == Removed(old(insts), at)
      ensures Keys() == Removed(old(Keys()), at)
    {
      ghost var was := insts;
      DistinctRemoved(was, at);
      Bypass(inst, at);
      insts := Removed(was, at);
      forall i: nat | i < |insts|
        ensures Linked(insts, head, i)
      {
        RemovedNeighbours(was, at, i);
        if i < at {
          assert old(Linked(was, head, i));
        } else {
          assert old(Linked(was, head, i + 1));
        }
      }
      KeysOfRemoved(was, at);
    }

    method SearchFull(query: Key) returns (r: Instance?)
      requires Valid() && Complete(query)
      ensures r == Found(Search(Keys(), query))
    {
      var curr := head.next;
      ghost var at := 0;
      while curr != null
        invariant at <= |insts| && curr == if at < |insts| then insts[at] else null
        invariant MatchFrom(Keys(), query, 0) == MatchFrom(Keys(), query, at)
        decreases |insts| - at
      {
        if curr.vr.key.id == query.id && curr.vr.key.af == query.af && query.ifname == curr.vr.key.ifname {
          return curr;
        }
        assert Linked(insts, head, at);
        curr := curr.next;
        at := at + 1;
      }
      r := null;
    }

    method SearchPart(query: Key) returns (r: Instance?)
      requires Valid() && !Complete(query)
      ensures r == Found(Search(Keys(), query))
    {
      var num := 0;
      var curr := head.next;
      r := null;
      ghost var at, hit := 0, 0;
      while curr != null
        invariant at <= |insts| && curr == if at < |insts| then insts[at] else null
        invariant 0 <= num <= 1
        invariant num == 0 ==> r == null && MatchFrom(Keys(), query, 0) == MatchFrom(Keys(), query, at)
        invariant num == 1 ==> hit < at && r == insts[hit] && MatchFrom(Keys(), query, 0) == hit
        invariant num == 1 ==> MatchFrom(Keys(), query, hit + 1) == MatchFrom(Keys(), query, at)
        decreases |insts| - at
      {
        if query.id == 0 || curr.vr.key.id == query.id {
          if query.af == AF_UNSPEC || curr.vr.key.af == query.af {
            if query.ifname == "" || query.ifname == curr.vr.key.ifname {
              num := num + 1;
              if num > 1 {
                return null;
              }
              r := curr;
              hit := at;
            }
          }
        }
        assert Linked(insts, head, at);
        curr := curr.next;
        at := at + 1;
      }
    }

    method Find(query: Key) returns (r: Instance?)
      requires Valid()
      ensures r == Found(Search(Keys(), query))
    {
      if query.id != 0 && query.ifname != "" && query.af != AF_UNSPEC {
        r := SearchFull(query);
      } else {
        r := SearchPart(query);
      }
    }

    /** The cursor of the show command: an instance, and the key that asks for the next one. */
    method GetInstx(query: Key) returns (inst: Instance?, next: Key)
      requires Valid()
      ensures inst == Found(Cursor(Keys(), query))
      ensures next == if inst == null then query else NextCursor(Keys(), Cursor(Keys(), query).value)
    {
      if query.id == 0 && query.af == AF_UNSPEC && query.ifname == "" {
        inst := head.next;
      } else {
        inst := Find(query);
      }
      if inst == null {
        return inst, query;
      }
      ghost var at := Cursor(Keys(), query).value;
      assert Linked(insts, head, at);
      if inst.next == null {
        next := NULL_KEY;
      } else {
        next := inst.next.vr.key;
      }
    }
  }
}
