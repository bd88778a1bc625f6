/** The advertisement queue: a doubly linked list of virtual routers ordered by deadline, driven by
    one alarm. Each entry's `timeout` holds the gap to the entry behind it. */
module AdvertisementQueue {
  import opened Protocol
  import opened Objects
  import opened Lists
  import opened Schedules

  /** How a queue operation written in C ends. */
  datatype Outcome = Returned | NullDereference

  ghost predicate Isolated(entry: Vr)
    reads entry
  {
    entry.qnext == null && entry.qprev == null
  }

  ghost function At(ns: seq<Vr>, i: int): Vr? {
    if 0 <= i < |ns| then ns[i] else null
  }

  function Minus(a: int, b: int): int {
    a - b
  }

  ghost function Gap(ds: seq<nat>, i: nat): int
    requires i < |ds|
  {
    if i + 1 < |ds| then Minus(ds[i + 1], ds[i]) else 0
  }

  lemma NeighboursInserted(ns: seq<Vr>, ds: seq<nat>, at: nat, x: Vr, d: nat, i: nat)
    requires at <= |ns| == |ds| && i <= |ns|
    ensures var ns', ds' := Inserted(ns, at, x), Inserted(ds, at, d);
      && ns'[i] == (if i < at then ns[i] else if i == at then x else ns[i - 1])
      && At(ns', i + 1) == (if i + 1 < at then At(ns, i + 1) else if i + 1 == at then x else At(ns, i))
      && At(ns', i - 1) == (if i - 1 < at then At(ns, i - 1) else if i - 1 == at then x else At(ns, i - 2))
      && Gap(ds', i) == if i + 1 < at then Gap(ds, i) else if i + 1 == at then Minus(d, ds[i])
                        else if i == at then (if at < |ds| then Minus(ds[at], d) else 0) else Gap(ds, i - 1)
  {
  }

  lemma NeighboursRemoved(ns: seq<Vr>, ds: seq<nat>, at: nat, i: nat)
    requires at < |ns| == |ds| && i < |ns| - 1
    ensures var ns', ds' := Removed(ns, at), Removed(ds, at);
      && ns'[i] == (if i < at then ns[i] else ns[i + 1])
      && At(ns', i + 1) == (if i + 1 < at then At(ns, i + 1) else At(ns, i + 2))
      && At(ns', i - 1) == (if i - 1 < at then At(ns, i - 1) else At(ns, i))
      && Gap(ds', i) == if i + 1 < at then Gap(ds, i)
                        else if i + 1 == at then (if at + 1 < |ds| then Minus(ds[at + 1], ds[i]) else 0)
                        else Gap(ds, i + 1)
  {
  }

  lemma Surroundings(ns: seq<Vr>, at: nat)
    requires Distinct(ns) && at < |ns|
    ensures forall i :: 0 <= i < |ns| && i != at ==> ns[i] != ns[at]
    ensures at > 0 ==> forall i :: 0 <= i < |ns| && i != at - 1 ==> ns[i] != ns[at - 1]
    ensures at + 1 < |ns| ==> forall i :: 0 <= i < |ns| && i != at + 1 ==> ns[i] != ns[at + 1]
  {
    DistinctPairs(ns);
  }

  ghost predicate Linked(ns: seq<Vr>, i: nat)
    requires i < |ns|
    reads ns
  {
    ns[i].qnext == At(ns, i + 1) && ns[i].qprev == At(ns, i - 1)
  }

  /** Node i is linked to its neighbours and holds the gap to the next deadline. */
  ghost predicate Placed(ns: seq<Vr>, ds: seq<nat>, i: nat)
    requires i < |ns| == |ds|
    reads ns
  {
    Linked(ns, i) && ns[i].timeout as int == Gap(ds, i)
  }

  ghost function GapsBefore(ns: seq<Vr>, k: nat): int
    requires k <= |ns|
    reads ns
  {
    if k == 0 then 0 else GapsBefore(ns, k - 1) + ns[k - 1].timeout as int
  }

  class AdvQueue {
    var advQ: Vr?
    /** What is left of the one-shot alarm, in microseconds; 0 when it has expired or was never set. */
    var alarm: nat
    ghost var now: nat
    ghost var nodes: seq<Vr>
    /** The absolute deadline of each node. */
    ghost var due: seq<nat>

    /** The links and the gaps stand for the schedule `ds` of the nodes `ns`, the first of which is
        due in `remain`. */
    ghost predicate Scheduled(remain: nat, ns: seq<Vr>, ds: seq<nat>)
      reads this, ns
    {
      && advQ == At(ns, 0) && Distinct(ns)
      && |ds| == |ns|
      && (ns != [] ==> ds[0] == now + remain)
      && (forall i :: 0 <= i < |ds| ==> now <= ds[i] < now + 0x1_0000_0000)
      && forall i: nat :: i < |ns| ==> Placed(ns, ds, i)
    }

    /** ... and the alarm is armed for the first of them. */
    ghost predicate Holds(ns: seq<Vr>, ds: seq<nat>)
      reads this, ns
    {
      Scheduled(alarm, ns, ds)
    }

    ghost predicate Valid()
      reads this, nodes
    {
      Holds(nodes, due)
    }

    constructor ()
      ensures Valid() && nodes == [] && now == 0
    {
      advQ, alarm := null, 0;
      now, nodes, due := 0, [], [];
    }

    /** The gaps are never negative, so the list is in the order of its deadlines. */
    lemma InOrder(remain: nat, ns: seq<Vr>, ds: seq<nat>)
      requires Scheduled(remain, ns, ds)
      ensures forall i, j :: 0 <= i < j < |ds| ==> ds[i] <= ds[j]
    {
      var j := 0;
      while j < |ds|
        invariant 0 <= j <= |ds|
        invariant forall i, k :: 0 <= i < k < j ==> ds[i] <= ds[k]
      {
        assert j > 0 ==> Placed(ns, ds, j - 1);
        j := j + 1;
      }
    }

    /** A node is due when the alarm and then the gaps of the nodes in front of it have run off. */
    lemma {:induction false} DueAfterTheGaps(k: nat)
      requires Valid() && k < |nodes|
      ensures due[k] == now + alarm + GapsBefore(nodes, k)
    {
      if k > 0 {
        DueAfterTheGaps(k - 1);
        assert Placed(nodes, due, k - 1);
      }
    }

    /** `ualarm`: sets the alarm and returns what was left of the previous one, as 32 bits. */
    method Ualarm(usecs: Useconds) returns (remain: Useconds)
      modifies `alarm
      ensures remain as int == Usecs(old(alarm)) && alarm == usecs as int
    {
      remain := Usecs(alarm) as Useconds;
      alarm := usecs as int;
    }

    /** `alarm`, which takes an unsigned number of seconds and sets the same timer. A queue it is called
        on keeps its alarm right exactly when it is empty or its head is due just then. */
    method Alarm(seconds: int)
      modifies `alarm
      ensures alarm == Micros(Usecs(seconds))
      ensures old(Valid()) ==> (Valid() <==> nodes == [] || due[0] == now + Micros(Usecs(seconds)))
    {
      ghost var was := Valid();
      alarm := Micros(Usecs(seconds));
      if was {
        assert forall i: nat :: i < |nodes| ==> old(Placed(nodes, due, i)) == Placed(nodes, due, i);
      }
    }

    /** Time passes, at most until the alarm goes off for the head of the queue. */
    method Elapse(usecs: Useconds)
      requires Valid() && (nodes != [] ==> usecs as int <= alarm)
      modifies `alarm, `now
      ensures Valid() && now == old(now) + usecs as int
    {
      InOrder(alarm, nodes, due);
      alarm := if usecs as int <= alarm then alarm - usecs as int else 0;
      now := now + usecs as int;
    }

    // ----- The operations as intended -----

    /** ns is what a walk along the links finds, in both directions. */
    ghost predicate IsList(ns: seq<Vr>)
      reads `advQ, ns
    {
      advQ == At(ns, 0) && forall i: nat :: i < |ns| ==> Linked(ns, i)
    }

    /** Walks to the first entry that is due no earlier than `delay` from now, adding up gaps as 32-bit
        numbers. In a queue as it should be the sum is always some entry's remaining time. */
    method Walk(remain: Useconds, delay: Useconds)
      returns (curr: Vr?, prev: Vr?, sum: Useconds, ghost at: nat)
      requires advQ != null && IsList(nodes)
      ensures at <= |nodes| && curr == At(nodes, at) && prev == At(nodes, at - 1) && (curr != null ==> sum >= delay)
      ensures remain >= delay ==> at == 0
      ensures Scheduled(remain as int, nodes, due) ==>
        && at == Place(due, now + delay as int)
        && now + sum as int == if at < |nodes| then due[at] else due[|due| - 1]
    {
      curr, prev, sum, at := advQ, null, remain, 0;
      PlaceIsFirst(due, now + delay as int);
      while curr != null && sum < delay
        invariant at <= |nodes| && curr == At(nodes, at) && prev == At(nodes, at - 1)
        invariant remain >= delay ==> at == 0 && sum == remain
        invariant Scheduled(remain as int, nodes, due) ==>
          && (forall k :: 0 <= k < at ==> due[k] < now + delay as int)
          && now + sum as int == if at < |nodes| then due[at] else due[|due| - 1]
        decreases |nodes| - at
      {
        assert Linked(nodes, at);
        assert Scheduled(remain as int, nodes, due) ==> Placed(nodes, due, at);
        sum := Usecs(sum as int + curr.timeout as int) as Useconds;
        prev, curr := curr, curr.qnext;
        at := at + 1;
      }
    }

    method Start(entry: Vr, ghost deadline: nat)
      requires nodes == [] && Isolated(entry) && deadline == now + alarm < now + 0x1_0000_0000
      modifies `advQ, `nodes, `due, entry`qprev, entry`timeout
      ensures Valid() && nodes == [entry] && due == [deadline]
    {
      advQ := entry;
      entry.qprev := null;
      entry.timeout := 0;
      nodes, due := [entry], [deadline];
    }

    method AppendAfter(prev: Vr, entry: Vr, gap: Useconds, ghost deadline: nat)
      requires Valid() && nodes != [] && prev == nodes[|nodes| - 1]
      requires entry !in nodes && Isolated(entry) && due[|due| - 1] + gap as int == deadline < now + 0x1_0000_0000
      modifies `nodes, `due, prev`qnext, prev`timeout, entry`qprev, entry`qnext, entry`timeout
      ensures Valid()
      ensures nodes == Inserted(old(nodes), |old(nodes)|, entry)
      ensures due == Inserted(old(due), |old(due)|, deadline)
    {
      prev.qnext := entry;
      entry.qprev := prev;
      entry.qnext := null;
      prev.timeout := gap;
      entry.timeout := 0;
      ghost var was, wasDue := nodes, due;
      DistinctFrom(was, |was| - 1);
      DistinctInserted(was, |was|, entry);
      nodes, due := Inserted(was, |was|, entry), Inserted(due, |due|, deadline);
      forall i: nat | i < |nodes|
        ensures Placed(nodes, due, i)
      {
        if i < |was| {
          assert old(Placed(nodes, due, i));
        }
      }
    }

    /** The links and gaps around a new entry in front of curr. */
    method LinkBefore(curr: Vr, entry: Vr, gap: Useconds, ghost at: nat)
      requires Distinct(nodes) && at < |nodes| && curr == nodes[at] && advQ == nodes[0] && entry !in nodes
      requires Linked(nodes, at) && (at > 0 ==> nodes[at - 1].timeout >= gap)
      modifies `advQ, nodes`qnext, nodes`timeout, curr`qprev, entry`qprev, entry`qnext, entry`timeout
      ensures advQ == if at == 0 then entry else nodes[0]
      ensures entry.timeout == gap && entry.qnext == curr && entry.qprev == At(nodes, at - 1) && curr.qprev == entry
      ensures at > 0 ==> nodes[at - 1].qnext == entry && nodes[at - 1].timeout == old(nodes[at - 1].timeout) - gap
      ensures forall i: nat :: i < |nodes| && i + 1 != at ==>
        nodes[i].qnext == old(nodes[i].qnext) && nodes[i].timeout == old(nodes[i].timeout)
      ensures forall i: nat :: i < |nodes| && i != at ==> nodes[i].qprev == old(nodes[i].qprev)
    {
      Surroundings(nodes, at);
      entry.timeout := gap;
      entry.qnext := curr;
      entry.qprev := curr.qprev;
      curr.qprev := entry;
      if curr == advQ {
        advQ := entry;
      } else {
        entry.qprev.qnext := entry;
        entry.qprev.timeout := entry.qprev.timeout - entry.timeout;
      }
    }

    /** Puts an entry that is due `gap` earlier in front of curr, for whose queue the alarm was
        `remain` and is now set for the new head. */
    method InsertBefore(curr: Vr, entry: Vr, gap: Useconds, remain: Useconds, ghost at: nat, ghost deadline: nat)
      requires Scheduled(remain as int, nodes, due) && at < |nodes| && curr == nodes[at]
      requires remain >= gap || at > 0
      requires alarm == if at == 0 then (remain - gap) as int else remain as int
      requires entry !in nodes && Isolated(entry)
      requires now <= deadline == due[at] - gap as int && (at > 0 ==> due[at - 1] <= deadline)
      modifies `advQ, `nodes, `due, nodes`qnext, nodes`timeout, curr`qprev, entry`qprev, entry`qnext, entry`timeout
      ensures nodes == Inserted(old(nodes), at, entry) && due == Inserted(old(due), at, deadline)
      ensures Valid()
    {
      ghost var was, wasDue := nodes, due;
      assert Placed(was, wasDue, at) && (at > 0 ==> Placed(was, wasDue, at - 1));
      DistinctInserted(was, at, entry);
      LinkBefore(curr, entry, gap, at);
      nodes, due := Inserted(was, at, entry), Inserted(wasDue, at, deadline);
      forall i: nat | i < |nodes|
        ensures Placed(nodes, due, i)
      {
        NeighboursInserted(was, wasDue, at, entry, deadline, i);
        if i < at {
          assert old(Placed(was, wasDue, i));
        } else if i > at {
          assert old(Placed(was, wasDue, i - 1));
        }
      }
    }

    /** The walk and the linking of an entry into a queue whose head is due in `remain`. */
    method Splice(entry: Vr, delay: Useconds, remain: Useconds, ghost deadline: nat)
      requires nodes != [] && Scheduled(remain as int, nodes, due) && deadline == now + delay as int
      requires entry !in nodes && Isolated(entry)
      modifies `advQ, `alarm, `nodes, `due, nodes`qnext, nodes`qprev, nodes`timeout
      modifies entry`qprev, entry`qnext, entry`timeout
      ensures Valid()
      ensures nodes == Inserted(old(nodes), Place(old(due), deadline), entry)
      ensures due == Inserted(old(due), Place(old(due), deadline), deadline)
    {
      PlaceIsFirst(due, deadline);
      LinksOf(remain as int, nodes, due);
      var curr, prev, sum;
      ghost var at;
      curr, prev, sum, at := Walk(remain, delay);
      var rearm := Ualarm(if curr == advQ then delay else remain);
      if sum < delay {
        assert at == |nodes|;
        AppendAfter(prev, entry, delay - sum, deadline);
      } else {
        assert at < |nodes| && (curr == advQ <==> at == 0) by {
          DistinctFrom(nodes, 0);
        }
        InsertBefore(curr, entry, sum - delay, remain, at, deadline);
      }
    }

    lemma LinksOf(remain: nat, ns: seq<Vr>, ds: seq<nat>)
      requires Scheduled(remain, ns, ds)
      ensures IsList(ns)
    {
      forall i: nat | i < |ns|
        ensures Linked(ns, i)
      {
        assert Placed(ns, ds, i);
      }
    }

    /** Enters an entry to expire `entry.timeout` from now. Repairs of vrrp_enqueue_impl: the
        predecessor of the append position is remembered, the new last gap is zeroed, the old
        back-link is read before it is overwritten, and the alarm is set to the head's remaining
        time instead of its gap. */
    method Enqueue(entry: Vr)
      requires Valid() && entry !in nodes && Isolated(entry)
      modifies this, nodes`qnext, nodes`qprev, nodes`timeout, entry`qprev, entry`qnext, entry`timeout
      ensures Valid() && now == old(now)
      ensures var deadline: nat := now + old(entry.timeout) as int;
        && nodes == Inserted(old(nodes), Place(old(due), deadline), entry)
        && due == Inserted(old(due), Place(old(due), deadline), deadline)
    {
      var delay := entry.timeout;
      ghost var deadline: nat := now + delay as int;
      var remain := Ualarm(delay);
      if advQ == null {
        Start(entry, deadline);
      } else {
        Splice(entry, delay, remain, deadline);
      }
    }

    /** The links and gaps around an entry that is taken out. */
    method Detach(entry: Vr, ghost at: nat)
      requires Distinct(nodes) && at < |nodes| && entry == nodes[at] && advQ == nodes[0]
      requires Linked(nodes, at)
      requires at + 1 < |nodes| ==>
        (if at == 0 then alarm else nodes[at - 1].timeout as int) + entry.timeout as int < 0x1_0000_0000
      modifies `advQ, `alarm, nodes`qnext, nodes`qprev, nodes`timeout
      ensures advQ == (if at == 0 then At(nodes, 1) else nodes[0]) && Isolated(entry)
      ensures alarm == if at == 0 && |nodes| > 1 then old(alarm) + old(entry.timeout) as int else old(alarm)
      ensures at > 0 ==> nodes[at - 1].qnext == At(nodes, at + 1)
      ensures at > 0 && at + 1 == |nodes| ==> nodes[at - 1].timeout == 0
      ensures 0 < at < |nodes| - 1 ==> nodes[at - 1].timeout == old(nodes[at - 1].timeout) + old(entry.timeout)
      ensures at + 1 < |nodes| ==> nodes[at + 1].qprev == At(nodes, at - 1)
      ensures forall i: nat :: i < |nodes| && i != at && i + 1 != at ==>
        nodes[i].qnext == old(nodes[i].qnext) && nodes[i].timeout == old(nodes[i].timeout)
      ensures forall i: nat :: i < |nodes| && i != at && i != at + 1 ==> nodes[i].qprev == old(nodes[i].qprev)
    {
      Surroundings(nodes, at);
      if entry.qprev == null {
        advQ := entry.qnext;
      } else {
        entry.qprev.qnext := entry.qnext;
      }
      if entry.qnext != null {
        entry.qnext.qprev := entry.qprev;
        if entry.qprev == null {
          alarm := alarm + entry.timeout as int;
        } else {
          entry.qprev.timeout := entry.qprev.timeout + entry.timeout;
        }
      } else if entry.qprev != null {
        entry.qprev.timeout := 0;
      }
      entry.qnext := null;
      entry.qprev := null;
    }

    /** Takes an entry out. Repairs of vrrp_rmqueue_impl: when the head goes the alarm takes its gap
        over, and when the last entry goes its predecessor's gap becomes zero. */
    method Remove(entry: Vr, ghost at: nat)
      requires Valid() && at < |nodes| && entry == nodes[at]
      modifies this, nodes`qnext, nodes`qprev, nodes`timeout
      ensures Valid() && now == old(now)
      ensures nodes == Removed(old(nodes), at) && due == Removed(old(due), at)
      ensures Isolated(entry)
    {
      ghost var was, wasDue := nodes, due;
      assert Placed(was, wasDue, at) && (at > 0 ==> Placed(was, wasDue, at - 1));
      DistinctRemoved(was, at);
      Detach(entry, at);
      nodes, due := Removed(was, at), Removed(wasDue, at);
      forall i: nat | i < |nodes|
        ensures Placed(nodes, due, i)
      {
        NeighboursRemoved(was, wasDue, at, i);
        if i < at {
          assert old(Placed(was, wasDue, i));
        } else {
          assert old(Placed(was, wasDue, i + 1));
        }
      }
    }

    /** The membership test, repaired: the only entry of a queue has no links but is the head. */
    predicate IsQueued(entry: Vr)
      reads `advQ, entry`qnext, entry`qprev
    {
      entry.qnext != null || entry.qprev != null || advQ == entry
    }

    lemma IsQueuedExactly(entry: Vr)
      requires Valid() && (entry in nodes || Isolated(entry))
      ensures IsQueued(entry) <==> entry in nodes
    {
      if entry in nodes {
        var at: nat :| at < |nodes| && nodes[at] == entry;
        assert Placed(nodes, due, at);
      }
    }

    /** Takes the earliest entry out. */
    method Dequeue() returns (entry: Vr?)
      requires Valid()
      modifies this, nodes`qnext, nodes`qprev, nodes`timeout
      ensures Valid() && now == old(now)
      ensures entry == if old(nodes) == [] then null else old(nodes)[0]
      ensures old(nodes) == [] ==> nodes == [] && due == []
      ensures old(nodes) != [] ==>
        nodes == old(nodes)[1..] && due == old(due)[1..] && Isolated(entry) && entry !in nodes
    {
      entry := advQ;
      if entry != null {
        Remove(entry, 0);
      }
    }

    // ----- The operations as written -----

    lemma {:induction false} PrefixFollows(was: seq<Vr>, s: seq<Vr>, k: nat)
      requires IsList(s) && k < |was| && advQ == was[0]
      requires forall i: nat :: i < k ==> was[i].qnext == was[i + 1]
      ensures k < |s| && s[k] == was[k]
    {
      if k > 0 {
        PrefixFollows(was, s, k - 1);
        assert Linked(s, k - 1);
        assert At(s, k) == was[k - 1].qnext == was[k];
      } else {
        assert At(s, 0) == was[0];
      }
    }

    /** Nothing is a list here: the forward links lead to was[at], whose back link leads elsewhere. */
    lemma BackLinkBreaksList(was: seq<Vr>, at: nat)
      requires at < |was| && advQ == was[0]
      requires forall i: nat :: i < at ==> was[i].qnext == was[i + 1]
      requires was[at].qprev != At(was, at - 1)
      ensures forall s: seq<Vr> :: !IsList(s)
    {
      forall s: seq<Vr> | IsList(s)
        ensures false
      {
        PrefixFollows(was, s, at);
        assert Linked(s, at);
        if at > 0 {
          PrefixFollows(was, s, at - 1);
        }
      }
    }

    method LinkAsWritten(curr: Vr, entry: Vr, gap: Useconds, ghost at: nat)
      requires Distinct(nodes) && at < |nodes| && curr == nodes[at] && advQ == nodes[0]
      requires forall i: nat :: i < at ==> nodes[i].qnext == nodes[i + 1]
      requires entry !in nodes || nodes == [entry]
      modifies `advQ, curr`qprev, entry`qprev, entry`qnext, entry`timeout
      ensures entry.qprev == entry == curr.qprev && advQ == if at == 0 then entry else nodes[0]
      ensures forall i: nat :: i < at ==> nodes[i].qnext == nodes[i + 1]
    {
      DistinctFrom(nodes, 0);
      entry.timeout := gap;
      entry.qnext := curr;
      curr.qprev := entry;
      entry.qprev := curr.qprev;
      if curr == advQ {
        advQ := entry;
      } else {
        entry.qprev.qnext := entry;
        entry.qprev.timeout := entry.qprev.timeout - entry.timeout;
      }
    }

    /** vrrp_enqueue_impl. It leaves a queue only when it found none: behind the last deadline it
        writes through the null pointer the walk ended on, and before it the new entry's back link
        is overwritten before it is read, so that no list is left. The same happens when the entry
        is the queue already, entered a moment ago, or when the gaps are not what they should be. */
    method EnqueueImpl(entry: Vr) returns (out: Outcome)
      requires IsList(nodes) && Distinct(nodes)
      requires (entry !in nodes && Isolated(entry))
            || (nodes == [entry] && Usecs(alarm) == entry.timeout as int)
      modifies this, nodes`qnext, nodes`qprev, nodes`timeout, entry`qprev, entry`qnext, entry`timeout
      ensures now == old(now) && (old(nodes) != [] ==> nodes == old(nodes))
      ensures old(nodes) == [] ==>
        out == Returned && Valid() && nodes == [entry] && due == [now + old(entry.timeout) as int]
        && alarm == old(entry.timeout) as int
      ensures old(nodes) != [] && out == Returned ==> forall s: seq<Vr> :: !IsList(s)
      ensures entry in old(nodes) ==> out == Returned && advQ == entry == entry.qprev
      ensures old(Valid()) && old(nodes) != [] && entry !in old(nodes) ==>
        (out == NullDereference <==> old(due)[|old(due)| - 1] < now + old(entry.timeout) as int)
    {
      ghost var deadline: nat := now + entry.timeout as int;
      var remain := Ualarm(entry.timeout);
      if advQ == null {
        Start(entry, deadline);
        out := Returned;
      } else {
        out := SpliceImpl(entry, remain);
      }
    }

    lemma BehindTheLast(remain: nat, delay: nat)
      requires Scheduled(remain, nodes, due) && nodes != []
      ensures Place(due, now + delay) == |nodes| <==> due[|due| - 1] < now + delay
    {
      InOrder(remain, nodes, due);
      PlaceIsFirst(due, now + delay);
    }

    /** The walk and the linking as written. */
    method SpliceImpl(entry: Vr, remain: Useconds) returns (out: Outcome)
      requires nodes != [] && IsList(nodes) && Distinct(nodes)
      requires (entry !in nodes && Isolated(entry)) || (nodes == [entry] && remain == entry.timeout)
      modifies `advQ, `alarm, nodes`qnext, nodes`qprev, nodes`timeout, entry`qprev, entry`qnext, entry`timeout
      ensures out == Returned ==> forall s: seq<Vr> :: !IsList(s)
      ensures entry in nodes ==> out == Returned && advQ == entry == entry.qprev
      ensures old(Scheduled(remain as int, nodes, due)) && entry !in nodes ==>
        (out == NullDereference <==> due[|due| - 1] < now + old(entry.timeout) as int)
    {
      if old(Scheduled(remain as int, nodes, due)) {
        BehindTheLast(remain as int, entry.timeout as int);
      }
      var curr, prev, sum;
      ghost var at;
      curr, prev, sum, at := Walk(remain, entry.timeout);
      if sum < entry.timeout || curr == null {
        return NullDereference;
      }
      InsertImpl(curr, entry, sum - entry.timeout, at);
      out := Returned;
    }

    method InsertImpl(curr: Vr, entry: Vr, gap: Useconds, ghost at: nat)
      requires IsList(nodes) && Distinct(nodes) && at < |nodes| && curr == nodes[at]
      requires entry !in nodes || nodes == [entry]
      modifies `advQ, `alarm, nodes`qprev, nodes`qnext, nodes`timeout, entry`qprev, entry`qnext, entry`timeout
      ensures forall s: seq<Vr> :: !IsList(s)
      ensures entry in nodes ==> advQ == entry == entry.qprev
    {
      forall i: nat | i < at
        ensures nodes[i].qnext == nodes[i + 1]
      {
        assert Linked(nodes, i);
      }
      LinkAsWritten(curr, entry, gap, at);
      var rearm := Ualarm(advQ.timeout);
      BackLinkBreaksList(if at == 0 then [entry] else nodes, at);
    }

    /** The nodes and deadlines a removal should leave; `at` is negative for an entry not queued. */
    ghost predicate HoldsWithout(ns: seq<Vr>, ds: seq<nat>, at: int)
      requires at < |ns| == |ds|
      reads this, ns
    {
      if at < 0 then Holds(ns, ds) else Holds(Removed(ns, at), Removed(ds, at))
    }

    /** The queue, except that the gap stored at entry `at` may be anything. */
    ghost predicate HoldsBut(at: int)
      reads this, nodes
    {
      && advQ == At(nodes, 0) && Distinct(nodes) && at < |nodes| == |due|
      && (nodes != [] ==> due[0] == now + alarm)
      && (forall i :: 0 <= i < |due| ==> now <= due[i] < now + 0x1_0000_0000)
      && (at >= 0 ==> Linked(nodes, at) && Gap(due, at) >= 0)
      && forall i: nat :: i < |nodes| && i != at ==> Placed(nodes, due, i)
    }

    lemma ValidHoldsBut(at: int)
      requires Valid() && at < |nodes|
      ensures HoldsBut(at) && (at >= 0 ==> nodes[at].timeout as int == Gap(due, at))
    {
      assert at >= 0 ==> Placed(nodes, due, at);
    }

    /** The links and gaps around an entry that is taken out as written. */
    method DetachImpl(entry: Vr, ghost at: int) returns (out: Outcome)
      requires -1 <= at < |nodes| && Distinct(nodes)
      requires if at < 0 then entry !in nodes && Isolated(entry)
               else entry == nodes[at] && Linked(nodes, at) && advQ == nodes[0]
      modifies `advQ, nodes`qnext, nodes`qprev, nodes`timeout, entry`qnext, entry`qprev
      ensures out == NullDereference <==> at == 0 && |nodes| > 1
      ensures out == Returned ==> Isolated(entry)
      ensures at < 0 || |nodes| == 1 ==> advQ == null
      ensures at > 0 ==> advQ == nodes[0] && nodes[at - 1].qnext == At(nodes, at + 1)
      ensures 0 < at < |nodes| - 1 ==>
        nodes[at - 1].timeout as int == Usecs(old(nodes[at - 1].timeout) as int + old(entry.timeout) as int)
      ensures at > 0 && at + 1 == |nodes| ==> nodes[at - 1].timeout == old(nodes[at - 1].timeout)
      ensures 0 < at < |nodes| - 1 ==> nodes[at + 1].qprev == nodes[at - 1]
      ensures at > 0 ==> forall i: nat :: i < |nodes| && i != at && i + 1 != at ==>
        nodes[i].qnext == old(nodes[i].qnext) && nodes[i].timeout == old(nodes[i].timeout)
      ensures at > 0 ==> forall i: nat :: i < |nodes| && i != at && i != at + 1 ==>
        nodes[i].qprev == old(nodes[i].qprev)
    {
      if at >= 0 {
        Surroundings(nodes, at);
      }
      if entry.qprev == null {
        advQ := entry.qnext;
      } else {
        entry.qprev.qnext := entry.qnext;
      }
      if entry.qnext != null {
        entry.qnext.qprev := entry.qprev;
        if entry.qprev == null {
          return NullDereference;
        }
        entry.qprev.timeout := Usecs(entry.qprev.timeout as int + entry.timeout as int) as Useconds;
      }
      entry.qnext := null;
      entry.qprev := null;
      out := Returned;
    }

    /** Around entry `at`, whose gap was `gap`, the links have been closed and that gap added. */
    ghost predicate Closed(at: nat, gap: Useconds)
      requires 0 < at < |nodes| == |due|
      reads this, nodes
    {
      && nodes[at - 1].qnext == At(nodes, at + 1) && nodes[at - 1].qprev == At(nodes, at - 2)
      && nodes[at - 1].timeout as int ==
           (if at + 1 < |nodes| then Usecs(Gap(due, at - 1) + gap as int) else Gap(due, at - 1))
      && (at + 1 < |nodes| ==>
            && nodes[at + 1].qprev == nodes[at - 1] && nodes[at + 1].qnext == At(nodes, at + 2)
            && nodes[at + 1].timeout as int == Gap(due, at + 1))
      && forall i: nat :: i < |nodes| && i != at && i + 1 != at && i != at + 1 ==> Placed(nodes, due, i)
    }

    lemma ClosedExactly(at: nat, gap: Useconds)
      requires 0 < at < |nodes| == |due| && advQ == nodes[0] && Distinct(nodes) && due[0] == now + alarm
      requires forall i :: 0 <= i < |due| ==> now <= due[i] < now + 0x1_0000_0000
      requires Closed(at, gap) && Gap(due, at - 1) >= 0 && Gap(due, at) >= 0
      ensures IsList(Removed(nodes, at))
      ensures HoldsWithout(nodes, due, at) <==>
        if at + 1 < |nodes| then gap as int == Minus(due[at + 1], due[at]) else due[at] == due[at - 1]
    {
      var ns, ds := Removed(nodes, at), Removed(due, at);
      DistinctRemoved(nodes, at);
      forall i: nat | i < |ns|
        ensures Linked(ns, i) && (i + 1 != at ==> Placed(ns, ds, i))
      {
        NeighboursRemoved(nodes, due, at, i);
        if i + 1 < at {
          assert Placed(nodes, due, i);
        } else if i > at {
          assert Placed(nodes, due, i + 1);
        }
      }
      NeighboursRemoved(nodes, due, at, at - 1);
      if at + 1 < |nodes| {
        WrappedSum(Gap(due, at - 1), gap as int, Gap(due, at));
      }
      assert HoldsWithout(nodes, due, at) <==> Placed(ns, ds, at - 1);
    }

    /** vrrp_rmqueue_impl, whatever gap the entry has. The queue loses just this entry exactly when the
        entry is its only one, or is behind the head and either has the right gap or is the last and
        due together with its predecessor. The head of a longer queue is removed through a null
        pointer; a last entry leaves a gap behind; an entry that is not queued empties the queue. */
    method RmqueueImpl(entry: Vr, ghost at: int) returns (out: Outcome)
      requires -1 <= at && HoldsBut(at)
      requires if at < 0 then entry !in nodes && Isolated(entry) else entry == nodes[at]
      modifies `advQ, nodes`qnext, nodes`qprev, nodes`timeout, entry`qnext, entry`qprev
      ensures out == NullDereference <==> at == 0 && |nodes| > 1
      ensures out == Returned ==> Isolated(entry)
      ensures at < 0 || |nodes| == 1 ==> advQ == null
      ensures at > 0 ==> IsList(Removed(nodes, at)) && Distinct(Removed(nodes, at)) && entry !in Removed(nodes, at)
      ensures out == Returned && HoldsWithout(nodes, due, at) <==>
        if at < 0 then nodes == []
        else
          |nodes| == 1
          || (0 < at && if at + 1 < |nodes| then old(entry.timeout) as int == Minus(due[at + 1], due[at])
                        else due[at] == due[at - 1])
    {
      ghost var gap := entry.timeout;
      if at > 0 {
        assert Placed(nodes, due, at - 1);
        DistinctRemoved(nodes, at);
      }
      out := DetachImpl(entry, at);
      if at > 0 {
        assert Closed(at, gap) by {
          forall i: nat | i < |nodes| && i != at && i + 1 != at
            ensures i != at + 1 ==> Placed(nodes, due, i)
            ensures i == at + 1 ==> nodes[i].qnext == At(nodes, i + 1) && nodes[i].timeout as int == Gap(due, i)
          {
            assert old(Placed(nodes, due, i));
          }
        }
        ClosedExactly(at, gap);
      } else if out == Returned {
        EmptyHolds(at);
      }
    }

    lemma EmptyHolds(at: int)
      requires advQ == null && -1 <= at <= 0 && at < |nodes| == |due| && (at == 0 ==> |nodes| == 1)
      ensures HoldsWithout(nodes, due, at) <==> at == 0 || nodes == []
    {
      if at == 0 {
        assert Removed(nodes, 0) == [] && Removed(due, 0) == [];
      }
    }

    lemma WrappedSum(p: int, t: int, g: int)
      requires 0 <= p && 0 <= t < 0x1_0000_0000 && 0 <= g && p + g < 0x1_0000_0000
      ensures Usecs(p + t) == p + g <==> t == g
    {
    }

    /** The membership test of vrrp_rmqueue takes the only entry of a queue for one not queued. */
    lemma MembershipTestIsExactFromTwoOn(entry: Vr)
      requires Valid() && (entry in nodes || Isolated(entry))
      ensures !(entry.qnext == null && entry.qprev == null) <==> entry in nodes && |nodes| >= 2
    {
      if entry in nodes {
        var at: nat :| at < |nodes| && nodes[at] == entry;
        assert Placed(nodes, due, at);
      }
    }

    /** The queue part of vrrp_state_b2i, which stores the interval in the entry before it takes it
        out. The other deadlines survive exactly when there are none, or the entry is behind the head
        and either the next one is due just that interval later or there is no next one and it is due
        together with its predecessor. */
    method BackupToInitImpl(entry: Vr, ghost at: int) returns (out: Outcome)
      requires Valid() && -1 <= at < |nodes|
      requires if at < 0 then entry !in nodes && Isolated(entry) else entry == nodes[at]
      modifies `advQ, nodes`qnext, nodes`qprev, nodes`timeout, entry`qnext, entry`qprev, entry`timeout
      ensures out == NullDereference <==> at == 0 && |nodes| > 1
      ensures out == Returned && HoldsWithout(nodes, due, at) <==>
        if at < 0 then nodes == []
        else
          |nodes| == 1
          || (0 < at && if at + 1 < |nodes| then Minus(due[at + 1], due[at]) == Usecs(Micros(entry.delay))
                        else due[at] == due[at - 1])
    {
      ValidHoldsBut(at);
      entry.timeout := Usecs(Micros(entry.delay)) as Useconds;
      assert HoldsBut(at) by {
        if at >= 0 {
          DistinctFrom(nodes, at);
        }
        forall i: nat | i < |nodes| && i != at
          ensures Placed(nodes, due, i)
        {
          assert old(Placed(nodes, due, i));
        }
      }
      out := RmqueueImpl(entry, at);
    }

    /** The queue part of vrrp_state_b2m and vrrp_state_m2b: remove, set the timeout, enter again. The
        entry is requeued properly exactly when there is no other; all others are lost. */
    method RequeueImpl(entry: Vr, ghost at: int) returns (out: Outcome)
      requires Valid() && -1 <= at < |nodes|
      requires if at < 0 then entry !in nodes && Isolated(entry) else entry == nodes[at]
      modifies this, nodes`qnext, nodes`qprev, nodes`timeout, entry`qprev, entry`qnext, entry`timeout
      ensures now == old(now)
      ensures var others := if at < 0 then old(nodes) else Removed(old(nodes), at);
        if others == [] then
          out == Returned && Valid() && nodes == [entry] && due == [now + Usecs(Micros(entry.delay))]
        else
          out == Returned ==> forall s: seq<Vr> :: IsList(s) ==> forall v :: v in others ==> v !in s
    {
      ghost var was := nodes;
      ValidHoldsBut(at);
      out := RmqueueImpl(entry, at);
      if out == NullDereference {
        return;
      }
      if advQ == null {
        nodes, due := [], [];
      } else {
        nodes, due := Removed(nodes, at), Removed(due, at);
      }
      out := EnterAgainImpl(entry);
      if at < 0 && was != [] {
        OnlyList(entry);
      }
    }

    method EnterAgainImpl(entry: Vr) returns (out: Outcome)
      requires IsList(nodes) && Distinct(nodes) && entry !in nodes && Isolated(entry)
      modifies this, nodes`qnext, nodes`qprev, nodes`timeout, entry`qprev, entry`qnext, entry`timeout
      ensures now == old(now)
      ensures old(nodes) == [] ==>
        out == Returned && Valid() && nodes == [entry] && due == [now + Usecs(Micros(entry.delay))]
      ensures old(nodes) != [] && out == Returned ==> forall s: seq<Vr> :: !IsList(s)
    {
      entry.timeout := Usecs(Micros(entry.delay)) as Useconds;
      out := EnqueueImpl(entry);
    }

    lemma OnlyList(entry: Vr)
      requires Valid() && nodes == [entry]
      ensures forall s: seq<Vr> :: IsList(s) ==> s == [entry]
    {
      assert Placed(nodes, due, 0);
      forall s: seq<Vr> | IsList(s)
        ensures s == [entry]
      {
        assert Linked(s, 0);
      }
    }

    /** An interval fits the timer's 32 bits of microseconds exactly up to 4294 s. */
    lemma SecondsFit(seconds: int)
      ensures Usecs(Micros(Usecs(seconds))) == Usecs(Micros(seconds))
      ensures Micros(Usecs(seconds)) == Usecs(Micros(seconds)) <==> Usecs(seconds) <= 4294
    {
      var q := seconds / 0x1_0000_0000;
      assert Micros(seconds) == 0x1_0000_0000 * (SECOND * q) + Micros(Usecs(seconds));
      WholeTurns(SECOND * q, Micros(Usecs(seconds)));
    }

    lemma WholeTurns(k: int, r: int)
      ensures (0x1_0000_0000 * k + r) % 0x1_0000_0000 == r % 0x1_0000_0000
    {
    }

    /** What the timer does for a backup's entry it has taken out: the promotion, with its own alarm,
        and then everything once more. */
    method PromoteImpl(entry: Vr, p: Instance) returns (out: Outcome)
      requires Valid() && nodes == [] && Isolated(entry)
      modifies this, entry`qprev, entry`qnext, entry`timeout, p`state
      ensures out == Returned && p.state == Master && forall s: seq<Vr> :: !IsList(s)
    {
      out := RequeueImpl(entry, -1);
      assert Placed(nodes, due, 0);
      p.state := Master;
      Alarm(entry.delay);
      SecondsFit(entry.delay);
      entry.timeout := Usecs(Micros(entry.delay)) as Useconds;
      assert nodes == [entry] && entry.qnext == null && entry.qprev == null;
      assert Linked(nodes, 0);
      out := EnqueueImpl(entry);
      Alarm(entry.delay);
      BackLinkBreaksList([entry], 0);
    }

    method AdvertiseImpl(entry: Vr) returns (out: Outcome)
      requires Valid() && nodes == [] && Isolated(entry)
      modifies this, entry`qprev, entry`qnext, entry`timeout
      ensures out == Returned && now == old(now) && nodes == [entry] && due == [now + Usecs(Micros(entry.delay))]
      ensures Scheduled(Usecs(Micros(entry.delay)), nodes, due)
      ensures alarm == Micros(Usecs(entry.delay)) && (Valid() <==> Usecs(entry.delay) <= 4294)
    {
      SecondsFit(entry.delay);
      entry.timeout := Usecs(Micros(entry.delay)) as Useconds;
      out := EnqueueImpl(entry);
      Alarm(entry.delay);
      assert Placed(nodes, due, 0);
    }

    /** What the timer does for the only entry of the queue, once it has taken it out. */
    method FireImpl(entry: Vr, p: Instance) returns (out: Outcome, advertised: Vr?)
      requires Valid() && nodes == [] && Isolated(entry)
      modifies this, entry`qprev, entry`qnext, entry`timeout, p`state
      ensures out == Returned && advertised == if old(p.state) == Master then entry else null
      ensures match old(p.state)
              case Master =>
                && nodes == [entry] && due == [now + Usecs(Micros(entry.delay))]
                && Scheduled(Usecs(Micros(entry.delay)), nodes, due)
                && alarm == Micros(Usecs(entry.delay)) && (Valid() <==> Usecs(entry.delay) <= 4294)
                && p.state == Master
              case Backup => (forall s: seq<Vr> :: !IsList(s)) && p.state == Master
              case Init => Valid() && nodes == [] && p.state == Init
    {
      out, advertised := Returned, null;
      if p.state == Master {
        advertised := entry;
        out := AdvertiseImpl(entry);
      } else if p.state == Backup {
        out := PromoteImpl(entry, p);
      }
    }

    /** One turn of signal_alarm's loop. There is never a second one, whatever else is due, as the
        link it is decided by is read after it was cleared. A promotion enters the VR a second time.
        A well-formed queue is left exactly when there was at most one entry, and not a backup's; its
        alarm is then right exactly for intervals of at most 4294 s. */
    method SignalAlarm() returns (out: Outcome, more: bool, advertised: Vr?)
      requires Valid()
      requires forall i :: 0 <= i < |nodes| ==> nodes[i].parent != null
      modifies this, nodes`qnext, nodes`qprev, nodes`timeout
      modifies set v | v in nodes && v.parent != null :: v.parent
      ensures !more
      ensures |old(nodes)| > 1 <==> out == NullDereference
      ensures old(nodes) == [] ==> Valid() && nodes == []
      ensures advertised ==
        if |old(nodes)| == 1 && old(nodes[0].parent.state) == Master then old(nodes)[0] else null
      ensures |old(nodes)| == 1 ==>
        && old(nodes[0]).parent == old(nodes[0].parent)
        && match old(nodes[0].parent.state)
           case Master =>
             && nodes == old(nodes) && due == [now + Usecs(Micros(nodes[0].delay))]
             && Scheduled(Usecs(Micros(nodes[0].delay)), nodes, due)
             && alarm == Micros(Usecs(nodes[0].delay)) && (Valid() <==> Usecs(nodes[0].delay) <= 4294)
             && nodes[0].parent.state == Master
           case Backup => (forall s: seq<Vr> :: !IsList(s)) && old(nodes[0]).parent.state == Master
           case Init => Valid() && nodes == [] && old(nodes[0]).parent.state == Init
    {
      var entry := advQ;
      advertised := null;
      if entry == null {
        return Returned, false, null;
      }
      ValidHoldsBut(0);
      out := RmqueueImpl(entry, 0);
      if out == NullDereference {
        return out, false, null;
      }
      more := entry.timeout == 0 && entry.qnext != null;
      assert nodes == [entry];
      nodes, due := [], [];
      out, advertised := FireImpl(entry, entry.parent);
    }
  }
}
