/** The daemon's records and lists, and its handlers, refining the state machine of DaemonModel. */
module VrrpDaemon {
  import opened Protocol
  import opened Objects
  import opened Lists
  import opened Schedules
  import opened KeyLists
  import opened InstanceRegistry
  import opened AdvertisementQueue
  import M = DaemonModel
  import P = DaemonProofs
  import R = DaemonRuns

  ghost function InstOf(p: Instance): M.Inst
    requires p.vr != null
    reads p, p.vr
  {
    M.Inst(p.vr.key, p.state, p.vr.pri, p.vr.delay, p.vr.preempt, p.vr.accept)
  }

  ghost function VrsOf(list: seq<Instance>): set<Vr> {
    set p | p in list && p.vr != null :: p.vr
  }

  ghost function InstsOf(list: seq<Instance>): (r: seq<M.Inst>)
    requires HaveVrs(list)
    reads list, VrsOf(list)
    ensures |r| == |list|
  {
    seq(|list|, i requires 0 <= i < |list| && list[i].vr != null reads list, VrsOf(list) => InstOf(list[i]))
  }

  ghost function NodeKeys(nodes: seq<Vr>): (r: seq<Key>)
    ensures |r| == |nodes|
  {
    seq(|nodes|, i requires 0 <= i < |nodes| => nodes[i].key)
  }

  class Vrrpd {
    const registry: Registry
    const queue: AdvQueue
    const flag: array<bool>
    /** The advertisements multicast so far. */
    ghost var sent: seq<M.Advert>

    ghost function Footprint(): set<object>
      reads this, registry
    {
      {this, registry, registry.head, queue, flag} + (set p | p in registry.insts) + VrsOf(registry.insts)
    }

    /** The links are in order, each instance owns its VR, and only these VRs are queued. */
    ghost predicate Wired()
      reads this, Footprint(), queue.nodes
    {
      && registry.Valid() && queue.Valid() && flag.Length == 256
      && (forall i :: 0 <= i < |registry.insts| ==> InPlace(registry.insts[i]))
      && (forall k :: 0 <= k < |queue.nodes| ==> Owned(queue.nodes[k]))
    }

    /** ... and no key is registered twice. */
    ghost predicate Shape()
      reads this, Footprint(), queue.nodes
    {
      Wired() && Distinct(KeysOf(registry.insts))
    }

    ghost predicate Owned(v: Vr)
      reads registry, v
    {
      v.parent != null && v.parent in registry.insts && v.parent.vr == v
    }

    ghost predicate InPlace(p: Instance)
      requires p.vr != null
      reads registry, queue, p.vr
    {
      p.vr.parent == p && (p.vr in queue.nodes || Isolated(p.vr))
    }

    ghost function Abs(): M.Daemon
      requires HaveVrs(registry.insts)
      reads this, registry, Footprint()
    {
      M.Daemon(queue.now, InstsOf(registry.insts), NodeKeys(queue.nodes), queue.due, flag[..], sent)
    }

    ghost predicate Valid()
      reads this, Footprint(), queue.nodes
    {
      Shape() && P.Inv(Abs())
    }

    constructor ()
      ensures Valid() && Abs() == R.BOOT && fresh(Footprint())
    {
      registry := new Registry();
      queue := new AdvQueue();
      flag := new bool[256](_ => false);
      sent := [];
    }

    // ----- Queue primitives -----

    /** A queued VR is found in the model's queue where its node is. */
    lemma NodeOrder(v: Vr, at: nat)
      requires Shape() && at < |queue.nodes| && queue.nodes[at] == v
      ensures Distinct(NodeKeys(queue.nodes)) && First(NodeKeys(queue.nodes), v.key) == at
    {
      var order := NodeKeys(queue.nodes);
      forall i, j | 0 <= i < j < |order|
        ensures order[i] != order[j]
      {
        if order[i] == order[j] {
          SameKeySameVr(queue.nodes[i], queue.nodes[j]);
          DistinctPairs(queue.nodes);
        }
      }
      DistinctPairs(order);
      FirstIsOnly(order, at);
    }

    lemma SameKeySameVr(v: Vr, w: Vr)
      requires Shape() && Owned(v) && Owned(w) && v.key == w.key
      ensures v == w
    {
      var i :| 0 <= i < |registry.insts| && registry.insts[i] == v.parent;
      var j :| 0 <= j < |registry.insts| && registry.insts[j] == w.parent;
      DistinctFrom(KeysOf(registry.insts), i);
      assert KeysOf(registry.insts)[j] == KeysOf(registry.insts)[i];
    }

    lemma KeyNotQueued(v: Vr)
      requires Shape() && Owned(v) && v !in queue.nodes
      ensures v.key !in NodeKeys(queue.nodes)
    {
      var order := NodeKeys(queue.nodes);
      if v.key in order {
        var i :| 0 <= i < |order| && order[i] == v.key;
        SameKeySameVr(queue.nodes[i], v);
      }
    }

    lemma NodeKeysInserted(nodes: seq<Vr>, at: nat, v: Vr)
      requires at <= |nodes|
      ensures NodeKeys(Inserted(nodes, at, v)) == Inserted(NodeKeys(nodes), at, v.key)
    {
    }

    lemma NodeKeysRemoved(nodes: seq<Vr>, at: nat)
      requires at < |nodes|
      ensures NodeKeys(Removed(nodes, at)) == Removed(NodeKeys(nodes), at)
    {
    }

    method QueueIn(v: Vr, usecs: Useconds, ghost at: nat, ghost deadline: nat)
      requires queue.Valid() && v !in queue.nodes && Isolated(v)
      requires deadline == queue.now + usecs as int && at == Place(queue.due, deadline)
      modifies queue, v`timeout, v`qnext, v`qprev, queue.nodes`timeout, queue.nodes`qnext, queue.nodes`qprev
      ensures queue.Valid() && queue.now == old(queue.now) && queue.due == Inserted(old(queue.due), at, deadline)
      ensures queue.nodes == Inserted(old(queue.nodes), at, v)
    {
      v.timeout := usecs;
      queue.Enqueue(v);
    }

    /** Entering a VR moves nothing but the queue. */
    method Enqueue(v: Vr, usecs: Useconds, ghost at: nat, ghost deadline: nat)
      requires Wired() && Owned(v) && v !in queue.nodes
      requires deadline == queue.now + usecs as int && at == Place(queue.due, deadline)
      modifies queue, v`timeout, v`qnext, v`qprev, queue.nodes`timeout, queue.nodes`qnext, queue.nodes`qprev
      ensures queue.now == old(queue.now) && queue.due == Inserted(old(queue.due), at, deadline)
      ensures queue.nodes == Inserted(old(queue.nodes), at, v)
      ensures v in queue.nodes
      ensures forall k :: 0 <= k < |queue.nodes| ==> queue.nodes[k] == v || queue.nodes[k] in old(queue.nodes)
      ensures Wired()
    {
      assert InPlace(v.parent);
      QueueIn(v, usecs, at, deadline);
      InsertedMembers(old(queue.nodes), at, v);
    }

    method Enter(v: Vr, usecs: Useconds)
      requires Wired() && Owned(v) && v !in queue.nodes
      modifies queue, v`timeout, v`qnext, v`qprev, queue.nodes`timeout, queue.nodes`qnext, queue.nodes`qprev
      ensures Wired() && v in queue.nodes
      ensures forall k :: 0 <= k < |queue.nodes| ==> queue.nodes[k] == v || queue.nodes[k] in old(queue.nodes)
      ensures Abs() == M.Enter(old(Abs()), v.key, usecs as int)
    {
      ghost var s, nodes, deadline := Abs(), queue.nodes, queue.now + usecs as int;
      ghost var at := Place(queue.due, deadline);
      EnterAt(s, v.key, usecs as int, at);
      Enqueue(v, usecs, at, deadline);
      NodeKeysInserted(nodes, at, v);
      assert InstsOf(registry.insts) == s.insts;
    }

    lemma EnterAt(s: M.Daemon, key: Key, usecs: nat, at: nat)
      requires M.WellQueued(s) && at == Place(s.due, s.now + usecs)
      ensures at <= |s.order| && M.Enter(s, key, usecs) ==
        s.(order := Inserted(s.order, at, key), due := Inserted(s.due, at, s.now + usecs))
    {
    }

    lemma KeyPlace(v: Vr) returns (at: nat)
      requires Shape() && Owned(v)
      ensures at == First(NodeKeys(queue.nodes), v.key) <= |queue.nodes|
      ensures if v in queue.nodes then at < |queue.nodes| && queue.nodes[at] == v else at == |queue.nodes|
    {
      if v in queue.nodes {
        at :| at < |queue.nodes| && queue.nodes[at] == v;
        NodeOrder(v, at);
      } else {
        KeyNotQueued(v);
        at := |queue.nodes|;
      }
    }

    /** vrrp_rmqueue, with a membership test that knows the head of the queue. */
    method Dequeue(v: Vr, ghost at: nat)
      requires Shape() && Owned(v)
      requires if v in queue.nodes then at < |queue.nodes| && queue.nodes[at] == v else at == |queue.nodes|
      modifies queue, queue.nodes`timeout, queue.nodes`qnext, queue.nodes`qprev
      ensures Shape() && v !in queue.nodes && queue.now == old(queue.now)
      ensures forall k :: 0 <= k < |queue.nodes| ==> queue.nodes[k] in old(queue.nodes)
      ensures at < |old(queue.nodes)| ==>
        queue.nodes == Removed(old(queue.nodes), at) && queue.due == Removed(old(queue.due), at)
      ensures at == |old(queue.nodes)| ==> queue.nodes == old(queue.nodes) && queue.due == old(queue.due)
    {
      queue.IsQueuedExactly(v);
      if queue.IsQueued(v) {
        queue.Remove(v, at);
        DistinctRemoved(old(queue.nodes), at);
        RemovedMembers(old(queue.nodes), at);
      }
    }

    method Leave(v: Vr)
      requires Shape() && Owned(v)
      modifies queue, queue.nodes`timeout, queue.nodes`qnext, queue.nodes`qprev
      ensures Shape() && v !in queue.nodes && forall k :: 0 <= k < |queue.nodes| ==> queue.nodes[k] in old(queue.nodes)
      ensures Abs() == M.Leave(old(Abs()), v.key)
    {
      ghost var nodes := queue.nodes;
      ghost var at := KeyPlace(v);
      Dequeue(v, at);
      if at < |nodes| {
        NodeKeysRemoved(nodes, at);
      }
      assert InstsOf(registry.insts) == old(InstsOf(registry.insts));
    }

    // ----- State transitions -----

    ghost predicate Registered(p: Instance, i: nat)
      reads registry
    {
      i < |registry.insts| && registry.insts[i] == p && p.vr != null
    }

    method Become(p: Instance, state: State, ghost i: nat)
      requires Wired() && Registered(p, i)
      modifies p`state
      ensures Wired() && Abs() == M.Become(old(Abs()), i, state)
    {
      DistinctFrom(registry.insts, i);
      p.state := state;
      assert InstsOf(registry.insts) == old(InstsOf(registry.insts))[i := InstOf(p)];
    }

    /** vrrp_send_adv. */
    method Send(id: Byte, pri: Byte)
      requires Shape()
      modifies `sent
      ensures Shape() && Abs() == M.Send(old(Abs()), id, pri)
    {
      sent := sent + [M.Advert(id, pri)];
    }

    /** any_master_up. */
    method AnyMasterUp() returns (id: int)
      requires flag.Length == 256
      ensures id == M.MasterUp(flag[..], 1)
    {
      for i := 1 to 256
        invariant M.MasterUp(flag[..], 1) == M.MasterUp(flag[..], i)
      {
        if flag[i] {
          return i;
        }
      }
      id := 0;
    }

    method Requeue(p: Instance, usecs: Useconds, ghost i: nat)
      requires Shape() && Registered(p, i)
      modifies queue, queue.nodes`timeout, queue.nodes`qnext, queue.nodes`qprev
      modifies p.vr`timeout, p.vr`qnext, p.vr`qprev
      ensures Shape()
      ensures forall k :: 0 <= k < |queue.nodes| ==> queue.nodes[k] == p.vr || queue.nodes[k] in old(queue.nodes)
      ensures var key := p.vr.key; Abs() == M.Enter(M.Leave(old(Abs()), key), key, usecs as int)
    {
      assert InPlace(registry.insts[i]);
      Leave(p.vr);
      Enter(p.vr, usecs);
    }

    /** vrrp_state_b2m. */
    method BackupToMaster(p: Instance, ghost i: nat)
      requires Shape() && Registered(p, i)
      modifies queue, queue.nodes`timeout, queue.nodes`qnext, queue.nodes`qprev
      modifies p.vr`timeout, p.vr`qnext, p.vr`qprev, p`state
      ensures Shape()
      ensures forall k :: 0 <= k < |queue.nodes| ==> queue.nodes[k] == p.vr || queue.nodes[k] in old(queue.nodes)
      ensures Abs() == M.BackupToMaster(old(Abs()), i)
    {
      assert Abs().insts[i] == InstOf(p);
      Requeue(p, Usecs(Micros(p.vr.delay)) as Useconds, i);
      Become(p, Master, i);
    }

    method UnlessMasterUp(p: Instance, ghost i: nat)
      requires Shape() && Registered(p, i)
      modifies queue, queue.nodes`timeout, queue.nodes`qnext, queue.nodes`qprev
      modifies p.vr`timeout, p.vr`qnext, p.vr`qprev, p`state
      ensures Shape() && Abs() == M.UnlessMasterUp(old(Abs()), i)
    {
      ghost var s := Abs();
      assert s.flag == flag[..];
      var up := AnyMasterUp();
      assert Abs() == s;
      if up == 0 {
        assert M.UnlessMasterUp(s, i) == M.BackupToMaster(s, i);
        BackupToMaster(p, i);
      } else {
        assert M.UnlessMasterUp(s, i) == s;
      }
    }

    /** vrrp_state_i2m. */
    method InitToMaster(p: Instance, ghost i: nat)
      requires Wired() && Registered(p, i) && p.vr !in queue.nodes
      modifies queue, queue.nodes`timeout, queue.nodes`qnext, queue.nodes`qprev
      modifies p.vr`timeout, p.vr`qnext, p.vr`qprev, p`state
      ensures Wired()
      ensures forall k :: 0 <= k < |queue.nodes| ==> queue.nodes[k] == p.vr || queue.nodes[k] in old(queue.nodes)
      ensures Abs() == M.InitToMaster(old(Abs()), i)
    {
      assert Abs().insts[i] == InstOf(p) && InPlace(registry.insts[i]);
      Enter(p.vr, Usecs(Micros(p.vr.delay)) as Useconds);
      Become(p, Master, i);
    }

    /** vrrp_state_i2b. */
    method InitToBackup(p: Instance, ghost i: nat)
      requires Shape() && Registered(p, i) && p.vr !in queue.nodes
      modifies queue, queue.nodes`timeout, queue.nodes`qnext, queue.nodes`qprev
      modifies p.vr`timeout, p.vr`qnext, p.vr`qprev, p`state
      ensures Shape() && Abs() == M.InitToBackup(old(Abs()), i)
    {
      assert Abs().insts[i] == InstOf(p) && InPlace(registry.insts[i]);
      Enter(p.vr, Usecs(Micros(p.vr.delay)) as Useconds);
      Become(p, Backup, i);
      UnlessMasterUp(p, i);
    }

    /** vrrp_state_m2i. */
    method MasterToInit(p: Instance, ghost i: nat)
      requires Shape() && Registered(p, i)
      modifies queue, queue.nodes`timeout, queue.nodes`qnext, queue.nodes`qprev, p`state, `sent
      ensures Shape()
      ensures forall k :: 0 <= k < |queue.nodes| ==> queue.nodes[k] in old(queue.nodes)
      ensures Abs() == M.MasterToInit(old(Abs()), i)
    {
      assert Abs().insts[i] == InstOf(p) && InPlace(registry.insts[i]);
      Leave(p.vr);
      Become(p, Init, i);
      Send(p.vr.key.id, 0);
    }

    /** vrrp_state_b2i. Repaired: the entry's gap is not overwritten before it is taken out. */
    method BackupToInit(p: Instance, ghost i: nat)
      requires Shape() && Registered(p, i)
      modifies queue, queue.nodes`timeout, queue.nodes`qnext, queue.nodes`qprev, p`state
      ensures Shape()
      ensures forall k :: 0 <= k < |queue.nodes| ==> queue.nodes[k] in old(queue.nodes)
      ensures Abs() == M.BackupToInit(old(Abs()), i)
    {
      assert Abs().insts[i] == InstOf(p) && InPlace(registry.insts[i]);
      Leave(p.vr);
      Become(p, Init, i);
    }

    /** vrrp_state_m2b. */
    method MasterToBackup(p: Instance, ghost i: nat)
      requires Shape() && Registered(p, i)
      modifies queue, queue.nodes`timeout, queue.nodes`qnext, queue.nodes`qprev, `sent
      modifies p.vr`timeout, p.vr`qnext, p.vr`qprev, p`state
      ensures Shape() && Abs() == M.MasterToBackup(old(Abs()), i)
    {
      assert Abs().insts[i] == InstOf(p);
      Requeue(p, Usecs(Micros(p.vr.delay)) as Useconds, i);
      Become(p, Backup, i);
      Send(p.vr.key.id, 0);
      UnlessMasterUp(p, i);
    }

    // ----- Commands -----

    lemma AbsKeys()
      requires HaveVrs(registry.insts)
      ensures M.Keys(Abs().insts) == KeysOf(registry.insts)
    {
    }

    /** The instance a query stands for, and where the model finds it. */
    method Find(query: Key) returns (p: Instance?, ghost i: nat)
      requires Shape()
      ensures Shape() && Abs() == old(Abs())
      ensures p == null <==> Search(M.Keys(old(Abs()).insts), query) == None
      ensures p != null ==> Search(M.Keys(old(Abs()).insts), query) == Some(i) && Registered(p, i)
    {
      ghost var s := Abs();
      AbsKeys();
      ghost var keys := KeysOf(registry.insts);
      ghost var found := Search(keys, query);
      p := registry.Find(query);
      assert Shape() && Abs() == s;
      AbsKeys();
      i := if found == None then 0 else found.value;
    }

    lemma NodeKeyQueued(v: Vr)
      requires v in queue.nodes
      ensures v.key in NodeKeys(queue.nodes)
    {
      var k :| 0 <= k < |queue.nodes| && queue.nodes[k] == v;
      assert NodeKeys(queue.nodes)[k] == v.key;
    }

    lemma QueuedExactly(p: Instance, i: nat)
      requires Valid() && Registered(p, i)
      ensures Abs().insts[i] == InstOf(p)
      ensures p.vr in queue.nodes <==> p.state != Init
      ensures p.vr in queue.nodes <==> p.vr.key in Abs().order
    {
      assert Abs().insts[i] == InstOf(p) && InPlace(registry.insts[i]);
      if p.vr in queue.nodes {
        NodeKeyQueued(p.vr);
      } else {
        KeyNotQueued(p.vr);
      }
    }

    /** vrrp_startup_inst. */
    method Startup(query: Key) returns (ret: M.Ret)
      requires Valid()
      modifies queue, queue.nodes`timeout, queue.nodes`qnext, queue.nodes`qprev
      modifies VrsOf(registry.insts), registry.insts
      ensures Valid() && (Abs(), ret) == M.DoStartup(old(Abs()), query)
    {
      ghost var s := Abs();
      P.StartupKeepsInv(s, query);
      if query.af != AF_INET || query.id == 0 {
        return M.ErrnoEinval;
      }
      var p;
      ghost var i;
      p, i := Find(query);
      if p == null {
        return M.NoInst;
      }
      QueuedExactly(p, i);
      if p.state != Init {
        return M.VrrpEinval;
      }
      InitToBackup(p, i);
      ret := M.Success;
    }

    /** vrrp_shutdown_inst. */
    method Shutdown(query: Key) returns (ret: M.Ret)
      requires Valid()
      modifies queue, queue.nodes`timeout, queue.nodes`qnext, queue.nodes`qprev, `sent
      modifies registry.insts`state
      ensures forall k :: 0 <= k < |queue.nodes| ==> queue.nodes[k] in old(queue.nodes)
      ensures Valid() && (Abs(), ret) == M.DoShutdown(old(Abs()), query)
    {
      ghost var s := Abs();
      P.ShutdownKeepsInv(s, query);
      if query.af != AF_INET || query.id == 0 {
        return M.ErrnoEinval;
      }
      var p;
      ghost var i;
      p, i := Find(query);
      if p == null {
        return M.NoInst;
      }
      match p.state
      case Master =>
        MasterToInit(p, i);
        ret := M.Success;
      case Backup =>
        BackupToInit(p, i);
        ret := M.Success;
      case Init =>
        ret := M.VrrpEinval;
    }

    method LinkIn(p: Instance, ghost at: nat)
      requires registry.Valid() && queue.Valid()
      requires forall k :: 0 <= k < |queue.nodes| ==> Owned(queue.nodes[k])
      requires p.vr != null && p != registry.head && p !in registry.insts
      requires at == Slot(KeysOf(registry.insts), p.vr.key.id)
      modifies registry`insts, registry.head`next, registry.insts`next, registry.insts`prev, p`next, p`prev
      ensures registry.Valid() && queue.Valid()
      ensures registry.insts == Inserted(old(registry.insts), at, p)
      ensures forall k :: 0 <= k < |queue.nodes| ==> Owned(queue.nodes[k])
    {
      ghost var insts := registry.insts;
      registry.Link(p);
      forall k | 0 <= k < |queue.nodes|
        ensures Owned(queue.nodes[k])
      {
        assert old(Owned(queue.nodes[k]));
        var j :| 0 <= j < |insts| && insts[j] == queue.nodes[k].parent;
        InsertedNeighbours(insts, at, p, if j < at then j else j + 1);
      }
    }

    /** Links a new instance into the registry. */
    method Register(p: Instance, ghost at: nat)
      requires Wired() && p.vr != null && p.vr.parent == p && Isolated(p.vr)
      requires p != registry.head && p !in registry.insts && p.vr !in queue.nodes
      requires at == Slot(KeysOf(registry.insts), p.vr.key.id)
      modifies registry`insts, registry.head`next, registry.insts`next, registry.insts`prev, p`next, p`prev
      ensures registry.insts == Inserted(old(registry.insts), at, p)
      ensures Wired()
    {
      ghost var insts := registry.insts;
      LinkIn(p, at);
      forall k | 0 <= k < |registry.insts|
        ensures InPlace(registry.insts[k])
      {
        InsertedNeighbours(insts, at, p, k);
        assert k < at ==> old(InPlace(insts[k]));
        assert k > at ==> old(InPlace(insts[k - 1]));
      }
    }

    method LinkOut(p: Instance, ghost i: nat)
      requires registry.Valid() && queue.Valid() && Distinct(KeysOf(registry.insts)) && Registered(p, i)
      modifies registry`insts, registry.head`next, registry.insts`next, registry.insts`prev
      ensures registry.Valid() && queue.Valid() && Distinct(KeysOf(registry.insts))
      ensures registry.insts == Removed(old(registry.insts), i)
    {
      DistinctRemoved(KeysOf(registry.insts), i);
      registry.Unlink(p, i);
    }

    /** Takes an instance out of the registry. The daemon stays in shape if its VR is not queued. */
    method Unregister(p: Instance, ghost i: nat)
      requires Shape() && Registered(p, i)
      modifies registry`insts, registry.head`next, registry.insts`next, registry.insts`prev
      ensures registry.insts == Removed(old(registry.insts), i) && registry.Valid()
      ensures p.vr !in queue.nodes ==> Shape()
    {
      ghost var insts := registry.insts;
      LinkOut(p, i);
      forall k | 0 <= k < |queue.nodes| && p.vr !in queue.nodes
        ensures Owned(queue.nodes[k])
      {
        assert old(Owned(queue.nodes[k]));
        var j :| 0 <= j < |insts| && insts[j] == queue.nodes[k].parent;
        assert j != i;
        RemovedNeighbours(insts, i, if j < i then j else j - 1);
      }
      forall k | 0 <= k < |registry.insts|
        ensures InPlace(registry.insts[k])
      {
        RemovedNeighbours(insts, i, k);
        assert if k < i then old(InPlace(insts[k])) else old(InPlace(insts[k + 1]));
      }
    }

    lemma InstsInserted(list: seq<Instance>, at: nat, p: Instance)
      requires HaveVrs(list) && at <= |list| && p.vr != null
      ensures HaveVrs(Inserted(list, at, p)) && InstsOf(Inserted(list, at, p)) == Inserted(InstsOf(list), at, InstOf(p))
    {
    }

    lemma InstsRemoved(list: seq<Instance>, at: nat)
      requires HaveVrs(list) && at < |list|
      ensures HaveVrs(Removed(list, at)) && InstsOf(Removed(list, at)) == Removed(InstsOf(list), at)
    {
    }

    /** vrrp_create_inst, up to the priority of an address owner. */
    method Enlist(p: Instance) returns (ghost at: nat)
      requires Wired() && p.vr != null && p.vr.parent == p && Isolated(p.vr)
      requires p != registry.head && p !in registry.insts && p.vr !in queue.nodes
      modifies registry`insts, registry.head`next, registry.insts`next, registry.insts`prev, p`next, p`prev
      ensures Wired() && Registered(p, at) && queue.nodes == old(queue.nodes)
      ensures at == Slot(M.Keys(old(Abs()).insts), p.vr.key.id)
      ensures Abs() == old(Abs()).(insts := Inserted(old(Abs()).insts, at, InstOf(p)))
    {
      AbsKeys();
      ghost var insts, was := registry.insts, Abs().insts;
      at := Slot(KeysOf(insts), p.vr.key.id);
      Register(p, at);
      InstsInserted(insts, at, p);
      assert InstsOf(insts) == was;
    }

    method Delist(p: Instance, ghost i: nat)
      requires Shape() && Registered(p, i)
      modifies registry`insts, registry.head`next, registry.insts`next, registry.insts`prev
      ensures HaveVrs(registry.insts)
      ensures Abs() == old(Abs()).(insts := Removed(old(Abs()).insts, i))
      ensures p.vr !in queue.nodes ==> Shape()
    {
      ghost var insts, was := registry.insts, Abs().insts;
      Unregister(p, i);
      InstsRemoved(insts, i);
      assert InstsOf(insts) == was;
    }

    method NewInstance(key: Key, pri: Byte, delay: int, preempt: bool, accept: bool) returns (p: Instance)
      requires Wired()
      ensures Wired() && Abs() == old(Abs())
      ensures fresh(p) && p.vr != null && fresh(p.vr) && p.vr.parent == p && Isolated(p.vr)
      ensures InstOf(p) == M.Inst(key, Init, pri, delay, preempt, accept)
    {
      ghost var s := Abs();
      var vr := new Vr(key, pri, delay, preempt, accept);
      p := new Instance(vr);
      vr.parent := p;
      assert Wired() && Abs() == s;
    }

    /** vrrp_create_inst, and vrrp_state_i2m for an address owner. A key that is registered already,
        and accepted nevertheless, leaves all links in order. */
    method Create(key: Key, pri: Byte, delay: int, ipnum: Byte, preempt: bool, accept: bool) returns (ret: M.Ret)
      requires Valid()
      modifies registry`insts, registry.head`next, registry.insts`next, registry.insts`prev
      modifies queue, queue.nodes`timeout, queue.nodes`qnext, queue.nodes`qprev
      ensures Wired() && (Abs(), ret) == M.DoCreate(old(Abs()), M.Create(key, pri, delay, ipnum, preempt, accept))
      ensures Valid() <==> P.Proper(old(Abs()), M.Create(key, pri, delay, ipnum, preempt, accept))
    {
      ghost var s, e := Abs(), M.Create(key, pri, delay, ipnum, preempt, accept);
      P.CreateKeepsInvExactly(s, e);
      if delay <= 0 || ipnum == 0 {
        return M.ErrnoEinval;
      }
      var p;
      ghost var i;
      p, i := Find(key);
      if p != null {
        return M.Exists;
      }
      p := NewInstance(key, pri, delay, preempt, accept);
      i := Enlist(p);
      if pri == 255 {
        InitToMaster(p, i);
      }
      AbsKeys();
      ret := M.Success;
    }

    /** vrrp_rmqueue, for the instance a query has found. */
    method RmQueue(query: Key, p: Instance, ghost i: nat)
      requires Shape() && Registered(p, i)
      modifies queue, queue.nodes`timeout, queue.nodes`qnext, queue.nodes`qprev
      ensures Shape() && Abs() == M.RmQueue(old(Abs()), query, i)
      ensures p.vr in queue.nodes ==> p.vr in old(queue.nodes) && !M.Retimable(query)
    {
      assert Abs().insts[i] == InstOf(p);
      if query.id > 0 && (query.af == AF_INET || query.af == AF_INET6 || query.af == AF_UNSPEC) {
        Leave(p.vr);
      }
    }

    /** The part of vrrp_destroy_inst before the instance is unlinked. */
    method Retire(query: Key, p: Instance, ghost i: nat)
      requires Valid() && Registered(p, i) && query.af == AF_INET
      requires Search(M.Keys(Abs().insts), query) == Some(i)
      modifies queue, `sent, registry.insts`state
      modifies queue.nodes`timeout, queue.nodes`qnext, queue.nodes`qprev
      ensures Shape() && (query.id != 0 || old(p.state) == Init ==> p.vr !in queue.nodes)
      ensures Abs() ==
        if old(p.state) == Master then M.RmQueue(M.DoShutdown(old(Abs()), query).0, query, i)
        else M.Send(M.RmQueue(old(Abs()), query, i), p.vr.key.id, 0)
    {
      QueuedExactly(p, i);
      if p.state == Master {
        var shut := Shutdown(query);
        RmQueue(query, p, i);
      } else {
        RmQueue(query, p, i);
        Send(p.vr.key.id, 0);
      }
    }

    /** vrrp_destroy_inst. A wildcard VRID leaves the VR of the instance in the queue. */
    method Destroy(query: Key) returns (ret: M.Ret)
      requires Valid()
      modifies registry`insts, registry.head`next, registry.insts, queue, `sent
      modifies queue.nodes`timeout, queue.nodes`qnext, queue.nodes`qprev
      ensures HaveVrs(registry.insts) && (Abs(), ret) == M.DoDestroy(old(Abs()), query)
      ensures Valid() <==> P.Proper(old(Abs()), M.Destroy(query))
    {
      ghost var s := Abs();
      P.DestroyKeepsInvExactly(s, query);
      if query.af != AF_INET {
        return M.ErrnoEinval;
      }
      var p;
      ghost var i;
      p, i := Find(query);
      if p == null {
        return M.Segv;
      }
      QueuedExactly(p, i);
      Retire(query, p, i);
      Delist(p, i);
      assert Abs() == M.DoDestroy(s, query).0;
      ret := M.Success;
    }

    lemma KeyQueuedExactly(v: Vr)
      requires Shape() && Owned(v)
      ensures queue.IsQueued(v) <==> v.key in NodeKeys(queue.nodes)
    {
      assert InPlace(v.parent);
      queue.IsQueuedExactly(v);
      if v in queue.nodes {
        NodeKeyQueued(v);
      } else {
        KeyNotQueued(v);
      }
    }

    /** Nothing of the queue or the registry depends on a VR's attributes. */
    method Assign(v: Vr, pri: Byte, delay: int, preempt: bool, accept: bool)
      requires Shape()
      modifies v`pri, v`delay, v`preempt, v`accept
      ensures v.pri == pri && v.delay == delay && v.preempt == preempt && v.accept == accept
      ensures Shape()
    {
      SetAttributes(v, pri, delay, preempt, accept);
    }

    method SetAttributes(v: Vr, pri: Byte, delay: int, preempt: bool, accept: bool)
      requires queue.Valid()
      modifies v`pri, v`delay, v`preempt, v`accept
      ensures v.pri == pri && v.delay == delay && v.preempt == preempt && v.accept == accept
      ensures queue.Valid()
    {
      v.pri, v.delay, v.preempt, v.accept := pri, delay, preempt, accept;
      forall k: nat | k < |queue.nodes|
        ensures Placed(queue.nodes, queue.due, k)
      {
        assert old(Placed(queue.nodes, queue.due, k));
      }
    }

    method SetProps(p: Instance, pri: int, delay: int, preempt: int, accept: int, query: Key, ghost i: nat)
      requires Shape() && Registered(p, i)
      modifies p.vr`pri, p.vr`delay, p.vr`preempt, p.vr`accept
      ensures Shape()
      ensures var insts, e := old(Abs()).insts, M.Modify(query, pri, delay, preempt, accept);
        Abs() == old(Abs()).(insts := insts[i := M.Modified(insts[i], e)])
    {
      ghost var was := Abs().insts;
      DistinctFrom(registry.insts, i);
      Assign(p.vr,
             if pri != M.UNCHANGE then pri % 256 else p.vr.pri,
             if delay != M.UNCHANGE then delay else p.vr.delay,
             if preempt != M.UNCHANGE then preempt == 1 else p.vr.preempt,
             if accept != M.UNCHANGE then accept == 1 else p.vr.accept);
      assert InstsOf(registry.insts) == was[i := InstOf(p)];
    }

    /** vrrp_rmqueue and, if that found the VR in the queue, vrrp_enqueue. */
    method Retime(p: Instance, query: Key, ghost i: nat)
      requires Shape() && Registered(p, i)
      modifies queue, queue.nodes`timeout, queue.nodes`qnext, queue.nodes`qprev
      modifies p.vr`timeout, p.vr`qnext, p.vr`qprev
      ensures Shape()
      ensures var s, key := old(Abs()), p.vr.key;
        Abs() == if M.Retimable(query) && key in s.order
                 then M.Enter(M.Leave(s, key), key, M.Prescribed(s.insts[i])) else s
    {
      assert Abs().insts[i] == InstOf(p) && InPlace(registry.insts[i]);
      KeyQueuedExactly(p.vr);
      if query.id > 0 && (query.af == AF_INET || query.af == AF_INET6 || query.af == AF_UNSPEC) {
        if queue.IsQueued(p.vr) {
          var usecs := match p.state
            case Master => Usecs(Micros(p.vr.delay))
            case Backup => Usecs(WrittenMasterDown(p.vr.delay, p.vr.pri))
            case Init => 0;
          Requeue(p, usecs as Useconds, i);
        }
      }
    }

    lemma ModifyInSequence(s: M.Daemon, e: M.Event, i: nat)
      requires M.WellQueued(s) && e.Modify? && e.newPreempt in {0, 1, M.UNCHANGE} && e.newAccept in {0, 1, M.UNCHANGE}
      requires Search(M.Keys(s.insts), e.query) == Some(i)
      ensures var r := s.(insts := s.insts[i := M.Modified(s.insts[i], e)]);
        var key := s.insts[i].key;
        M.DoModify(s, e) ==
          (if e.newDelay != M.UNCHANGE && M.Retimable(e.query) && key in r.order
           then M.Enter(M.Leave(r, key), key, M.Prescribed(r.insts[i])) else r, M.Success)
    {
    }

    /** vrrp_set_inst_prop. */
    method Modify(query: Key, pri: int, delay: int, preempt: int, accept: int) returns (ret: M.Ret)
      requires Valid()
      modifies queue, queue.nodes`timeout, queue.nodes`qnext, queue.nodes`qprev, VrsOf(registry.insts)
      ensures Valid() && (Abs(), ret) == M.DoModify(old(Abs()), M.Modify(query, pri, delay, preempt, accept))
    {
      ghost var s, e := Abs(), M.Modify(query, pri, delay, preempt, accept);
      P.ModifyKeepsInv(s, e);
      if preempt !in {0, 1, M.UNCHANGE} || accept !in {0, 1, M.UNCHANGE} {
        return M.ErrnoEinval;
      }
      var p;
      ghost var i;
      p, i := Find(query);
      if p == null {
        return M.NoInst;
      }
      ModifyInSequence(s, e, i);
      assert s.insts[i] == InstOf(p);
      SetProps(p, pri, delay, preempt, accept, query, i);
      if delay != M.UNCHANGE {
        Retime(p, query, i);
      }
      assert (Abs(), M.Success) == M.DoModify(s, e);
      ret := M.Success;
    }

    // ----- Advertisements -----

    method Note(id: Byte, up: bool)
      requires Shape()
      modifies flag
      ensures Shape() && Abs() == old(Abs()).(flag := old(Abs()).flag[id := up])
    {
      flag[id] := up;
    }

    /** What vrrp_adv_check does for priority 0. */
    method Farewell() returns (ret: M.Ret)
      requires Shape()
      modifies queue, queue.nodes`timeout, queue.nodes`qnext, queue.nodes`qprev
      modifies VrsOf(registry.insts), registry.insts`state
      ensures Shape() && (Abs(), ret) == M.Farewell(old(Abs()))
    {
      var first := registry.head.next;
      if first == null {
        return M.Segv;
      }
      assert Registered(first, 0) && Abs().insts[0] == InstOf(first);
      if first.state == Backup {
        BackupToMaster(first, 0);
      }
      ret := M.Success;
    }

    /** vrrp_process_incoming_adv. */
    method ProcessAdvert(p: Instance, heard: Byte, ghost i: nat)
      requires Shape() && Registered(p, i) && heard != 0
      modifies queue, queue.nodes`timeout, queue.nodes`qnext, queue.nodes`qprev, `sent
      modifies p.vr`timeout, p.vr`qnext, p.vr`qprev, p`state
      ensures Shape() && Abs() == M.ProcessAdvert(old(Abs()), i, heard)
    {
      ghost var s, inst := Abs(), InstOf(p);
      assert s.insts[i] == inst;
      if p.state == Backup {
        if !p.vr.preempt || heard >= p.vr.pri {
          assert M.ProcessAdvert(s, i, heard) == M.Enter(M.Leave(s, inst.key), inst.key, M.MasterDown(inst));
          Requeue(p, Usecs(WrittenMasterDown(p.vr.delay, p.vr.pri)) as Useconds, i);
        }
      } else if p.state == Master {
        if heard > p.vr.pri {
          assert M.ProcessAdvert(s, i, heard) == M.MasterToBackup(s, i);
          MasterToBackup(p, i);
        }
      }
    }

    /** vrrp_adv_check and process_vrrpd_sock. */
    method Receive(port: string, af: int, a: M.Advert) returns (ret: M.Ret)
      requires Valid()
      modifies queue, queue.nodes`timeout, queue.nodes`qnext, queue.nodes`qprev, `sent, flag
      modifies VrsOf(registry.insts), registry.insts`state
      ensures Valid() && (Abs(), ret) == M.DoReceive(old(Abs()), port, af, a)
    {
      P.ReceiveKeepsInv(Abs(), port, af, a);
      Note(a.id, a.pri != 0);
      if a.pri == 0 {
        ret := Farewell();
        return;
      }
      var p;
      ghost var i;
      p, i := Find(Key(a.id, port, af));
      if a.id != 0 && p != null {
        ProcessAdvert(p, a.pri, i);
      }
      ret := M.Success;
    }

    // ----- The timer -----

    lemma HeadEntry() returns (i: nat)
      requires Valid() && queue.advQ != null
      ensures queue.nodes != [] && queue.advQ == queue.nodes[0] && Owned(queue.advQ)
      ensures Registered(queue.advQ.parent, i) && First(M.Keys(Abs().insts), queue.advQ.key) == i
      ensures Abs().order[0] == queue.advQ.key && queue.advQ.parent.state != Init
    {
      var p := queue.advQ.parent;
      assert Owned(queue.nodes[0]);
      i :| 0 <= i < |registry.insts| && registry.insts[i] == p;
      QueuedExactly(p, i);
      P.OwnerIsUnique(Abs(), i);
    }

    /** What the timer does for an entry it has taken out. A promoted VR is requeued by the
        promotion, and not a second time. */
    method Serve(p: Instance, ghost i: nat)
      requires Shape() && Registered(p, i) && p.vr !in queue.nodes
      modifies queue, queue.nodes`timeout, queue.nodes`qnext, queue.nodes`qprev, `sent
      modifies p.vr`timeout, p.vr`qnext, p.vr`qprev, p`state
      ensures Shape()
      ensures forall k :: 0 <= k < |queue.nodes| ==> queue.nodes[k] == p.vr || queue.nodes[k] in old(queue.nodes)
      ensures var s, inst := old(Abs()), old(InstOf(p));
        Abs() == match inst.state
                 case Master => M.Enter(M.Send(s, inst.key.id, inst.pri), inst.key, M.Interval(inst))
                 case Backup => M.BackupToMaster(s, i)
                 case Init => s
    {
      assert InPlace(registry.insts[i]);
      if p.state == Master {
        Send(p.vr.key.id, p.vr.pri);
        Enter(p.vr, Usecs(Micros(p.vr.delay)) as Useconds);
      } else if p.state == Backup {
        BackupToMaster(p, i);
      }
    }

    lemma HeadServed(s: M.Daemon, i: nat)
      requires P.Inv(s) && s.order != [] && i == First(M.Keys(s.insts), s.order[0]) < |s.insts|
      ensures P.Inv(M.HandleHead(s)) && s.insts[i].key == s.order[0]
      ensures var out, inst := M.Leave(s, s.order[0]), s.insts[i];
        M.HandleHead(s) == match inst.state
                           case Master => M.Enter(M.Send(out, inst.key.id, inst.pri), inst.key, M.Interval(inst))
                           case Backup => M.BackupToMaster(out, i)
                           case Init => out
    {
      assert M.Keys(s.insts)[i] == s.order[0];
      P.HeadOutIsLeave(s);
      R.OneTurnKeepsInv(s, M.HandleHead(s));
    }

    /** One turn of signal_alarm's loop. */
    method Turn(entry: Vr)
      requires Valid() && queue.advQ == entry
      modifies queue, queue.nodes`timeout, queue.nodes`qnext, queue.nodes`qprev, `sent, registry.insts`state
      ensures forall k :: 0 <= k < |queue.nodes| ==> queue.nodes[k] in old(queue.nodes)
      ensures Valid() && old(Abs()).order != [] && Abs() == M.HandleHead(old(Abs()))
    {
      ghost var s := Abs();
      ghost var i := HeadEntry();
      var p := entry.parent;
      assert s.insts[i] == InstOf(p);
      HeadServed(s, i);
      Leave(entry);
      Serve(p, i);
    }

    lemma MoreIsDue()
      requires Valid() && queue.advQ != null
      ensures Abs().due != []
      ensures queue.advQ.qnext != null && queue.advQ.timeout == 0 <==> M.More(Abs())
    {
      assert Placed(queue.nodes, queue.due, 0);
    }

    /** One turn of signal_alarm, deciding whether more is due before it takes the head out. */
    method Expire() returns (more: bool)
      requires Valid() && queue.advQ != null
      modifies queue, queue.nodes`timeout, queue.nodes`qnext, queue.nodes`qprev, `sent, registry.insts`state
      ensures Valid() && more == M.More(old(Abs())) && old(Abs()).order != [] && Abs() == M.HandleHead(old(Abs()))
      ensures forall k :: 0 <= k < |queue.nodes| ==> queue.nodes[k] in old(queue.nodes)
    {
      MoreIsDue();
      var entry := queue.advQ;
      more := entry.qnext != null && entry.timeout == 0;
      Turn(entry);
    }

    lemma HeadOfDue(n: nat)
      requires Valid() && P.ExactlyDue(Abs(), n) && n > 0
      ensures queue.advQ != null && (M.More(Abs()) <==> n > 1)
      ensures n > 1 ==> M.Lasting(Abs(), Abs().order[0])
    {
      var s := Abs();
      assert queue.advQ == queue.nodes[0];
    }

    /** A turn of the loop while the first n entries are due. */
    method ExpireNext(ghost n: nat, ghost r: M.Daemon) returns (more: bool)
      requires Valid() && n > 0 && P.ExactlyDue(Abs(), n) && M.HandleTimes(Abs(), n) == r
      modifies queue, queue.nodes`timeout, queue.nodes`qnext, queue.nodes`qprev, `sent, registry.insts`state
      ensures Valid() && M.HandleTimes(Abs(), n - 1) == r && (more <==> n > 1)
      ensures n > 1 ==> P.ExactlyDue(Abs(), n - 1)
      ensures forall k :: 0 <= k < |queue.nodes| ==> queue.nodes[k] in old(queue.nodes)
    {
      ghost var s := Abs();
      HeadOfDue(n);
      more := Expire();
      P.TurnLeavesTheRest(s, n, Abs());
    }

    /** signal_alarm, where it ends. It handles the entries that are due, each once. */
    method SignalAlarm()
      requires Valid() && M.Enabled(Abs(), M.Alarm)
      modifies queue, queue.nodes`timeout, queue.nodes`qnext, queue.nodes`qprev, `sent, registry.insts`state
      ensures Valid() && Abs() == M.DoAlarm(old(Abs()))
    {
      ghost var s := Abs();
      if queue.advQ != null {
        ghost var n, r := M.Ties(s.due), M.DoAlarm(s);
        P.TiesAreExactlyDue(s);
        var more := true;
        while more
          invariant Valid() && M.HandleTimes(Abs(), n) == r && (more <==> n > 0)
          invariant n > 0 ==> P.ExactlyDue(Abs(), n)
          invariant forall k :: 0 <= k < |queue.nodes| ==> queue.nodes[k] in old(queue.nodes)
          decreases n
        {
          more := ExpireNext(n, r);
          n := n - 1;
        }
      }
    }

    /** Time passes, at most until the alarm goes off. */
    method Elapse(usecs: Useconds)
      requires Valid() && M.Enabled(Abs(), M.Elapse(usecs as int))
      modifies queue`now, queue`alarm
      ensures Valid() && Abs() == M.Step(old(Abs()), M.Elapse(usecs as int)).0
    {
      ghost var s := Abs();
      R.StepKeepsInvExactly(s, M.Elapse(usecs as int));
      queue.Elapse(usecs);
      assert Shape();
      assert InstsOf(registry.insts) == s.insts;
      assert Abs() == s.(now := s.now + usecs as int);
    }
  }
}
