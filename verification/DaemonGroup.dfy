/** Daemons that back one virtual router each, as the routers of the election: its safety, and what a
    round of advertisements and a handover elect, hold of them. */
module DaemonGroup {
  import opened Protocol
  import opened Objects
  import opened Lists
  import opened KeyLists
  import opened DaemonModel
  import opened DaemonProofs
  import opened DaemonRuns
  import opened DaemonFleet
  import E = Election

  /** The daemon as a router; without an instance it is a router that is down. */
  function View(s: Daemon, was: E.Router): E.Router {
    if s.insts == [] then was.(state := Init)
    else E.Router(s.insts[0].pri, s.insts[0].preempt, s.insts[0].state)
  }

  /** What the step of router j is in the election, for an advertisement that came from `from`. */
  function EventOf(s: Daemon, e: Event, j: nat, from: nat): Option<E.Event>
    requires WellQueued(s) && |s.flag| == 256
  {
    match e
    case Create(_, pri, _, _, _, _) =>
      if DoCreate(s, e).1 == Success && pri == 255 then Some(E.OwnerCreated(j)) else None
    case Startup(query) =>
      if DoStartup(s, query).1 == Success then Some(E.Startup(j, AnyMasterUp(s.flag))) else None
    case Shutdown(query) => if DoShutdown(s, query).1 == Success then Some(E.Shutdown(j)) else None
    case Destroy(query) => if DoDestroy(s, query).1 == Success then Some(E.Destroy(j)) else None
    case Receive(port, af, a) =>
      if s.insts != [] && (a.pri == 0 || (a.id != 0 && Search(Keys(s.insts), Key(a.id, port, af)).Some?))
      then Some(E.Deliver(E.Message(from, a.pri), j)) else None
    case Alarm => if s.due == [] then None else if s.insts == [] then None
      else if s.insts[0].state == Master then Some(E.Advertise(j)) else Some(E.Expire(j))
    case Modify(_, _, _, _, _) => None
    case Elapse(_) => None
  }

  /** The daemon has at most the one instance it is configured for, before and after the step. */
  predicate Configured(s: Daemon, e: Event, was: E.Router) {
    && |s.insts| <= 1
    && (e.Create? ==> s.insts == [] && e.pri == was.pri && e.preempt == was.preempt)
    && (e.Modify? ==> e.newPri == UNCHANGE && e.newPreempt == UNCHANGE)
  }

  function Next(net: E.Net, ev: Option<E.Event>): E.Net
    requires ev.Some? ==> E.Enabled(net, ev.value)
  {
    if ev.None? then net else E.Apply(E.AsWritten, net, ev.value)
  }

  function Messages(adverts: seq<Advert>, j: nat): set<E.Message> {
    set k | 0 <= k < |adverts| :: E.Message(j, adverts[k].pri)
  }

  /** The step from s to r of the daemon that router j stands for shows in the election as the step
      from net to net', and every advertisement it multicasts as a message. */
  ghost predicate Mirrored(s: Daemon, r: Daemon, net: E.Net, net': E.Net, j: nat) {
    && j < |net.routers|
    && net'.routers == net.routers[j := View(r, net.routers[j])]
    && s.sent <= r.sent && net'.sent == net.sent + Messages(r.sent[|s.sent|..], j)
  }

  ghost predicate Shown(s: Daemon, net: E.Net, j: nat) {
    Inv(s) && |s.insts| <= 1 && j < |net.routers| && net.routers[j] == View(s, net.routers[j])
  }

  lemma Silent(s: Daemon, r: Daemon, net: E.Net, state: State, j: nat)
    requires Shown(s, net, j) && r.sent == s.sent
    requires View(r, net.routers[j]) == net.routers[j].(state := state)
    ensures Mirrored(s, r, net, net.Become(j, state), j)
  {
    assert r.sent[|s.sent|..] == [];
  }

  lemma Idle(s: Daemon, r: Daemon, net: E.Net, j: nat)
    requires Shown(s, net, j) && r.sent == s.sent && View(r, net.routers[j]) == net.routers[j]
    ensures Mirrored(s, r, net, net, j)
  {
    assert r.sent[|s.sent|..] == [];
    assert net.routers[j := net.routers[j]] == net.routers;
  }

  lemma Heard(s: Daemon, r: Daemon, net: E.Net, state: State, a: Advert, j: nat)
    requires Shown(s, net, j) && r.sent == s.sent + [a]
    requires View(r, net.routers[j]) == net.routers[j].(state := state)
    ensures Mirrored(s, r, net, net.Become(j, state).Post(j, a.pri), j)
  {
    assert r.sent[|s.sent|..] == [a];
    assert Messages([a], j) == {E.Message(j, a.pri)} by {
      assert [a][0] == a;
    }
  }

  /** The daemon's step is the election's step EventOf names, or none. */
  ghost predicate Follows(s: Daemon, e: Event, net: E.Net, j: nat, from: nat)
    requires WellQueued(s) && |s.flag| == 256
  {
    var ev := EventOf(s, e, j, from);
    && (ev.Some? ==> E.Enabled(net, ev.value))
    && Mirrored(s, Step(s, e).0, net, Next(net, ev), j)
  }

  lemma StartupFollows(s: Daemon, query: Key, net: E.Net, j: nat, from: nat)
    requires Shown(s, net, j)
    ensures Follows(s, Startup(query), net, j, from)
  {
    var (r, ret) := DoStartup(s, query);
    if ret == Success {
      Silent(s, r, net, if AnyMasterUp(s.flag) then Backup else Master, j);
    } else {
      Idle(s, r, net, j);
    }
  }

  lemma ShutdownFollows(s: Daemon, query: Key, net: E.Net, j: nat, from: nat)
    requires Shown(s, net, j)
    ensures Follows(s, Shutdown(query), net, j, from)
  {
    var (r, ret) := DoShutdown(s, query);
    if ret != Success {
      Idle(s, r, net, j);
    } else if s.insts[0].state == Master {
      Heard(s, r, net, Init, Advert(s.insts[0].key.id, 0), j);
    } else {
      Silent(s, r, net, Init, j);
    }
  }

  lemma DestroyFollows(s: Daemon, query: Key, net: E.Net, j: nat, from: nat)
    requires Shown(s, net, j) && Proper(s, Destroy(query))
    ensures Follows(s, Destroy(query), net, j, from)
  {
    var (r, ret) := DoDestroy(s, query);
    if ret == Success {
      DestroyEffect(s, query);
      Heard(s, r, net, Init, Advert(s.insts[0].key.id, 0), j);
    } else {
      Idle(s, r, net, j);
    }
  }

  lemma DestroyEffect(s: Daemon, query: Key)
    requires Inv(s) && |s.insts| == 1 && Proper(s, Destroy(query)) && DoDestroy(s, query).1 == Success
    ensures var r := DoDestroy(s, query).0;
      r.insts == [] && r.sent == s.sent + [Advert(s.insts[0].key.id, 0)]
  {
  }

  lemma CreateFollows(s: Daemon, e: Event, net: E.Net, j: nat, from: nat)
    requires Shown(s, net, j) && e.Create? && Configured(s, e, net.routers[j])
    ensures Follows(s, e, net, j, from)
  {
    var (r, ret) := DoCreate(s, e);
    if ret == Success && e.pri == 255 {
      Silent(s, r, net, Master, j);
    } else {
      Idle(s, r, net, j);
    }
  }

  lemma ModifyFollows(s: Daemon, e: Event, net: E.Net, j: nat, from: nat)
    requires Shown(s, net, j) && e.Modify? && Configured(s, e, net.routers[j])
    ensures Follows(s, e, net, j, from)
  {
    Idle(s, DoModify(s, e).0, net, j);
  }

  lemma OneTurn(s: Daemon)
    requires WellQueued(s) && |s.due| == 1
    ensures DoAlarm(s) == HandleHead(s)
  {
    assert HandleTimes(s, 1) == HandleTimes(HandleHead(s), 0);
  }

  lemma AlarmEffect(s: Daemon, r: Daemon)
    requires Inv(s) && |s.insts| <= 1 && s.due != [] && r == DoAlarm(s)
    ensures |s.insts| == 1 && s.insts[0].state != Init && r.insts == [s.insts[0].(state := Master)]
    ensures var x := s.insts[0];
      r.sent == s.sent + if x.state == Master then [Advert(x.key.id, x.pri)] else []
  {
    OnlyEntry(s);
    OneTurn(s);
    var i := HeadOwner(s);
  }

  lemma AlarmFollows(s: Daemon, net: E.Net, j: nat, from: nat)
    requires Shown(s, net, j) && Enabled(s, Alarm)
    ensures Follows(s, Alarm, net, j, from)
  {
    if s.due == [] {
      Idle(s, s, net, j);
    } else {
      var r := DoAlarm(s);
      AlarmEffect(s, r);
      if s.insts[0].state == Master {
        Heard(s, r, net, Master, Advert(s.insts[0].key.id, s.insts[0].pri), j);
      } else {
        Silent(s, r, net, Master, j);
      }
    }
  }

  lemma OnlyEntry(s: Daemon)
    requires Inv(s) && |s.insts| <= 1 && s.due != []
    ensures |s.insts| == 1 && |s.due| == 1
  {
    if |s.order| > 1 {
      TwoDiffer(s.order);
    }
    forall i | 0 <= i < |s.order|
      ensures |s.insts| == 1 && s.order[i] == s.insts[0].key
    {
      assert s.order[i] in Keys(s.insts);
    }
  }

  lemma TwoDiffer(order: seq<Key>)
    requires Distinct(order) && |order| > 1
    ensures order[0] != order[1]
  {
    DistinctPairs(order);
  }

  lemma FarewellEffect(s: Daemon, port: string, af: int, a: Advert)
    requires Inv(s) && |s.insts| == 1 && a.pri == 0
    ensures var (r, x) := (DoReceive(s, port, af, a).0, s.insts[0]);
      r.sent == s.sent && r.insts == [if x.state == Backup then x.(state := Master) else x]
  {
  }

  lemma ProcessAdvertEffect(s: Daemon, heard: Byte)
    requires WellQueued(s) && |s.insts| == 1 && heard != 0
    requires React(s.insts[0].state, s.insts[0].pri, s.insts[0].preempt, heard) != SteppedDown
    ensures ProcessAdvert(s, 0, heard).sent == s.sent && ProcessAdvert(s, 0, heard).insts == s.insts
  {
  }

  lemma FarewellFollows(s: Daemon, port: string, af: int, a: Advert, net: E.Net, j: nat, from: nat)
    requires Shown(s, net, j) && from != j && E.Message(from, a.pri) in net.sent && a.pri == 0
    ensures Follows(s, Receive(port, af, a), net, j, from)
  {
    var r := DoReceive(s, port, af, a).0;
    if s.insts == [] {
      Idle(s, r, net, j);
    } else {
      FarewellEffect(s, port, af, a);
      if s.insts[0].state == Backup {
        Silent(s, r, net, Master, j);
      } else {
        Idle(s, r, net, j);
      }
    }
  }

  lemma ReceiveFollows(s: Daemon, port: string, af: int, a: Advert, net: E.Net, j: nat, from: nat)
    requires Shown(s, net, j) && from != j && E.Message(from, a.pri) in net.sent
    ensures Follows(s, Receive(port, af, a), net, j, from)
  {
    var r := DoReceive(s, port, af, a).0;
    if a.pri == 0 {
      FarewellFollows(s, port, af, a, net, j, from);
    } else if a.id == 0 || Search(Keys(s.insts), Key(a.id, port, af)) == None {
      Idle(s, r, net, j);
    } else {
      var x := s.insts[0];
      if React(x.state, x.pri, x.preempt, a.pri) == SteppedDown {
        DemotionIsStable(s, port, af, a, 0, r);
        Heard(s, r, net, Backup, Advert(x.key.id, 0), j);
      } else {
        ProcessAdvertEffect(Noted(s, a), a.pri);
        Idle(s, r, net, j);
      }
    }
  }

  /** A daemon with one instance is a router of the election: each of its steps is the step EventOf
      names, or none. */
  lemma StepFollows(s: Daemon, e: Event, net: E.Net, j: nat, from: nat)
    requires Shown(s, net, j) && Enabled(s, e) && Proper(s, e) && Configured(s, e, net.routers[j])
    requires e.Receive? ==> from != j && E.Message(from, e.advert.pri) in net.sent
    ensures Follows(s, e, net, j, from)
  {
    match e
    case Create(_, _, _, _, _, _) => CreateFollows(s, e, net, j, from);
    case Destroy(query) => DestroyFollows(s, query, net, j, from);
    case Startup(query) => StartupFollows(s, query, net, j, from);
    case Shutdown(query) => ShutdownFollows(s, query, net, j, from);
    case Modify(_, _, _, _, _) => ModifyFollows(s, e, net, j, from);
    case Receive(port, af, a) => ReceiveFollows(s, port, af, a, net, j, from);
    case Alarm => AlarmFollows(s, net, j, from);
    case Elapse(_) => Idle(s, Step(s, e).0, net, j);
  }

  lemma StepKeepsOne(s: Daemon, e: Event)
    requires Inv(s) && Enabled(s, e) && |s.insts| <= 1 && (e.Create? ==> s.insts == [])
    ensures |Step(s, e).0.insts| <= 1
  {
    match e
    case Alarm =>
      if s.due != [] {
        AlarmEffect(s, DoAlarm(s));
      }
    case Receive(port, af, a) => ReceiveKeepsOne(s, port, af, a);
    case Destroy(query) => DestroyKeepsOne(s, query);
    case _ =>
  }

  lemma ReceiveKeepsOne(s: Daemon, port: string, af: int, a: Advert)
    requires WellQueued(s) && |s.flag| == 256
    ensures |DoReceive(s, port, af, a).0.insts| == |s.insts|
  {
  }

  lemma DestroyKeepsOne(s: Daemon, query: Key)
    requires WellQueued(s)
    ensures |DoDestroy(s, query).0.insts| <= |s.insts|
  {
  }

  // ----- Runs of a group of daemons -----

  /** A turn of a daemon as it is configured, with advertisements from the others. */
  ghost predicate Taken(ds: seq<Daemon>, t: Turn, ds': seq<Daemon>, config: seq<E.Router>) {
    && Took(ds, t, ds') && |ds| == |config| && Configured(ds[t.j], t.e, config[t.j])
    && (t.e.Receive? ==> t.from != t.j)
  }

  ghost predicate Broadcast(s: Daemon, net: E.Net, j: nat) {
    forall a :: a in s.sent ==> E.Message(j, a.pri) in net.sent
  }

  /** The network stands for the daemons, in the configuration they have. */
  ghost predicate Tracks(ds: seq<Daemon>, net: E.Net, config: seq<E.Router>) {
    && |ds| == |net.routers| == |config|
    && forall j: nat :: j < |ds| ==> Tracked(ds, net, config, j)
  }

  ghost predicate Tracked(ds: seq<Daemon>, net: E.Net, config: seq<E.Router>, j: nat)
    requires j < |ds| == |net.routers| == |config|
  {
    && Shown(ds[j], net, j) && Broadcast(ds[j], net, j)
    && net.routers[j].pri == config[j].pri && net.routers[j].preempt == config[j].preempt
  }

  lemma BroadcastKept(s: Daemon, r: Daemon, net: E.Net, net': E.Net, j: nat)
    requires Broadcast(s, net, j) && Mirrored(s, r, net, net', j)
    ensures Broadcast(r, net', j)
  {
    forall a | a in r.sent
      ensures E.Message(j, a.pri) in net'.sent
    {
      var k :| 0 <= k < |r.sent| && r.sent[k] == a;
      if k < |s.sent| {
        assert s.sent[k] == a;
      } else {
        assert r.sent[|s.sent|..][k - |s.sent|] == a;
      }
    }
  }

  lemma ConfigKept(net: E.Net, ev: Option<E.Event>)
    requires ev.Some? ==> E.Enabled(net, ev.value)
    ensures |Next(net, ev).routers| == |net.routers|
    ensures forall k: nat :: k < |net.routers| ==>
      Next(net, ev).routers[k].pri == net.routers[k].pri && Next(net, ev).routers[k].preempt == net.routers[k].preempt
  {
  }

  /** A turn of one daemon is a step of the network that stands for all of them. */
  lemma TurnTracked(ds: seq<Daemon>, t: Turn, ds': seq<Daemon>, config: seq<E.Router>, net: E.Net)
    requires Tracks(ds, net, config) && Taken(ds, t, ds', config)
    ensures var ev := EventOf(ds[t.j], t.e, t.j, t.from);
      && (ev.Some? ==> E.Enabled(net, ev.value))
      && Tracks(ds', Next(net, ev), config)
  {
    var (j, s, r) := (t.j, ds[t.j], ds'[t.j]);
    assert Tracked(ds, net, config, j);
    if t.e.Receive? {
      assert Tracked(ds, net, config, t.from);
    }
    StepFollows(s, t.e, net, j, t.from);
    StepKeepsInvExactly(s, t.e);
    StepKeepsOne(s, t.e);
    var net' := Next(net, EventOf(s, t.e, j, t.from));
    BroadcastKept(s, r, net, net', j);
    ConfigKept(net, EventOf(s, t.e, j, t.from));
    forall k: nat | k < |ds'|
      ensures Tracked(ds', net', config, k)
    {
      assert Tracked(ds, net, config, k);
    }
  }

  /** The daemons start without instances and take turns in any order; advertisements may be lost,
      delayed, reordered or duplicated. */
  ghost predicate GroupRun(dss: seq<seq<Daemon>>, ts: seq<Turn>, config: seq<E.Router>) {
    && |dss| == |ts| + 1 && (forall i: nat :: i < |dss| ==> |dss[i]| == |config|)
    && (forall j: nat :: j < |config| ==> dss[0][j] == BOOT)
    && forall i: nat :: i < |ts| ==> Taken(dss[i], ts[i], dss[i + 1], config)
  }

  function AllDown(config: seq<E.Router>): (r: seq<E.Router>)
    ensures |r| == |config|
  {
    seq(|config|, j requires 0 <= j < |config| => config[j].(state := Init))
  }

  lemma BootTracked(ds: seq<Daemon>, config: seq<E.Router>) returns (net: E.Net)
    requires |ds| == |config| && forall j: nat :: j < |ds| ==> ds[j] == BOOT
    ensures Tracks(ds, net, config) && E.Honest(net)
  {
    BootIsSound();
    net := E.Net(AllDown(config), {});
  }

  /** At every point of every run some network the election allows stands for the daemons. */
  lemma {:induction false} RunTracked(dss: seq<seq<Daemon>>, ts: seq<Turn>, config: seq<E.Router>, n: nat)
    returns (net: E.Net)
    requires GroupRun(dss, ts, config) && n < |dss|
    ensures Tracks(dss[n], net, config) && E.Honest(net)
    decreases n
  {
    if n == 0 {
      net := BootTracked(dss[0], config);
    } else {
      var was := RunTracked(dss, ts, config, n - 1);
      var t := ts[n - 1];
      assert Taken(dss[n - 1], t, dss[n - 1 + 1], config);
      TurnTracked(dss[n - 1], t, dss[n], config, was);
      var ev := EventOf(dss[n - 1][t.j], t.e, t.j, t.from);
      net := Next(was, ev);
      if ev.Some? {
        E.StepStaysHonest(E.AsWritten, was, ev.value);
      }
    }
  }

  predicate Leads(s: Daemon) {
    s.insts != [] && s.insts[0].state == Master
  }

  ghost predicate HighestConfigured(config: seq<E.Router>, j: nat) {
    j < |config| && forall k: nat :: k < |config| ==> config[k].pri <= config[j].pri
  }

  predicate Withdraws(t: Turn, j: nat) {
    t.j == j && (t.e.Shutdown? || t.e.Destroy?)
  }

  lemma LeadIsKept(ds: seq<Daemon>, t: Turn, ds': seq<Daemon>, config: seq<E.Router>, net: E.Net, j: nat)
    requires Tracks(ds, net, config) && E.Honest(net) && Taken(ds, t, ds', config)
    requires j < |ds| && Leads(ds[j]) && !Withdraws(t, j)
    requires HighestConfigured(config, j)
    ensures Leads(ds'[j])
  {
    TurnTracked(ds, t, ds', config, net);
    var ev := EventOf(ds[t.j], t.e, t.j, t.from);
    assert Tracked(ds, net, config, j);
    forall k: nat | k < |net.routers|
      ensures net.Pri(k) <= net.Pri(j)
    {
      assert Tracked(ds, net, config, k);
    }
    if ev.Some? {
      E.TopMasterLeavesOnlyByItself(E.AsWritten, net, ev.value, j);
    }
    assert Tracked(ds', Next(net, ev), config, j);
  }

  /** Whatever the other daemons do and whatever becomes of the advertisements, a MASTER with the
      highest configured priority stays MASTER until it is shut down or destroyed itself. */
  lemma {:induction false} TopDaemonIsNeverDeposed(dss: seq<seq<Daemon>>, ts: seq<Turn>, config: seq<E.Router>,
                                                   j: nat, m: nat, n: nat)
    requires GroupRun(dss, ts, config) && m <= n <= |ts| && HighestConfigured(config, j)
    requires Leads(dss[m][j])
    requires forall i: nat :: m <= i < n ==> !Withdraws(ts[i], j)
    ensures Leads(dss[n][j])
    decreases n
  {
    if n > m {
      TopDaemonIsNeverDeposed(dss, ts, config, j, m, n - 1);
      var net := RunTracked(dss, ts, config, n - 1);
      assert Taken(dss[n - 1], ts[n - 1], dss[n - 1 + 1], config);
      LeadIsKept(dss[n - 1], ts[n - 1], dss[n], config, net, j);
    }
  }

  // ----- Elections among daemons -----

  /** Some network stands for the daemons. */
  ghost predicate Represented(ds: seq<Daemon>, config: seq<E.Router>) {
    exists net :: Tracks(ds, net, config)
  }

  /** At every point of every run of a group there is one, and what follows holds from there on. */
  lemma RunsAreRepresented(dss: seq<seq<Daemon>>, ts: seq<Turn>, config: seq<E.Router>, n: nat)
    requires GroupRun(dss, ts, config) && n < |dss|
    ensures Represented(dss[n], config)
  {
    var net := RunTracked(dss, ts, config, n);
  }

  ghost predicate Alive(s: Daemon) {
    s.insts != [] && s.insts[0].state != Init
  }

  /** The turn hands the advertisement of the hop's sender to the instance of its receiver. */
  ghost predicate Carries(ds: seq<Daemon>, t: Turn, h: E.Hop, pri: nat) {
    && t.j == h.dst < |ds| && t.from == h.from && t.e.Receive? && t.e.advert.pri == pri
    && (ds[t.j].insts != [] ==>
          pri == 0 || (t.e.advert.id != 0 &&
            Search(Keys(ds[t.j].insts), Key(t.e.advert.id, t.e.port, t.e.af)).Some?))
  }

  lemma TrackedStates(ds: seq<Daemon>, net: E.Net, config: seq<E.Router>, j: nat)
    requires Tracks(ds, net, config) && j < |ds|
    ensures Leads(ds[j]) <==> net.State(j) == Master
    ensures Alive(ds[j]) <==> E.Live(net, j)
    ensures net.Pri(j) == config[j].pri
  {
    assert Tracked(ds, net, config, j);
  }

  /** A delivery among daemons is the one among routers. */
  lemma HopTracked(ds: seq<Daemon>, t: Turn, ds': seq<Daemon>, config: seq<E.Router>, net: E.Net, h: E.Hop, pri: nat)
    requires Tracks(ds, net, config) && Taken(ds, t, ds', config) && Carries(ds, t, h, pri)
    ensures h.dst < |net.routers| && Tracks(ds', E.Receive(E.AsWritten, net, pri, h.dst), config)
  {
    TurnTracked(ds, t, ds', config, net);
    assert Tracked(ds, net, config, t.j);
    if ds[t.j].insts == [] {
      assert net.State(t.j) == Init;
    }
  }

  ghost predicate InRange(hops: seq<E.Hop>, count: nat) {
    forall h :: h in hops ==> h.from < count && h.dst < count
  }

  ghost predicate Segment(dss: seq<seq<Daemon>>, ts: seq<Turn>, config: seq<E.Router>) {
    && |dss| == |ts| + 1 && |dss[0]| == |config|
    && forall i: nat :: i < |ts| ==> Taken(dss[i], ts[i], dss[i + 1], config)
  }

  lemma SegmentTail(dss: seq<seq<Daemon>>, ts: seq<Turn>, config: seq<E.Router>)
    requires Segment(dss, ts, config) && ts != []
    ensures Taken(dss[0], ts[0], dss[1], config) && Segment(dss[1..], ts[1..], config)
  {
    assert Taken(dss[0], ts[0], dss[0 + 1], config);
    forall i: nat | i < |ts[1..]|
      ensures Taken(dss[1..][i], ts[1..][i], dss[1..][i + 1], config)
    {
      assert Taken(dss[i + 1], ts[i + 1], dss[i + 1 + 1], config);
    }
  }

  /** The turns hand over the advertisements of the hops, in their order. */
  ghost predicate Rounds(dss: seq<seq<Daemon>>, ts: seq<Turn>, config: seq<E.Router>, hops: seq<E.Hop>)
    requires InRange(hops, |config|)
  {
    && |dss| == |ts| + 1 && |ts| == |hops|
    && forall i: nat :: i < |hops| && hops[i] in hops ==> Carries(dss[i], ts[i], hops[i], config[hops[i].from].pri)
  }

  lemma {:induction false} RoundTracked(dss: seq<seq<Daemon>>, ts: seq<Turn>, config: seq<E.Router>, net: E.Net,
                                        hops: seq<E.Hop>) returns (after: E.Net)
    requires Segment(dss, ts, config) && Tracks(dss[0], net, config)
    requires InRange(hops, |config|) && Rounds(dss, ts, config, hops)
    ensures Tracks(dss[|ts|], after, config) && after == E.Round(E.AsWritten, net, hops)
    decreases hops
  {
    if hops == [] {
      after := net;
    } else {
      var h := hops[0];
      assert h in hops && Carries(dss[0], ts[0], h, config[h.from].pri);
      TrackedStates(dss[0], net, config, h.from);
      SegmentTail(dss, ts, config);
      HopTracked(dss[0], ts[0], dss[1], config, net, h, config[h.from].pri);
      var next := E.Receive(E.AsWritten, net, net.Pri(h.from), h.dst);
      RoundsTail(dss, ts, config, hops);
      after := RoundTracked(dss[1..], ts[1..], config, next, hops[1..]);
    }
  }

  lemma RoundsTail(dss: seq<seq<Daemon>>, ts: seq<Turn>, config: seq<E.Router>, hops: seq<E.Hop>)
    requires InRange(hops, |config|) && Rounds(dss, ts, config, hops) && hops != []
    ensures InRange(hops[1..], |config|) && Rounds(dss[1..], ts[1..], config, hops[1..])
  {
    forall i: nat | i < |hops[1..]|
      ensures Carries(dss[1..][i], ts[1..][i], hops[1..][i], config[hops[1..][i].from].pri)
    {
      assert hops[i + 1] in hops && Carries(dss[i + 1], ts[i + 1], hops[i + 1], config[hops[i + 1].from].pri);
    }
  }

  /** Every master's advertisement reaches every other daemon. */
  ghost predicate FullRound(ds: seq<Daemon>, hops: seq<E.Hop>) {
    && (forall h :: h in hops ==> h.from < |ds| && h.dst < |ds| && h.from != h.dst && Leads(ds[h.from]))
    && (forall f: nat, t: nat :: f < |ds| && t < |ds| && f != t && Leads(ds[f]) ==> E.Hop(f, t) in hops)
  }

  ghost predicate OnlyLeader(ds: seq<Daemon>, t: nat) {
    t < |ds| && forall j: nat :: j < |ds| ==> (Leads(ds[j]) <==> j == t)
  }

  ghost predicate BestLeader(ds: seq<Daemon>, config: seq<E.Router>, t: nat)
    requires |ds| == |config|
  {
    && t < |ds| && Leads(ds[t])
    && forall i: nat :: i < |ds| && i != t && Leads(ds[i]) ==> config[i].pri < config[t].pri
  }

  ghost predicate PositiveLeaders(ds: seq<Daemon>, config: seq<E.Router>)
    requires |ds| == |config|
  {
    forall i: nat :: i < |ds| && Leads(ds[i]) ==> 0 < config[i].pri
  }

  lemma TrackedRound(ds: seq<Daemon>, net: E.Net, config: seq<E.Router>, hops: seq<E.Hop>)
    requires Tracks(ds, net, config)
    ensures FullRound(ds, hops) <==> E.FullRound(net, hops)
    ensures PositiveLeaders(ds, config) <==> E.PositiveMasters(net)
    ensures forall t: nat :: OnlyLeader(ds, t) <==> E.SoleMaster(net, t)
    ensures forall t: nat :: BestLeader(ds, config, t) <==> E.StrictlyBestMaster(net, t)
  {
    forall j: nat | j < |ds|
      ensures (Leads(ds[j]) <==> net.State(j) == Master) && net.Pri(j) == config[j].pri
    {
      TrackedStates(ds, net, config, j);
    }
  }

  /** In every run of a group, once every master's advertisement has reached every other daemon, in
      whatever order, t is left as the only MASTER exactly when it was the strictly best one. */
  lemma RoundElectsTheBestDaemon(dss: seq<seq<Daemon>>, ts: seq<Turn>, config: seq<E.Router>, hops: seq<E.Hop>, t: nat)
    requires Segment(dss, ts, config) && Represented(dss[0], config) && PositiveLeaders(dss[0], config)
    requires InRange(hops, |config|) && Rounds(dss, ts, config, hops) && FullRound(dss[0], hops)
    requires exists m: nat :: m < |config| && Leads(dss[0][m])
    ensures |dss[|ts|]| == |config| && (OnlyLeader(dss[|ts|], t) <==> BestLeader(dss[0], config, t))
  {
    var net :| Tracks(dss[0], net, config);
    var after := RoundTracked(dss, ts, config, net, hops);
    TrackedRound(dss[0], net, config, hops);
    TrackedRound(dss[|ts|], after, config, hops);
    var m: nat :| m < |config| && Leads(dss[0][m]);
    TrackedStates(dss[0], net, config, m);
    E.RoundElectsTheBest(E.AsWritten, net, hops, t);
  }

  // ----- Handover among daemons -----

  ghost predicate Goodbyes(dss: seq<seq<Daemon>>, ts: seq<Turn>, from: nat, rs: seq<nat>) {
    && |dss| == |ts| + 1 && |ts| == |rs|
    && forall i: nat :: i < |rs| ==> Carries(dss[i], ts[i], E.Hop(from, rs[i]), 0)
  }

  lemma {:induction false} FarewellTracked(dss: seq<seq<Daemon>>, ts: seq<Turn>, config: seq<E.Router>, net: E.Net,
                                           from: nat, rs: seq<nat>) returns (after: E.Net)
    requires Segment(dss, ts, config) && Tracks(dss[0], net, config) && Goodbyes(dss, ts, from, rs)
    requires forall k :: 0 <= k < |rs| ==> rs[k] < |config|
    ensures Tracks(dss[|ts|], after, config) && after == E.Farewell(E.AsWritten, net, rs)
    decreases rs
  {
    if rs == [] {
      after := net;
    } else {
      SegmentTail(dss, ts, config);
      assert Carries(dss[0], ts[0], E.Hop(from, rs[0]), 0);
      HopTracked(dss[0], ts[0], dss[1], config, net, E.Hop(from, rs[0]), 0);
      forall i: nat | i < |rs[1..]|
        ensures Carries(dss[1..][i], ts[1..][i], E.Hop(from, rs[1..][i]), 0)
      {
        assert Carries(dss[i + 1], ts[i + 1], E.Hop(from, rs[i + 1]), 0);
      }
      after := FarewellTracked(dss[1..], ts[1..], config, E.Receive(E.AsWritten, net, 0, rs[0]), from, rs[1..]);
    }
  }

  lemma ShutdownTracked(ds: seq<Daemon>, t: Turn, ds': seq<Daemon>, config: seq<E.Router>, net: E.Net)
    requires Tracks(ds, net, config) && Taken(ds, t, ds', config)
    requires t.e.Shutdown? && DoShutdown(ds[t.j], t.e.query).1 == Success
    ensures E.Enabled(net, E.Shutdown(t.j)) && Tracks(ds', E.Apply(E.AsWritten, net, E.Shutdown(t.j)), config)
  {
    TurnTracked(ds, t, ds', config, net);
  }

  ghost predicate BestHeir(ds: seq<Daemon>, config: seq<E.Router>, t: nat, h: nat)
    requires |ds| == |config|
  {
    && h != t && h < |ds| && Alive(ds[h])
    && forall i: nat :: i < |ds| && i != h && i != t && Alive(ds[i]) ==> config[i].pri < config[h].pri
  }

  ghost predicate Heirs(ds: seq<Daemon>, config: seq<E.Router>, t: nat)
    requires |ds| == |config|
  {
    && (exists i: nat :: i < |ds| && i != t && Alive(ds[i]))
    && forall i: nat :: i < |ds| && i != t && Alive(ds[i]) ==> 0 < config[i].pri
  }

  lemma TrackedHeirs(ds: seq<Daemon>, net: E.Net, config: seq<E.Router>, t: nat)
    requires Tracks(ds, net, config)
    ensures Heirs(ds, config, t) ==> E.PositiveHeirs(net, t) && exists i: nat :: i != t && E.Live(net, i)
    ensures forall h: nat :: BestHeir(ds, config, t, h) <==> E.BestHeir(net, t, h)
  {
    forall i: nat | i < |ds|
      ensures (Alive(ds[i]) <==> E.Live(net, i)) && net.Pri(i) == config[i].pri
    {
      TrackedStates(ds, net, config, i);
    }
    if Heirs(ds, config, t) {
      var i: nat :| i < |ds| && i != t && Alive(ds[i]);
      assert E.Live(net, i);
    }
  }

  /** In every run of a group in which the only MASTER is shut down, its farewell then reaches all the
      others, and then the advertisements of the MASTERs there are by then do, h is left as the only
      MASTER exactly when it is the live daemon with a priority above that of every other one. */
  lemma HandoverElectsTheBestDaemon(
    ds: seq<Daemon>, bye: Turn, dss: seq<seq<Daemon>>, ts: seq<Turn>, ess: seq<seq<Daemon>>, us: seq<Turn>,
    config: seq<E.Router>, rs: seq<nat>, hops: seq<E.Hop>, h: nat)
    requires Represented(ds, config) && |ds| == |config| && OnlyLeader(ds, bye.j)
    requires Heirs(ds, config, bye.j)
    requires |dss| > 0 && Taken(ds, bye, dss[0], config)
    requires bye.e.Shutdown? && DoShutdown(ds[bye.j], bye.e.query).1 == Success
    requires Segment(dss, ts, config) && Goodbyes(dss, ts, bye.j, rs) && E.EverybodyBut(bye.j, |config|, rs)
    requires Segment(ess, us, config) && ess[0] == dss[|ts|] && InRange(hops, |config|)
    requires Rounds(ess, us, config, hops) && FullRound(ess[0], hops)
    ensures OnlyLeader(ess[|us|], h) <==> BestHeir(ds, config, bye.j, h)
  {
    var net :| Tracks(ds, net, config);
    TrackedRound(ds, net, config, hops);
    ShutdownTracked(ds, bye, dss[0], config, net);
    var down := E.Apply(E.AsWritten, net, E.Shutdown(bye.j));
    var woken := FarewellTracked(dss, ts, config, down, bye.j, rs);
    TrackedRound(ess[0], woken, config, hops);
    var end := RoundTracked(ess, us, config, woken, hops);
    TrackedRound(ess[|us|], end, config, hops);
    TrackedHeirs(ds, net, config, bye.j);
    E.HandoverElectsTheBestLive(E.AsWritten, net, bye.j, rs, hops, h);
  }
}
