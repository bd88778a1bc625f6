/** Any number of daemons with any number of virtual routers each, and the advertisements between
    them: a message that was ever multicast stays deliverable, and may be lost, delayed, reordered or
    duplicated. */
module DaemonFleet {
  import opened Protocol
  import opened Objects
  import opened Lists
  import opened KeyLists
  import opened DaemonModel
  import opened DaemonProofs
  import opened DaemonRuns

  // ----- One daemon -----

  /** The instance of this key is a MASTER of priority `pri` or more. */
  ghost predicate Holds(s: Daemon, key: Key, pri: Byte) {
    exists i :: 0 <= i < |s.insts| && s.insts[i].key == key && s.insts[i].state == Master && s.insts[i].pri >= pri
  }

  /** A command that is carried out shuts the instance of this key down, destroys it, or modifies its
      priority to one below `pri`. */
  predicate Resigns(s: Daemon, e: Event, key: Key, pri: Byte)
    requires WellQueued(s)
  {
    match e
    case Shutdown(query) => Touches(s, e, key)
    case Destroy(query) => Touches(s, e, key)
    case Modify(_, newPri, _, _, _) => Touches(s, e, key) && newPri != UNCHANGE && newPri % 256 < pri
    case _ => false
  }

  lemma HoldsAt(s: Daemon, i: nat, key: Key, pri: Byte)
    requires Registered(Keys(s.insts)) && i < |s.insts| && s.insts[i].key == key
    ensures Holds(s, key, pri) <==> s.insts[i].state == Master && s.insts[i].pri >= pri
  {
    KeysDiffer(s, i);
  }

  lemma HitAt(s: Daemon, query: Key, i: nat)
    requires Registered(Keys(s.insts)) && i < |s.insts| && Hits(s, query, s.insts[i].key)
    ensures Search(Keys(s.insts), query) == Some(i)
  {
    KeysDiffer(s, i);
  }

  lemma ShutdownEnds(s: Daemon, query: Key, i: nat, pri: Byte)
    requires Inv(s) && i < |s.insts| && Touches(s, Shutdown(query), s.insts[i].key)
    ensures !Holds(DoShutdown(s, query).0, s.insts[i].key, pri)
  {
    HitAt(s, query, i);
    ShutdownKeepsInv(s, query);
    ShutdownSchedulesExactly(s, query, i);
    HoldsAt(DoShutdown(s, query).0, i, s.insts[i].key, pri);
  }

  lemma DestroyEnds(s: Daemon, query: Key, i: nat, pri: Byte)
    requires Inv(s) && i < |s.insts| && Proper(s, Destroy(query)) && Touches(s, Destroy(query), s.insts[i].key)
    ensures !Holds(DoDestroy(s, query).0, s.insts[i].key, pri)
  {
    HitAt(s, query, i);
    DestroySchedulesExactly(s, query, i);
    var r := DoDestroy(s, query).0;
    KeysRemoved(s.insts, i);
    DistinctRemoved(Keys(s.insts), i);
    assert forall j :: 0 <= j < |r.insts| ==> Keys(r.insts)[j] == r.insts[j].key;
  }

  lemma ModifyEnds(s: Daemon, e: Event, i: nat, pri: Byte)
    requires Inv(s) && i < |s.insts| && e.Modify? && Touches(s, e, s.insts[i].key)
    requires s.insts[i].state == Master && s.insts[i].pri >= pri
    ensures Holds(DoModify(s, e).0, s.insts[i].key, pri) <==> !Resigns(s, e, s.insts[i].key, pri)
  {
    HitAt(s, e.query, i);
    ModifyKeepsInv(s, e);
    var queue := ModifyIsRetime(s, e, i);
    assert DoModify(s, e).0.insts[i] == Modified(s.insts[i], e);
    HoldsAt(DoModify(s, e).0, i, s.insts[i].key, pri);
  }

  lemma AdvertLeavesIt(s: Daemon, e: Event, i: nat)
    requires WellQueued(s) && Registered(Keys(s.insts)) && i < |s.insts| && e.Receive? && s.insts[i].state == Master
    requires e.advert.id == s.insts[i].key.id ==> e.advert.pri <= s.insts[i].pri
    ensures !Touches(s, e, s.insts[i].key)
  {
    KeysDiffer(s, i);
    var (a, key) := (e.advert, s.insts[i].key);
    if a.pri != 0 && a.id != 0 && Hits(s, Key(a.id, e.port, e.af), key) {
      HitAt(s, Key(a.id, e.port, e.af), i);
      assert Matches(Keys(s.insts)[i], Key(a.id, e.port, e.af));
    }
  }

  lemma AlarmLeavesIt(s: Daemon, i: nat, pri: Byte)
    requires Inv(s) && Enabled(s, Alarm) && i < |s.insts| && s.insts[i].state == Master && s.insts[i].pri >= pri
    ensures Holds(DoAlarm(s), s.insts[i].key, pri)
  {
    if s.due != [] {
      AlarmHandlesExactlyTheDue(s);
      assert DoAlarm(s).insts[i] == AllMaster(s.insts, s.order[..Ties(s.due)])[i] == s.insts[i];
    }
  }

  /** A MASTER of priority `pri` or more, in a daemon with whatever other instances, that hears of
      nothing above `pri` for its VRID: one step ends this exactly when it is a command that makes the
      instance itself resign. */
  lemma TopInstanceLeavesOnlyByItself(s: Daemon, e: Event, key: Key, pri: Byte)
    requires Inv(s) && Enabled(s, e) && Proper(s, e) && Holds(s, key, pri)
    requires e.Receive? && e.advert.id == key.id ==> e.advert.pri <= pri
    ensures Holds(Step(s, e).0, key, pri) <==> !Resigns(s, e, key, pri)
  {
    var i :| 0 <= i < |s.insts| && s.insts[i].key == key && s.insts[i].state == Master && s.insts[i].pri >= pri;
    if e == Alarm {
      AlarmLeavesIt(s, i, pri);
    } else if Touches(s, e, key) {
      match e
      case Shutdown(query) => ShutdownEnds(s, query, i, pri);
      case Destroy(query) => DestroyEnds(s, query, i, pri);
      case Modify(_, _, _, _, _) => ModifyEnds(s, e, i, pri);
      case Startup(query) => HitAt(s, query, i);
      case Receive(_, _, _) => AdvertLeavesIt(s, e, i);
    } else {
      StepElsewhere(s, e, s.insts[i]);
    }
  }

  // ----- A cap on the priorities of a VRID -----

  predicate CappedInsts(insts: seq<Inst>, id: Byte, pri: Byte) {
    forall i :: 0 <= i < |insts| && insts[i].key.id == id ==> insts[i].pri <= pri
  }

  predicate CappedAdverts(adverts: seq<Advert>, id: Byte, pri: Byte) {
    forall i :: 0 <= i < |adverts| && adverts[i].id == id ==> adverts[i].pri <= pri
  }

  /** No instance of the VRID has a priority above `pri`, and none was ever advertised. */
  predicate Capped(s: Daemon, id: Byte, pri: Byte) {
    CappedInsts(s.insts, id, pri) && CappedAdverts(s.sent, id, pri)
  }

  /** The command does not configure a priority above `pri` for the VRID. */
  predicate Within(s: Daemon, e: Event, id: Byte, pri: Byte) {
    match e
    case Create(key, p, _, _, _, _) => key.id == id ==> p <= pri
    case Modify(query, newPri, _, _, _) =>
      var found := Search(Keys(s.insts), query);
      found.Some? && s.insts[found.value].key.id == id && newPri != UNCHANGE ==> newPri % 256 <= pri
    case _ => true
  }

  ghost predicate SameRanks(a: seq<Inst>, b: seq<Inst>) {
    |a| == |b| && forall i :: 0 <= i < |a| ==> a[i].key == b[i].key && a[i].pri == b[i].pri
  }

  /** From s to r no priority changes, and at most a farewell is multicast. */
  ghost predicate RanksKept(s: Daemon, r: Daemon) {
    SameRanks(s.insts, r.insts) && (r.sent == s.sent || exists id: Byte :: r.sent == s.sent + [Advert(id, 0)])
  }

  lemma KeptIsCapped(s: Daemon, r: Daemon, id: Byte, pri: Byte)
    requires Capped(s, id, pri) && RanksKept(s, r)
    ensures Capped(r, id, pri)
  {
  }

  lemma StartupRanks(s: Daemon, query: Key)
    requires Inv(s)
    ensures RanksKept(s, DoStartup(s, query).0)
  {
    if DoStartup(s, query).1 == Success {
      StartupSchedulesExactly(s, query, Search(Keys(s.insts), query).value, DoStartup(s, query).0);
    }
  }

  lemma ShutdownRanks(s: Daemon, query: Key)
    requires Inv(s)
    ensures RanksKept(s, DoShutdown(s, query).0)
  {
    if DoShutdown(s, query).1 == Success {
      ShutdownSchedulesExactly(s, query, Search(Keys(s.insts), query).value);
    }
  }

  lemma FallbackRanks(down: Daemon, i: nat, r: Daemon)
    requires WellQueued(down) && i < |down.insts| && r == UnlessMasterUp(down, i)
    ensures SameRanks(down.insts, r.insts) && r.sent == down.sent
  {
  }

  lemma StepDownRanks(s: Daemon, i: nat)
    requires WellQueued(s) && i < |s.insts|
    ensures RanksKept(s, MasterToBackup(s, i))
  {
    var x := s.insts[i];
    var down := Send(Become(Enter(Leave(s, x.key), x.key, Interval(x)), i, Backup), x.key.id, 0);
    assert SameRanks(s.insts, down.insts) && down.sent == s.sent + [Advert(x.key.id, 0)];
    FallbackRanks(down, i, MasterToBackup(s, i));
  }

  lemma FarewellRanks(s: Daemon)
    requires WellQueued(s)
    ensures RanksKept(s, Farewell(s).0)
  {
  }

  lemma ProcessAdvertRanks(s: Daemon, i: nat, heard: Byte)
    requires WellQueued(s) && i < |s.insts| && heard != 0
    ensures RanksKept(s, ProcessAdvert(s, i, heard))
  {
    StepDownRanks(s, i);
  }

  lemma NotedRanks(s: Daemon, noted: Daemon, r: Daemon)
    requires noted == s.(flag := noted.flag) && RanksKept(noted, r)
    ensures RanksKept(s, r)
  {
  }

  lemma ReceiveRanks(s: Daemon, port: string, af: int, a: Advert)
    requires WellQueued(s) && |s.flag| == 256
    ensures RanksKept(s, DoReceive(s, port, af, a).0)
  {
    var (noted, r) := (Noted(s, a), DoReceive(s, port, af, a).0);
    var found := Search(Keys(s.insts), Key(a.id, port, af));
    if a.pri == 0 {
      FarewellRanks(noted);
      NotedRanks(s, noted, r);
    } else if a.id != 0 && found.Some? {
      ProcessAdvertRanks(noted, found.value, a.pri);
      NotedRanks(s, noted, r);
    }
  }

  lemma CreateCapped(s: Daemon, e: Event, id: Byte, pri: Byte)
    requires Inv(s) && e.Create? && Capped(s, id, pri) && Within(s, e, id, pri)
    ensures Capped(DoCreate(s, e).0, id, pri)
  {
    if DoCreate(s, e).1 == Success {
      CreateSchedulesExactly(s, e);
    }
  }

  lemma RemovedCapped(s: Daemon, i: nat, r: Daemon, id: Byte, pri: Byte)
    requires Capped(s, id, pri) && i < |s.insts| && r.insts == Removed(s.insts, i)
    requires r.sent == s.sent + [Advert(s.insts[i].key.id, 0)]
    ensures Capped(r, id, pri)
  {
  }

  lemma DestroyCapped(s: Daemon, query: Key, id: Byte, pri: Byte)
    requires Inv(s) && Proper(s, Destroy(query)) && Capped(s, id, pri)
    ensures Capped(DoDestroy(s, query).0, id, pri)
  {
    if DoDestroy(s, query).1 == Success {
      var i := Search(Keys(s.insts), query).value;
      DestroySchedulesExactly(s, query, i);
      RemovedCapped(s, i, DoDestroy(s, query).0, id, pri);
    }
  }

  lemma ModifyCapped(s: Daemon, e: Event, id: Byte, pri: Byte)
    requires Inv(s) && e.Modify? && Capped(s, id, pri) && Within(s, e, id, pri)
    ensures Capped(DoModify(s, e).0, id, pri)
  {
    ModifyKeepsInv(s, e);
    if DoModify(s, e).1 == Success {
      var i := Search(Keys(s.insts), e.query).value;
      var queue := ModifyIsRetime(s, e, i);
      assert DoModify(s, e).0.insts == s.insts[i := Modified(s.insts[i], e)];
    }
  }

  lemma {:induction false} AdvertsCapped(s: Daemon, keys: seq<Key>, id: Byte, pri: Byte)
    requires CappedInsts(s.insts, id, pri) && forall k :: k in keys ==> k in Keys(s.insts)
    ensures CappedAdverts(Adverts(s, keys), id, pri)
    decreases keys
  {
    if keys != [] {
      AdvertsCapped(s, keys[1..], id, pri);
    }
  }

  lemma AllMasterCapped(insts: seq<Inst>, keys: seq<Key>, id: Byte, pri: Byte)
    requires CappedInsts(insts, id, pri)
    ensures CappedInsts(AllMaster(insts, keys), id, pri)
  {
  }

  lemma TogetherCapped(a: seq<Advert>, b: seq<Advert>, id: Byte, pri: Byte)
    requires CappedAdverts(a, id, pri) && CappedAdverts(b, id, pri)
    ensures CappedAdverts(a + b, id, pri)
  {
  }

  lemma HandledCapped(s: Daemon, r: Daemon, heads: seq<Key>, id: Byte, pri: Byte)
    requires Capped(s, id, pri) && (forall k :: k in heads ==> k in Keys(s.insts))
    requires r.insts == AllMaster(s.insts, heads) && r.sent == s.sent + Adverts(s, heads)
    ensures Capped(r, id, pri)
  {
    AllMasterCapped(s.insts, heads, id, pri);
    AdvertsCapped(s, heads, id, pri);
    TogetherCapped(s.sent, Adverts(s, heads), id, pri);
  }

  lemma AlarmCapped(s: Daemon, id: Byte, pri: Byte)
    requires Inv(s) && Enabled(s, Alarm) && Capped(s, id, pri)
    ensures Capped(DoAlarm(s), id, pri)
  {
    if s.due != [] {
      AlarmHandlesExactlyTheDue(s);
      HandledCapped(s, DoAlarm(s), s.order[..Ties(s.due)], id, pri);
    }
  }

  /** A step that configures no priority above the cap advertises none either. */
  lemma StepStaysCapped(s: Daemon, e: Event, id: Byte, pri: Byte)
    requires Inv(s) && Enabled(s, e) && Proper(s, e) && Capped(s, id, pri) && Within(s, e, id, pri)
    ensures Capped(Step(s, e).0, id, pri)
  {
    match e
    case Create(_, _, _, _, _, _) => CreateCapped(s, e, id, pri);
    case Destroy(query) => DestroyCapped(s, query, id, pri);
    case Startup(query) =>
      StartupRanks(s, query);
      KeptIsCapped(s, DoStartup(s, query).0, id, pri);
    case Shutdown(query) =>
      ShutdownRanks(s, query);
      KeptIsCapped(s, DoShutdown(s, query).0, id, pri);
    case Modify(_, _, _, _, _) => ModifyCapped(s, e, id, pri);
    case Receive(port, af, a) =>
      ReceiveRanks(s, port, af, a);
      KeptIsCapped(s, DoReceive(s, port, af, a).0, id, pri);
    case Alarm => AlarmCapped(s, id, pri);
    case Elapse(_) =>
  }

  // ----- Runs of the fleet -----

  /** Daemon j takes the step e; an advertisement it receives was multicast by the daemon `from`. */
  datatype Turn = Turn(j: nat, e: Event, from: nat)

  ghost predicate Took(ds: seq<Daemon>, t: Turn, ds': seq<Daemon>) {
    && t.j < |ds| == |ds'| && ds' == ds[t.j := ds'[t.j]] && Stepped(ds[t.j], t.e, ds'[t.j])
    && (t.e.Receive? ==> t.from < |ds| && t.e.advert in ds[t.from].sent)
  }

  ghost predicate TookAt(dss: seq<seq<Daemon>>, ts: seq<Turn>, i: nat)
    requires i < |ts| < |dss|
  {
    Took(dss[i], ts[i], dss[i + 1])
  }

  /** The daemons take turns in any order. */
  ghost predicate FleetRun(dss: seq<seq<Daemon>>, ts: seq<Turn>) {
    && |dss| == |ts| + 1 && (forall j: nat :: j < |dss[0]| ==> Inv(dss[0][j]))
    && forall i: nat :: i < |ts| ==> TookAt(dss, ts, i)
  }

  /** Every daemon keeps its invariant and the cap. */
  ghost predicate AllCapped(ds: seq<Daemon>, id: Byte, pri: Byte) {
    forall j: nat :: j < |ds| ==> Inv(ds[j]) && Capped(ds[j], id, pri)
  }

  ghost predicate WithinAt(dss: seq<seq<Daemon>>, ts: seq<Turn>, id: Byte, pri: Byte, i: nat)
    requires i < |ts| < |dss|
  {
    ts[i].j < |dss[i]| ==> Within(dss[i][ts[i].j], ts[i].e, id, pri)
  }

  /** No turn configures a priority above the cap, and none was there before. */
  ghost predicate Disciplined(dss: seq<seq<Daemon>>, ts: seq<Turn>, id: Byte, pri: Byte) {
    && |dss| == |ts| + 1 && (forall j: nat :: j < |dss[0]| ==> Capped(dss[0][j], id, pri))
    && forall i: nat :: i < |ts| ==> WithinAt(dss, ts, id, pri, i)
  }

  lemma TurnStaysCapped(ds: seq<Daemon>, t: Turn, ds': seq<Daemon>, id: Byte, pri: Byte)
    requires Took(ds, t, ds') && AllCapped(ds, id, pri) && Within(ds[t.j], t.e, id, pri)
    ensures AllCapped(ds', id, pri)
  {
    StepKeepsInvExactly(ds[t.j], t.e);
    StepStaysCapped(ds[t.j], t.e, id, pri);
  }

  lemma {:induction false} FleetStaysCapped(dss: seq<seq<Daemon>>, ts: seq<Turn>, id: Byte, pri: Byte, n: nat)
    requires FleetRun(dss, ts) && Disciplined(dss, ts, id, pri) && n <= |ts|
    ensures AllCapped(dss[n], id, pri) && |dss[n]| == |dss[0]|
    decreases n
  {
    if n > 0 {
      FleetStaysCapped(dss, ts, id, pri, n - 1);
      assert TookAt(dss, ts, n - 1) && WithinAt(dss, ts, id, pri, n - 1);
      TurnStaysCapped(dss[n - 1], ts[n - 1], dss[n], id, pri);
    }
  }

  lemma TurnLeavesTop(ds: seq<Daemon>, t: Turn, ds': seq<Daemon>, j: nat, key: Key, pri: Byte)
    requires Took(ds, t, ds') && AllCapped(ds, key.id, pri) && j < |ds| && Holds(ds[j], key, pri)
    ensures Holds(ds'[j], key, pri) <==> !(t.j == j && Resigns(ds[j], t.e, key, pri))
  {
    if t.j == j {
      TopInstanceLeavesOnlyByItself(ds[j], t.e, key, pri);
    }
  }

  /** At point i of a run the daemon j does not make its instance of this key resign. */
  ghost predicate Stays(dss: seq<seq<Daemon>>, ts: seq<Turn>, j: nat, key: Key, pri: Byte, i: nat)
    requires i < |ts| < |dss|
  {
    j < |dss[i]| && WellQueued(dss[i][j]) && !(ts[i].j == j && Resigns(dss[i][j], ts[i].e, key, pri))
  }

  lemma TopStays(dss: seq<seq<Daemon>>, ts: seq<Turn>, j: nat, key: Key, pri: Byte, i: nat)
    requires FleetRun(dss, ts) && Disciplined(dss, ts, key.id, pri) && i < |ts|
    requires j < |dss[i]| && Holds(dss[i][j], key, pri) && Stays(dss, ts, j, key, pri, i)
    ensures j < |dss[i + 1]| && Holds(dss[i + 1][j], key, pri)
  {
    FleetStaysCapped(dss, ts, key.id, pri, i);
    assert TookAt(dss, ts, i);
    TurnLeavesTop(dss[i], ts[i], dss[i + 1], j, key, pri);
  }

  /** In every run in which nobody is configured above `pri` for a VRID, an instance of the VRID that is
      MASTER with that priority stays so until it is shut down, destroyed, or given a lower priority
      itself: whatever else its daemon and the others run and do, and whatever becomes of the
      advertisements. */
  lemma {:induction false} TopInstanceIsNeverDeposed(dss: seq<seq<Daemon>>, ts: seq<Turn>, j: nat, key: Key, pri: Byte,
                                                     m: nat, n: nat)
    requires FleetRun(dss, ts) && Disciplined(dss, ts, key.id, pri) && m <= n <= |ts|
    requires j < |dss[m]| && Holds(dss[m][j], key, pri)
    requires forall i: nat :: m <= i < n ==> Stays(dss, ts, j, key, pri, i)
    ensures j < |dss[n]| && Holds(dss[n][j], key, pri)
    decreases n
  {
    if n > m {
      TopInstanceIsNeverDeposed(dss, ts, j, key, pri, m, n - 1);
      TopStays(dss, ts, j, key, pri, n - 1);
    }
  }
}
