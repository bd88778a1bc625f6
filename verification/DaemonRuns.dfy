/** Runs of the daemon: the invariant, the table of masters heard of, and when a backup takes over. */
module DaemonRuns {
  import opened Protocol
  import opened Objects
  import opened Lists
  import opened Schedules
  import opened KeyLists
  import opened DaemonModel
  import opened DaemonProofs

  lemma OneTurnKeepsInv(s: Daemon, next: Daemon)
    requires Inv(s) && s.order != [] && next == HandleHead(s)
    ensures Inv(next) && next.flag == s.flag
  {
    var i := HeadOwner(s);
    HandledKeepsInv(s, i);
  }

  /** Every step keeps the invariant, except exactly the improper ones: registering a key for the
      second time, and destroying by a wildcard VRID an instance whose VR is queued. */
  lemma StepKeepsInvExactly(s: Daemon, e: Event)
    requires Inv(s) && Enabled(s, e)
    ensures Inv(Step(s, e).0) <==> Proper(s, e)
  {
    match e
    case Create(_, _, _, _, _, _) => CreateKeepsInvExactly(s, e);
    case Destroy(query) => DestroyKeepsInvExactly(s, query);
    case Startup(query) => StartupKeepsInv(s, query);
    case Shutdown(query) => ShutdownKeepsInv(s, query);
    case Modify(_, _, _, _, _) => ModifyKeepsInv(s, e);
    case Receive(port, af, a) => ReceiveKeepsInv(s, port, af, a);
    case Alarm =>
      if s.due != [] {
        AlarmHandlesExactlyTheDue(s);
      }
    case Elapse(usecs) =>
  }

  /** The destroyed VR of an improper destroy stays in the queue. */
  lemma WildcardDestroyDangles(s: Daemon, query: Key, i: nat)
    requires Inv(s) && query.id == 0 && query.af == AF_INET && Search(Keys(s.insts), query) == Some(i)
    ensures var r := DoDestroy(s, query).0;
      && s.insts[i].key !in Keys(r.insts)
      && (s.insts[i].key in r.order <==> s.insts[i].state != Init)
  {
    KeysRemoved(s.insts, i);
    assert Keys(s.insts)[i] == s.insts[i].key;
    DistinctRemoved(Keys(s.insts), i);
  }

  ghost predicate Stepped(s: Daemon, e: Event, r: Daemon) {
    WellQueued(s) && |s.flag| == 256 && Enabled(s, e) && Proper(s, e) && r == Step(s, e).0
  }

  /** The states ss a daemon goes through while the events es happen to it. */
  ghost predicate Run(ss: seq<Daemon>, es: seq<Event>) {
    |ss| == |es| + 1 && Inv(ss[0]) && forall i :: 0 <= i < |es| ==> Stepped(ss[i], es[i], ss[i + 1])
  }

  function NobodyUp(): seq<bool> {
    seq(256, _ => false)
  }

  const BOOT: Daemon := Daemon(0, [], [], [], NobodyUp(), [])

  lemma BootIsSound()
    ensures Inv(BOOT)
  {
  }

  /** At every point of every run the registry is sorted and free of duplicates, and a VR is queued,
      once, if and only if its instance is registered and MASTER or BACKUP. */
  lemma {:induction false} RunsKeepInv(ss: seq<Daemon>, es: seq<Event>, n: nat)
    requires Run(ss, es) && n < |ss|
    ensures Inv(ss[n])
    decreases n
  {
    if n > 0 {
      RunsKeepInv(ss, es, n - 1);
      assert Stepped(ss[n - 1], es[n - 1], ss[n - 1 + 1]);
      StepKeepsInvExactly(ss[n - 1], es[n - 1]);
    }
  }

  lemma LaterDrains(s: Daemon, next: Daemon)
    requires WellQueued(s) && next == s.(now := next.now)
    ensures Drains(next) <==> Drains(s)
  {
    forall j: nat | j < |s.order|
      ensures Lasting(next, s.order[j]) <==> Lasting(s, s.order[j])
    {
    }
  }

  /** Time can pass up to the first deadline and not beyond; there the alarm goes off, if it is one
      that ends, and not before; and it handles the entries due then. */
  lemma FirstDeadlineIsReached(s: Daemon, usecs: nat, next: Daemon)
    requires Inv(s) && s.due != [] && next == Step(s, Elapse(s.due[0] - s.now)).0
    ensures Enabled(s, Elapse(usecs)) <==> usecs <= s.due[0] - s.now
    ensures Enabled(s, Alarm) <==> s.due[0] == s.now && Drains(s)
    ensures Inv(next) && next == s.(now := s.due[0]) && (Enabled(next, Alarm) <==> Drains(s))
    ensures Drains(s) ==> HandledExactly(next, DoAlarm(next), s.order[..Ties(s.due)])
  {
    LaterDrains(s, next);
    StepKeepsInvExactly(s, Elapse(s.due[0] - s.now));
    if Drains(s) {
      AlarmHandlesExactlyTheDue(next);
    }
  }

  // ----- An instance the cursor misses -----

  const KEY1: Key := Key(1, "eth0", AF_INET)
  const KEY2: Key := Key(2, "eth0", AF_INET)
  const ANY1: Key := Key(1, "", AF_INET)
  const CREATE_ANY1: Event := Create(ANY1, 100, 1, 1, true, true)
  const CREATE_KEY1: Event := Create(KEY1, 100, 1, 1, true, true)

  /** Two creates that find no conflict, in a daemon without instances. The cursor that asks for the
      second of the list is ambiguous, so however often it is given back, only the first is shown. */
  lemma CursorCanMissAnInstance(calls: nat)
    requires calls > 0
    ensures var one := DoCreate(BOOT, CREATE_ANY1).0;
      && Proper(BOOT, CREATE_ANY1) && DoCreate(BOOT, CREATE_ANY1).1 == Success
      && Proper(one, CREATE_KEY1) && DoCreate(one, CREATE_KEY1).1 == Success
      && Keys(DoCreate(one, CREATE_KEY1).0.insts) == [KEY1, ANY1]
    ensures Listing([KEY1, ANY1], NULL_KEY, calls) == [0]
  {
    var one := DoCreate(BOOT, CREATE_ANY1).0;
    assert Keys(BOOT.insts) == [] && Keys(one.insts) == [ANY1];
    assert MatchFrom([ANY1], KEY1, 0) == MatchFrom([ANY1], KEY1, 1) == 1;
    assert Place(Ids([ANY1]), 1) == 0;
    assert MatchFrom([KEY1, ANY1], ANY1, 0) == 0 && MatchFrom([KEY1, ANY1], ANY1, 1) == 1;
  }

  // ----- The table of masters heard of -----

  /** The priority of the last advertisement for a VRID among the events. */
  function LastHeard(es: seq<Event>, id: Byte): Option<Byte> {
    if es == [] then None
    else
      var e := es[|es| - 1];
      if e.Receive? && e.advert.id == id then Some(e.advert.pri) else LastHeard(es[..|es| - 1], id)
  }

  lemma ReceiveFlag(s: Daemon, port: string, af: int, a: Advert)
    requires WellQueued(s) && |s.flag| == 256
    ensures DoReceive(s, port, af, a).0.flag == s.flag[a.id := a.pri != 0]
  {
  }

  lemma DestroyFlag(s: Daemon, query: Key)
    requires WellQueued(s) && |s.flag| == 256
    ensures DoDestroy(s, query).0.flag == s.flag
  {
  }

  lemma StepFlag(s: Daemon, e: Event)
    requires Inv(s) && Enabled(s, e)
    ensures Step(s, e).0.flag == if e.Receive? then s.flag[e.advert.id := e.advert.pri != 0] else s.flag
  {
    match e
    case Create(_, _, _, _, _, _) =>
    case Destroy(query) => DestroyFlag(s, query);
    case Startup(_) =>
    case Shutdown(_) =>
    case Modify(_, _, _, _, _) =>
    case Receive(port, af, a) => ReceiveFlag(s, port, af, a);
    case Alarm =>
      if s.due != [] {
        AlarmHandlesExactlyTheDue(s);
      }
    case Elapse(_) =>
  }

  /** At every point of a run an entry of the table is set exactly when the last advertisement for
      its VRID was not the farewell of a master. */
  lemma {:induction false} FlagIsHistory(ss: seq<Daemon>, es: seq<Event>, id: Byte, n: nat)
    requires Run(ss, es) && n < |ss|
    ensures Inv(ss[n]) && ss[n].flag[id] ==
      match LastHeard(es[..n], id) case None => ss[0].flag[id] case Some(pri) => pri != 0
    decreases n
  {
    RunsKeepInv(ss, es, n);
    if n > 0 {
      FlagIsHistory(ss, es, id, n - 1);
      assert Stepped(ss[n - 1], es[n - 1], ss[n - 1 + 1]);
      StepFlag(ss[n - 1], es[n - 1]);
      assert es[..n][..n - 1] == es[..n - 1];
    }
  }

  /** After these events the last advertisement for a VRID, the table at the start included, was not
      the farewell of its master. */
  predicate LastHeardUp(flag: seq<bool>, es: seq<Event>, id: Byte)
    requires |flag| == 256
  {
    match LastHeard(es, id) case None => flag[id] case Some(pri) => pri != 0
  }

  /** In every run a startup makes an INIT instance MASTER at once exactly when no VRID's last
      advertisement was other than a farewell, and BACKUP otherwise. */
  lemma StartupInARun(ss: seq<Daemon>, es: seq<Event>, n: nat, query: Key, i: nat)
    requires Run(ss, es) && n < |es| && es[n] == Startup(query) && query.af == AF_INET && query.id != 0
    requires Search(Keys(ss[n].insts), query) == Some(i) && ss[n].insts[i].state == Init
    ensures var heard := exists id: nat {:trigger ss[n].flag[id]} ::
                           1 <= id < 256 && id < |ss[n].flag| && LastHeardUp(ss[0].flag, es[..n], id);
      ss[n + 1].insts == ss[n].insts[i := ss[n].insts[i].(state := if heard then Backup else Master)]
  {
    RunsKeepInv(ss, es, n);
    assert Stepped(ss[n], es[n], ss[n + 1]);
    StartupSchedulesExactly(ss[n], query, i, ss[n + 1]);
    forall id: nat | 1 <= id < 256
      ensures ss[n].flag[id] == LastHeardUp(ss[0].flag, es[..n], id)
    {
      FlagIsHistory(ss, es, id, n);
    }
  }

  /** With a master in the table a demotion takes no fallback. */
  lemma DemotionWithoutFallback(s: Daemon, i: nat)
    requires QueueOk(s) && i < |s.insts| && AnyMasterUp(s.flag)
    ensures var (r, inst) := (MasterToBackup(s, i), s.insts[i]);
      && r.insts == s.insts[i := inst.(state := Backup)]
      && r.sent == s.sent + [Advert(inst.key.id, 0)] && r.flag == s.flag && r.now == s.now && WellQueued(r)
      && Sched(r) == Sched(s)[inst.key := s.now + Interval(inst)]
  {
    RetimedSched(s, s.insts[i].key, Interval(s.insts[i]));
  }

  predicate Outranks(s: Daemon, port: string, af: int, a: Advert, i: nat)
    requires i < |s.insts|
  {
    a.id != 0 && a.pri > s.insts[i].pri && Search(Keys(s.insts), Key(a.id, port, af)) == Some(i)
  }

  lemma NotedQueue(s: Daemon, a: Advert)
    requires Inv(s)
    ensures QueueOk(Noted(s, a)) && Sched(Noted(s, a)) == Sched(s) && Noted(s, a).flag[a.id] == (a.pri != 0)
  {
  }

  lemma ReceiveProcesses(s: Daemon, port: string, af: int, a: Advert, i: nat)
    requires WellQueued(s) && |s.flag| == 256 && a.pri != 0 && a.id != 0
    requires Search(Keys(s.insts), Key(a.id, port, af)) == Some(i)
    ensures DoReceive(s, port, af, a) == (ProcessAdvert(Noted(s, a), i, a.pri), Success)
  {
  }

  lemma OutbidDemotes(s: Daemon, i: nat, heard: Byte, r: Daemon)
    requires QueueOk(s) && i < |s.insts| && s.insts[i].state == Master && s.insts[i].pri < heard
    requires AnyMasterUp(s.flag) && r == ProcessAdvert(s, i, heard)
    ensures var x := s.insts[i];
      && r.insts == s.insts[i := x.(state := Backup)] && r.sent == s.sent + [Advert(x.key.id, 0)]
      && r.flag == s.flag && r.now == s.now && WellQueued(r) && Sched(r) == Sched(s)[x.key := s.now + Interval(x)]
  {
    DemotionWithoutFallback(s, i);
  }

  /** The advertisement that demotes a master is in the table when the fallback looks for one, so a
      demotion is never undone at once: the instance ends in BACKUP, to expire after one interval,
      and its farewell is sent. */
  lemma DemotionIsStable(s: Daemon, port: string, af: int, a: Advert, i: nat, r: Daemon)
    requires Inv(s) && i < |s.insts| && s.insts[i].state == Master && Outranks(s, port, af, a, i)
    requires r == DoReceive(s, port, af, a).0
    ensures var inst := s.insts[i];
      && DoReceive(s, port, af, a).1 == Success && WellQueued(r)
      && r.now == s.now && r.flag == s.flag[a.id := true]
      && r.insts == s.insts[i := inst.(state := Backup)]
      && r.sent == s.sent + [Advert(inst.key.id, 0)]
      && Sched(r) == Sched(s)[inst.key := s.now + Interval(inst)]
  {
    ReceiveProcesses(s, port, af, a, i);
    OutbidNoted(s, a, i, Noted(s, a), r);
  }

  lemma OutbidNoted(s: Daemon, a: Advert, i: nat, noted: Daemon, r: Daemon)
    requires Inv(s) && i < |s.insts| && s.insts[i].state == Master && s.insts[i].pri < a.pri && a.id != 0
    requires noted == Noted(s, a) && WellQueued(noted) && r == ProcessAdvert(noted, i, a.pri)
    ensures var x := s.insts[i];
      && WellQueued(r) && r.now == s.now && r.flag == s.flag[a.id := true]
      && r.insts == s.insts[i := x.(state := Backup)] && r.sent == s.sent + [Advert(x.key.id, 0)]
      && Sched(r) == Sched(s)[x.key := s.now + Interval(x)]
  {
    NotedQueue(s, a);
    AnyMasterIsHeard(noted.flag);
    OutbidDemotes(noted, i, a.pri, r);
  }

  lemma AcceptedRetimes(s: Daemon, i: nat, heard: Byte, r: Daemon)
    requires QueueOk(s) && i < |s.insts| && s.insts[i].state == Backup && heard != 0
    requires !s.insts[i].preempt || heard >= s.insts[i].pri
    requires r == ProcessAdvert(s, i, heard)
    ensures var x := s.insts[i];
      && r.insts == s.insts && r.sent == s.sent && r.flag == s.flag && r.now == s.now && WellQueued(r)
      && Sched(r) == Sched(s)[x.key := s.now + MasterDown(x)]
  {
    RetimedSched(s, s.insts[i].key, MasterDown(s.insts[i]));
  }

  /** A BACKUP that does not preempt, or that hears at least its own priority, waits for its
      master-down interval from now. */
  lemma AcceptedAdvertSchedulesExactly(s: Daemon, port: string, af: int, a: Advert, i: nat, r: Daemon)
    requires Inv(s) && a.pri != 0 && a.id != 0 && Search(Keys(s.insts), Key(a.id, port, af)) == Some(i)
    requires s.insts[i].state == Backup && (!s.insts[i].preempt || a.pri >= s.insts[i].pri)
    requires r == DoReceive(s, port, af, a).0
    ensures var x := s.insts[i];
      && DoReceive(s, port, af, a).1 == Success && WellQueued(r)
      && r.now == s.now && r.flag == s.flag[a.id := true] && r.insts == s.insts && r.sent == s.sent
      && Sched(r) == Sched(s)[x.key := s.now + MasterDown(x)]
  {
    ReceiveProcesses(s, port, af, a, i);
    NotedQueue(s, a);
    AcceptedRetimes(Noted(s, a), i, a.pri, r);
  }

  lemma RejectedChangesNothing(s: Daemon, i: nat, heard: Byte)
    requires WellQueued(s) && i < |s.insts| && heard != 0
    requires !(s.insts[i].state == Backup && (!s.insts[i].preempt || heard >= s.insts[i].pri))
    requires !(s.insts[i].state == Master && heard > s.insts[i].pri)
    ensures ProcessAdvert(s, i, heard) == s
  {
  }

  /** A BACKUP that is to preempt the sender, a MASTER that is not outbid and an INIT instance do
      nothing about an advertisement that is handed to them: it is only noted. */
  lemma RejectedAdvertChangesNothing(s: Daemon, port: string, af: int, a: Advert, i: nat)
    requires WellQueued(s) && |s.flag| == 256 && a.pri != 0 && a.id != 0
    requires Search(Keys(s.insts), Key(a.id, port, af)) == Some(i)
    requires s.insts[i].state == Backup ==> s.insts[i].preempt && a.pri < s.insts[i].pri
    requires s.insts[i].state == Master ==> a.pri <= s.insts[i].pri
    ensures DoReceive(s, port, af, a) == (s.(flag := s.flag[a.id := true]), Success)
  {
    ReceiveProcesses(s, port, af, a, i);
    RejectedChangesNothing(Noted(s, a), i, a.pri);
  }

  /** An advertisement for no instance of the daemon is only noted. */
  lemma AdvertForNobody(s: Daemon, port: string, af: int, a: Advert)
    requires WellQueued(s) && |s.flag| == 256 && a.pri != 0
    requires a.id == 0 || Search(Keys(s.insts), Key(a.id, port, af)) == None
    ensures DoReceive(s, port, af, a) == (s.(flag := s.flag[a.id := true]), Success)
  {
  }

  /** No other advertisement takes a master down. */
  lemma OnlyOutrankedMastersStepDown(s: Daemon, port: string, af: int, a: Advert, i: nat)
    requires WellQueued(s) && |s.flag| == 256
    requires i < |s.insts| && s.insts[i].state == Master && !Outranks(s, port, af, a, i)
    ensures |DoReceive(s, port, af, a).0.insts| == |s.insts| && DoReceive(s, port, af, a).0.insts[i] == s.insts[i]
  {
    var found := Search(Keys(s.insts), Key(a.id, port, af));
    if a.pri != 0 && a.id != 0 && found.Some? {
      OthersKeptByAdvert(Noted(s, a), found.value, a.pri, i);
    }
  }

  lemma OthersKeptByAdvert(s: Daemon, j: nat, heard: Byte, i: nat)
    requires WellQueued(s) && i < |s.insts| && j < |s.insts| && heard != 0
    requires i == j ==> s.insts[i].state == Master && heard <= s.insts[i].pri
    ensures var r := ProcessAdvert(s, j, heard); |r.insts| == |s.insts| && r.insts[i] == s.insts[i]
  {
  }

  // ----- Farewells -----

  /** The instance an advertisement is for. */
  function MatchOf(s: Daemon, port: string, af: int, a: Advert): (r: Option<nat>)
    ensures r.Some? ==> r.value < |s.insts|
  {
    if a.id == 0 then None else Search(Keys(s.insts), Key(a.id, port, af))
  }

  predicate BackupAt(s: Daemon, found: Option<nat>)
    requires found.Some? ==> found.value < |s.insts|
  {
    found.Some? && s.insts[found.value].state == Backup
  }

  /** From s to r the instance found is promoted, if it is a backup, and nobody else moves. */
  ghost predicate PromotesOnly(s: Daemon, r: Daemon, found: Option<nat>)
    requires WellQueued(s) && WellQueued(r) && (found.Some? ==> found.value < |s.insts|)
  {
    && r.sent == s.sent && r.now == s.now
    && if BackupAt(s, found) then
         var (i, x) := (found.value, s.insts[found.value]);
         r.insts == s.insts[i := x.(state := Master)] && Sched(r) == Sched(s)[x.key := s.now + Interval(x)]
       else r.insts == s.insts && Sched(r) == Sched(s)
  }

  lemma FarewellOutcome(s: Daemon, r: Daemon)
    requires Inv(s) && s.insts != [] && r == Farewell(s).0
    ensures PromotesOnly(s, r, Some(0))
  {
    if s.insts[0].state == Backup {
      BackupToMasterEffect(s, 0);
    }
  }

  lemma PromotionsDiffer(s: Daemon, r: Daemon, found: Option<nat>)
    requires WellQueued(s) && WellQueued(r) && s.insts != [] && (found.Some? ==> found.value < |s.insts|)
    requires PromotesOnly(s, r, Some(0))
    ensures PromotesOnly(s, r, found) <==>
      found == Some(0) || (s.insts[0].state != Backup && !BackupAt(s, found))
  {
    if s.insts[0].state == Backup {
      assert r.insts[0].state == Master;
    } else if BackupAt(s, found) {
      assert r.insts[found.value].state == Backup;
    }
  }

  /** The farewell of a master promotes the backup of its VRID and nobody else exactly when the first
      registered instance is that match, or neither the first nor the match is a BACKUP. An empty
      registry crashes. */
  lemma FarewellFindsItsOwnExactly(s: Daemon, port: string, af: int, a: Advert)
    requires Inv(s) && a.pri == 0
    ensures var (r, ret) := DoReceive(s, port, af, a); var found := MatchOf(s, port, af, a);
      && (ret == Segv <==> s.insts == []) && WellQueued(r)
      && (ret == Success && PromotesOnly(s, r, found) <==>
            s.insts != [] && (found == Some(0) || (s.insts[0].state != Backup && !BackupAt(s, found))))
  {
    var found := MatchOf(s, port, af, a);
    var r, ret := FarewellIs(s, port, af, a);
    if s.insts != [] {
      NotedKeepsInv(s, a);
      FarewellOutcome(Noted(s, a), r);
      SameSchedule(s, Noted(s, a), r);
      PromotionsDiffer(s, r, found);
    }
  }

  lemma FarewellIs(s: Daemon, port: string, af: int, a: Advert) returns (r: Daemon, ret: Ret)
    requires WellQueued(s) && |s.flag| == 256 && a.pri == 0
    ensures (r, ret) == DoReceive(s, port, af, a) && WellQueued(r)
    ensures ret == if s.insts == [] then Segv else Success
    ensures WellQueued(Noted(s, a)) && r == Farewell(Noted(s, a)).0
  {
    r, ret := DoReceive(s, port, af, a).0, DoReceive(s, port, af, a).1;
  }

  lemma SameSchedule(s: Daemon, noted: Daemon, r: Daemon)
    requires WellQueued(s) && WellQueued(r) && s.insts != [] && noted == s.(flag := noted.flag)
    requires PromotesOnly(noted, r, Some(0))
    ensures PromotesOnly(s, r, Some(0))
  {
  }

  /** The backup of VRID 1 is promoted because the master of VRID 2 leaves, whose backup is not. */
  lemma FarewellCanPromoteAnother()
    ensures
      var (one, two) := (Inst(KEY1, Backup, 100, 1, true, true), Inst(KEY2, Backup, 100, 1, true, true));
      var s := Daemon(0, [one, two], [KEY1, KEY2], [5, 5], NobodyUp(), []);
      && Inv(s) && MatchOf(s, "eth0", AF_INET, Advert(2, 0)) == Some(1)
      && DoReceive(s, "eth0", AF_INET, Advert(2, 0)).0.insts == [one.(state := Master), two]
  {
    var (one, two) := (Inst(KEY1, Backup, 100, 1, true, true), Inst(KEY2, Backup, 100, 1, true, true));
    var s := Daemon(0, [one, two], [KEY1, KEY2], [5, 5], NobodyUp(), []);
    assert Keys(s.insts) == [KEY1, KEY2];
    DistinctPairs([KEY1, KEY2]);
    AscendingPairs(Ids([KEY1, KEY2]));
    AscendingPairs([5, 5]);
    assert KEY1 in [KEY1, KEY2] && KEY2 in [KEY1, KEY2];
    assert QueueOk(s);
    assert Registered(Keys(s.insts));
    assert |s.flag| == 256;
    assert forall i :: 0 <= i < |s.insts| ==> (s.insts[i].state != Init <==> s.insts[i].key in s.order);
    assert MatchFrom([KEY1, KEY2], KEY2, 1) == 1 && MatchFrom([KEY1, KEY2], KEY2, 0) == 1;
  }

  // ----- Deadlines of the instances an event is not about -----

  predicate Hits(s: Daemon, query: Key, key: Key) {
    var found := Search(Keys(s.insts), query);
    found.Some? && s.insts[found.value].key == key
  }

  /** The state of the instance that a query hits. */
  function Finds(s: Daemon, query: Key): State
    requires Search(Keys(s.insts), query).Some?
  {
    s.insts[Search(Keys(s.insts), query).value].state
  }

  /** A farewell promotes a BACKUP. Any other advertisement sets a BACKUP's timer anew unless the
      BACKUP preempts a lower priority, and demotes a MASTER of lower priority. */
  predicate Answers(x: Inst, heard: Byte) {
    match x.state
    case Backup => heard == 0 || !x.preempt || heard >= x.pri
    case Master => heard > x.pri
    case Init => false
  }

  /** An event is about an instance if it is a command that finds it and is carried out, or an
      advertisement the instance answers. A priority-0 advertisement is handed to the first
      instance, whatever VRID it carries. */
  predicate Touches(s: Daemon, e: Event, key: Key) {
    match e
    case Destroy(query) => query.af == AF_INET && Hits(s, query, key)
    case Startup(query) => query.af == AF_INET && query.id != 0 && Hits(s, query, key) && Finds(s, query) == Init
    case Shutdown(query) => query.af == AF_INET && query.id != 0 && Hits(s, query, key) && Finds(s, query) != Init
    case Modify(query, _, _, preempt, accept) =>
      -1 <= preempt <= 1 && -1 <= accept <= 1 && Hits(s, query, key)
    case Receive(port, af, a) =>
      if a.pri == 0 then s.insts != [] && s.insts[0].key == key && Answers(s.insts[0], 0)
      else
        var query := Key(a.id, port, af);
        a.id != 0 && Hits(s, query, key) && Answers(s.insts[Search(Keys(s.insts), query).value], a.pri)
    case _ => false
  }

  /** When the VR of a key is due, if it is queued. */
  ghost function Due(s: Daemon, key: Key): Option<nat>
    requires WellQueued(s)
  {
    if key in Sched(s) then Some(Sched(s)[key]) else None
  }

  /** r has the instance x, and its deadline, from s. */
  ghost predicate Untouched(s: Daemon, r: Daemon, x: Inst)
    requires WellQueued(s) && WellQueued(r)
  {
    (x in s.insts ==> x in r.insts) && Due(r, x.key) == Due(s, x.key)
  }

  lemma EnterElsewhere(s: Daemon, key: Key, usecs: nat, x: Inst)
    requires QueueOk(s) && key !in s.order && key != x.key
    ensures QueueOk(Enter(s, key, usecs)) && Untouched(s, Enter(s, key, usecs), x)
  {
    EnterIsInsert(s, key, usecs);
  }

  lemma LeaveElsewhere(s: Daemon, key: Key, x: Inst)
    requires QueueOk(s) && key != x.key
    ensures QueueOk(Leave(s, key)) && key !in Leave(s, key).order && Untouched(s, Leave(s, key), x)
  {
    LeaveIsDelete(s, key);
  }

  lemma BecomeElsewhere(s: Daemon, i: nat, state: State, x: Inst)
    requires WellQueued(s) && i < |s.insts| && s.insts[i].key != x.key
    ensures Untouched(s, Become(s, i, state), x)
  {
    if x in s.insts {
      var j :| 0 <= j < |s.insts| && s.insts[j] == x;
      assert Become(s, i, state).insts[j] == x;
    }
  }

  lemma RetimeElsewhere(s: Daemon, key: Key, usecs: nat, x: Inst)
    requires QueueOk(s) && key != x.key
    ensures var r := Enter(Leave(s, key), key, usecs); QueueOk(r) && Untouched(s, r, x)
  {
    LeaveElsewhere(s, key, x);
    EnterElsewhere(Leave(s, key), key, usecs, x);
  }

  lemma PromotionElsewhere(s: Daemon, i: nat, x: Inst)
    requires QueueOk(s) && i < |s.insts| && s.insts[i].key != x.key
    ensures QueueOk(BackupToMaster(s, i)) && Untouched(s, BackupToMaster(s, i), x)
  {
    var key := s.insts[i].key;
    RetimeElsewhere(s, key, Interval(s.insts[i]), x);
    BecomeElsewhere(Enter(Leave(s, key), key, Interval(s.insts[i])), i, Master, x);
  }

  lemma CreateElsewhere(s: Daemon, e: Event, x: Inst)
    requires Inv(s) && e.Create? && Proper(s, e) && x in s.insts
    ensures Untouched(s, DoCreate(s, e).0, x)
  {
    if !Refused(s, e) {
      var at := Slot(Keys(s.insts), e.key.id);
      var inst := Inst(e.key, Init, e.pri, e.delay, e.preempt, e.accept);
      var s' := s.(insts := Inserted(s.insts, at, inst));
      InsertedMembers(s.insts, at, inst);
      var j :| 0 <= j < |s.insts| && s.insts[j] == x;
      assert Keys(s.insts)[j] == x.key;
      assert s'.insts[at] == inst;
      EnterElsewhere(s', e.key, Interval(inst), x);
      BecomeElsewhere(Enter(s', e.key, Interval(inst)), at, Master, x);
    }
  }

  lemma RemovedElsewhere(s: Daemon, i: nat, x: Inst)
    requires i < |s.insts| && s.insts[i].key != x.key && x in s.insts
    ensures x in Removed(s.insts, i)
  {
    assert s.insts == s.insts[..i] + [s.insts[i]] + s.insts[i + 1..];
  }

  lemma DestroyElsewhere(s: Daemon, query: Key, x: Inst)
    requires Inv(s) && x in s.insts && !Touches(s, Destroy(query), x.key)
    ensures Untouched(s, DoDestroy(s, query).0, x)
  {
    if DoDestroy(s, query).1 == Success {
      var i := Search(Keys(s.insts), query).value;
      LeaveElsewhere(s, s.insts[i].key, x);
      LeaveElsewhere(Leave(s, s.insts[i].key), s.insts[i].key, x);
      RemovedElsewhere(s, i, x);
      assert Removed(Become(s, i, Init).insts, i) == Removed(s.insts, i);
    }
  }

  lemma StartupElsewhere(s: Daemon, query: Key, x: Inst)
    requires Inv(s) && x in s.insts && !Touches(s, Startup(query), x.key)
    ensures Untouched(s, DoStartup(s, query).0, x)
  {
    if DoStartup(s, query).1 == Success {
      var i := Search(Keys(s.insts), query).value;
      var entered := Enter(s, s.insts[i].key, Interval(s.insts[i]));
      EnterElsewhere(s, s.insts[i].key, Interval(s.insts[i]), x);
      BecomeElsewhere(entered, i, Backup, x);
      PromotionElsewhere(Become(entered, i, Backup), i, x);
    }
  }

  lemma ShutdownElsewhere(s: Daemon, query: Key, x: Inst)
    requires Inv(s) && x in s.insts && !Touches(s, Shutdown(query), x.key)
    ensures Untouched(s, DoShutdown(s, query).0, x)
  {
    if DoShutdown(s, query).1 == Success {
      var i := Search(Keys(s.insts), query).value;
      LeaveElsewhere(s, s.insts[i].key, x);
      BecomeElsewhere(Leave(s, s.insts[i].key), i, Init, x);
    }
  }

  lemma ModifyElsewhere(s: Daemon, e: Event, x: Inst)
    requires Inv(s) && e.Modify? && x in s.insts && !Touches(s, e, x.key)
    ensures Untouched(s, DoModify(s, e).0, x)
  {
    if DoModify(s, e).1 == Success {
      var i := Search(Keys(s.insts), e.query).value;
      var inst := Modified(s.insts[i], e);
      RetimeElsewhere(s, inst.key, Prescribed(inst), x);
      var j :| 0 <= j < |s.insts| && s.insts[j] == x;
      assert s.insts[i := inst][j] == x;
    }
  }

  lemma SteppedDownElsewhere(s: Daemon, i: nat, x: Inst)
    requires QueueOk(s) && i < |s.insts| && s.insts[i].key != x.key && x in s.insts
    ensures Untouched(s, MasterToBackup(s, i), x)
  {
    var inst := s.insts[i];
    var entered := Enter(Leave(s, inst.key), inst.key, Interval(inst));
    RetimeElsewhere(s, inst.key, Interval(inst), x);
    BecomeElsewhere(entered, i, Backup, x);
    var down := Send(Become(entered, i, Backup), inst.key.id, 0);
    PromotionElsewhere(down, i, x);
  }

  lemma ProcessAdvertElsewhere(s: Daemon, i: nat, heard: Byte, x: Inst)
    requires QueueOk(s) && i < |s.insts| && s.insts[i].key != x.key && x in s.insts && heard != 0
    ensures Untouched(s, ProcessAdvert(s, i, heard), x)
  {
    var inst := s.insts[i];
    match React(inst.state, inst.pri, inst.preempt, heard)
    case Retimed => RetimeElsewhere(s, inst.key, MasterDown(inst), x);
    case SteppedDown => SteppedDownElsewhere(s, i, x);
    case _ =>
  }

  lemma ReceiveElsewhere(s: Daemon, port: string, af: int, a: Advert, x: Inst)
    requires Inv(s) && x in s.insts && !Touches(s, Receive(port, af, a), x.key)
    ensures Untouched(s, DoReceive(s, port, af, a).0, x)
  {
    var s' := Noted(s, a);
    assert Untouched(s, s', x);
    if a.pri == 0 {
      if s.insts != [] && Answers(s.insts[0], 0) {
        PromotionElsewhere(s', 0, x);
      }
    } else {
      var found := Search(Keys(s.insts), Key(a.id, port, af));
      if a.id != 0 && found.Some? && Answers(s.insts[found.value], a.pri) {
        ProcessAdvertElsewhere(s', found.value, a.pri, x);
      }
    }
  }

  /** Whatever a step other than the timer's is about, every other instance stays as it is and its
      VR keeps its exact deadline. */
  lemma StepElsewhere(s: Daemon, e: Event, x: Inst)
    requires Inv(s) && Enabled(s, e) && Proper(s, e) && e != Alarm
    requires x in s.insts && !Touches(s, e, x.key)
    ensures Inv(Step(s, e).0) && x in Step(s, e).0.insts && Due(Step(s, e).0, x.key) == Due(s, x.key)
  {
    StepKeepsInvExactly(s, e);
    match e
    case Create(_, _, _, _, _, _) => CreateElsewhere(s, e, x);
    case Destroy(query) => DestroyElsewhere(s, query, x);
    case Startup(query) => StartupElsewhere(s, query, x);
    case Shutdown(query) => ShutdownElsewhere(s, query, x);
    case Modify(_, _, _, _, _) => ModifyElsewhere(s, e, x);
    case Receive(port, af, a) => ReceiveElsewhere(s, port, af, a, x);
    case Elapse(usecs) =>
  }

  // ----- When a backup takes over -----

  /** When the master-down timer of x runs out, if x is a backup of the daemon s. */
  ghost function MasterDownAt(s: Daemon, x: Inst): Option<nat> {
    if Inv(s) && x in s.insts && x.state == Backup then Due(s, x.key) else None
  }

  /** As long as no event is about it, a backup is promoted by the timer at its deadline exactly,
      and not before; and time does not pass the deadline. */
  lemma BackupIsPromotedExactlyAtItsDeadline(s: Daemon, e: Event, x: Inst, d: nat)
    requires MasterDownAt(s, x) == Some(d) && Enabled(s, e) && Proper(s, e) && !Touches(s, e, x.key)
    ensures var r := Step(s, e).0;
      if e == Alarm && s.now == d then x.(state := Master) in r.insts && MasterDownAt(r, x) == None
      else MasterDownAt(r, x) == Some(d)
    ensures s.now <= d && Step(s, e).0.now <= d
  {
    NotOverdue(s, x, d);
    if e == Alarm {
      AlarmOn(s, x, d);
    } else {
      StepElsewhere(s, e, x);
      NotOverdue(Step(s, e).0, x, d);
    }
  }

  lemma NotOverdue(s: Daemon, x: Inst, d: nat)
    requires MasterDownAt(s, x) == Some(d)
    ensures s.due != [] && s.now <= s.due[0] <= d
  {
    DeadlineAt(s.order, s.due);
    AscendingPairs(s.due);
    var i :| 0 <= i < |s.order| && s.order[i] == x.key;
    assert s.due[i] == d;
  }

  lemma AlarmOn(s: Daemon, x: Inst, d: nat)
    requires MasterDownAt(s, x) == Some(d) && Enabled(s, Alarm) && s.due != []
    ensures var r := DoAlarm(s);
      && r.now == s.now && Inv(r)
      && if s.now == d then x.(state := Master) in r.insts && MasterDownAt(r, x) == None
         else MasterDownAt(r, x) == Some(d)
  {
    AlarmHandlesExactlyTheDue(s);
    BackupHandledIf(s, DoAlarm(s), s.order[..Ties(s.due)], x, d);
  }

  /** A backup among the entries handled is promoted, any other one waits on. */
  lemma BackupHandledIf(s: Daemon, r: Daemon, heads: seq<Key>, x: Inst, d: nat)
    requires MasterDownAt(s, x) == Some(d) && HandledExactly(s, r, heads)
    requires x.key in heads <==> s.now == d
    ensures if s.now == d then x.(state := Master) in r.insts && MasterDownAt(r, x) == None
            else MasterDownAt(r, x) == Some(d)
  {
    var j :| 0 <= j < |s.insts| && s.insts[j] == x;
    assert r.insts[j] == AllMaster(s.insts, heads)[j] == if x.key in heads then x.(state := Master) else x;
    if s.now == d {
      KeysDiffer(r, j);
    }
  }

  /** An advertisement for x that its preemption mode lets it accept. */
  predicate Accepts(s: Daemon, e: Event, x: Inst) {
    && e.Receive? && e.advert.id != 0 && e.advert.pri != 0
    && Hits(s, Key(e.advert.id, e.port, e.af), x.key)
    && (!x.preempt || e.advert.pri >= x.pri)
  }

  lemma RetimedWaits(s: Daemon, i: nat, x: Inst, r: Daemon)
    requires Inv(s) && i < |s.insts| && s.insts[i] == x && x.state == Backup
    requires r == Enter(Leave(s, x.key), x.key, MasterDown(x))
    ensures MasterDownAt(r, x) == Some(s.now + MasterDown(x))
  {
    RetimedKeepsInv(s, i, x, MasterDown(x));
    assert r.insts == s.insts[i := x];
  }

  lemma AcceptedAdvertRequeues(s: Daemon, port: string, af: int, a: Advert, i: nat, noted: Daemon)
    requires WellQueued(s) && |s.flag| == 256 && a.id != 0 && a.pri != 0 && noted == Noted(s, a)
    requires Search(Keys(s.insts), Key(a.id, port, af)) == Some(i)
    requires s.insts[i].state == Backup && (!s.insts[i].preempt || a.pri >= s.insts[i].pri)
    ensures var x := s.insts[i];
      WellQueued(noted) && DoReceive(s, port, af, a).0 == Enter(Leave(noted, x.key), x.key, MasterDown(x))
  {
  }

  lemma FoundAt(s: Daemon, query: Key, x: Inst) returns (i: nat)
    requires Registered(Keys(s.insts)) && x in s.insts && Hits(s, query, x.key)
    ensures Search(Keys(s.insts), query) == Some(i) && i < |s.insts| && s.insts[i] == x
  {
    i := Search(Keys(s.insts), query).value;
    KeysDiffer(s, i);
  }

  lemma NotedWaits(s: Daemon, a: Advert, i: nat, x: Inst, noted: Daemon, r: Daemon)
    requires Inv(s) && i < |s.insts| && s.insts[i] == x && x.state == Backup && noted == Noted(s, a)
    requires WellQueued(noted) && r == Enter(Leave(noted, x.key), x.key, MasterDown(x))
    ensures MasterDownAt(r, x) == Some(s.now + MasterDown(x))
  {
    NotedKeepsInv(s, a);
    RetimedWaits(noted, i, x, r);
  }

  lemma AcceptedStep(s: Daemon, e: Event, i: nat, x: Inst, noted: Daemon, r: Daemon)
    requires WellQueued(s) && |s.flag| == 256 && Accepts(s, e, x) && x.state == Backup
    requires Search(Keys(s.insts), Key(e.advert.id, e.port, e.af)) == Some(i) && s.insts[i] == x
    requires noted == Noted(s, e.advert) && r == Step(s, e).0
    ensures WellQueued(noted) && r == Enter(Leave(noted, x.key), x.key, MasterDown(x))
  {
    StepReceives(s, e);
    AcceptedAdvertRequeues(s, e.port, e.af, e.advert, i, noted);
  }

  lemma AcceptedAdvertRetimes(s: Daemon, e: Event, x: Inst, d: nat)
    requires MasterDownAt(s, x) == Some(d) && Accepts(s, e, x)
    ensures MasterDownAt(Step(s, e).0, x) == Some(s.now + MasterDown(x))
  {
    var i := FoundAt(s, Key(e.advert.id, e.port, e.af), x);
    var (noted, r) := (Noted(s, e.advert), Step(s, e).0);
    AcceptedStep(s, e, i, x, noted, r);
    NotedWaits(s, e.advert, i, x, noted, r);
  }

  lemma StepReceives(s: Daemon, e: Event)
    requires WellQueued(s) && |s.flag| == 256 && e.Receive?
    ensures Step(s, e) == DoReceive(s, e.port, e.af, e.advert)
  {
  }

  lemma NotedKeepsInv(s: Daemon, a: Advert)
    requires Inv(s)
    ensures Inv(Noted(s, a)) && Noted(s, a).insts == s.insts && Noted(s, a).now == s.now
  {
  }

  // ----- Runs of a waiting backup -----

  /** x is a backup whose master-down timer runs until d. */
  ghost predicate Waits(s: Daemon, x: Inst, d: nat) {
    MasterDownAt(s, x) == Some(d) && s.now <= d
  }

  /** The timer promotes x, at its deadline d. */
  ghost predicate TakesOver(s: Daemon, e: Event, r: Daemon, x: Inst, d: nat) {
    Waits(s, x, d) && e == Alarm && s.now == d && x.(state := Master) in r.insts && MasterDownAt(r, x) == None
  }

  /** While x is a backup the event is about x only if it is an advertisement x accepts, and it is
      marked just then. */
  ghost predicate AboutByAdvert(s: Daemon, e: Event, mark: bool, x: Inst) {
    MasterDownAt(s, x).Some? ==> mark == Accepts(s, e, x) && (Touches(s, e, x.key) ==> mark)
  }

  /** A step a waiting backup hears of only by advertisements sets its timer anew if it accepts one,
      promotes it if the alarm goes off at its deadline, and leaves it alone otherwise. */
  lemma StepServes(s: Daemon, e: Event, mark: bool, r: Daemon, x: Inst, d: nat)
    requires Stepped(s, e, r) && AboutByAdvert(s, e, mark, x) && Waits(s, x, d)
    ensures if mark then Waits(r, x, s.now + MasterDown(x))
            else if e == Alarm && s.now == d then TakesOver(s, e, r, x, d) else Waits(r, x, d)
  {
    if mark {
      AcceptedAdvertRetimes(s, e, x, d);
      ReceiveKeepsTime(s, e.port, e.af, e.advert);
    } else {
      BackupIsPromotedExactlyAtItsDeadline(s, e, x, d);
    }
  }

  lemma ReceiveKeepsTime(s: Daemon, port: string, af: int, a: Advert)
    requires WellQueued(s) && |s.flag| == 256
    ensures DoReceive(s, port, af, a).0.now == s.now
  {
  }

  /** The deadline of x at point n of a run: that of the last marked event, and d before the first. */
  function DueBy(ss: seq<Daemon>, marks: seq<bool>, usecs: nat, d: nat, n: nat): nat
    requires n <= |marks| <= |ss|
    decreases n
  {
    if n == 0 then d else if marks[n - 1] then ss[n - 1].now + usecs else DueBy(ss, marks, usecs, d, n - 1)
  }

  /** A run of a daemon with a backup x that waits until d, and that hears of the events only by the
      advertisements it accepts, which are marked. */
  ghost predicate Attended(ss: seq<Daemon>, es: seq<Event>, marks: seq<bool>, x: Inst, d: nat) {
    && Run(ss, es) && |marks| == |es| && Waits(ss[0], x, d)
    && forall i: nat :: i < |es| ==> AboutByAdvert(ss[i], es[i], marks[i], x)
  }

  ghost predicate TookOver(ss: seq<Daemon>, es: seq<Event>, marks: seq<bool>, x: Inst, d: nat, m: nat)
    requires m < |es| == |marks| && |ss| == |es| + 1
  {
    TakesOver(ss[m], es[m], ss[m + 1], x, DueBy(ss, marks, MasterDown(x), d, m))
  }

  lemma DueNext(ss: seq<Daemon>, marks: seq<bool>, usecs: nat, d: nat, m: nat)
    requires m < |marks| <= |ss|
    ensures DueBy(ss, marks, usecs, d, m + 1) ==
              if marks[m] then ss[m].now + usecs else DueBy(ss, marks, usecs, d, m)
  {
  }

  lemma ServedOnce(s: Daemon, e: Event, mark: bool, r: Daemon, x: Inst, d: nat, d': nat)
    requires Stepped(s, e, r) && AboutByAdvert(s, e, mark, x) && Waits(s, x, d)
    requires d' == if mark then s.now + MasterDown(x) else d
    ensures TakesOver(s, e, r, x, d) || Waits(r, x, d')
  {
    StepServes(s, e, mark, r, x, d);
  }

  lemma AttendedStep(ss: seq<Daemon>, es: seq<Event>, marks: seq<bool>, x: Inst, d: nat, m: nat)
    requires Attended(ss, es, marks, x, d) && m < |es|
    requires Waits(ss[m], x, DueBy(ss, marks, MasterDown(x), d, m))
    ensures TookOver(ss, es, marks, x, d, m) || Waits(ss[m + 1], x, DueBy(ss, marks, MasterDown(x), d, m + 1))
  {
    var (d0, d1) := (DueBy(ss, marks, MasterDown(x), d, m), DueBy(ss, marks, MasterDown(x), d, m + 1));
    DueNext(ss, marks, MasterDown(x), d, m);
    ServedOnce(ss[m], es[m], marks[m], ss[m + 1], x, d0, d1);
  }

  /** At every point n of such a run x still waits, for MasterDown after the last advertisement it
      accepted, or at some point m before the alarm has promoted it at exactly that time. */
  lemma {:induction false} BackupTakesOverExactly(ss: seq<Daemon>, es: seq<Event>, marks: seq<bool>, x: Inst, d: nat,
                                                  n: nat) returns (m: nat)
    requires Attended(ss, es, marks, x, d) && n <= |es|
    ensures m <= n
    ensures if m == n then Waits(ss[n], x, DueBy(ss, marks, MasterDown(x), d, n)) else TookOver(ss, es, marks, x, d, m)
    decreases n
  {
    m := n;
    if n > 0 {
      m := BackupTakesOverExactly(ss, es, marks, x, d, n - 1);
      if m == n - 1 {
        AttendedStep(ss, es, marks, x, d, m);
        if !TookOver(ss, es, marks, x, d, m) {
          m := n;
        }
      }
    }
  }

  /** Point i of a run is before the deadline of x. */
  predicate InTime(ss: seq<Daemon>, marks: seq<bool>, usecs: nat, d: nat, i: nat)
    requires i <= |marks| <= |ss| && i < |ss|
  {
    ss[i].now < DueBy(ss, marks, usecs, d, i)
  }

  /** If MasterDown has never passed since the last advertisement it accepted, x is still a backup,
      with its timer set for that last one. */
  lemma NoFalseTakeover(ss: seq<Daemon>, es: seq<Event>, marks: seq<bool>, x: Inst, d: nat, n: nat)
    requires Attended(ss, es, marks, x, d) && n <= |es|
    requires forall i: nat :: i < n ==> InTime(ss, marks, MasterDown(x), d, i)
    ensures Waits(ss[n], x, DueBy(ss, marks, MasterDown(x), d, n))
  {
    var m := BackupTakesOverExactly(ss, es, marks, x, d, n);
    assert m < n ==> InTime(ss, marks, MasterDown(x), d, m);
  }

  lemma {:induction false} UnmarkedDueBy(ss: seq<Daemon>, marks: seq<bool>, usecs: nat, d: nat, n: nat)
    requires n <= |marks| <= |ss| && forall i: nat :: i < n ==> !marks[i]
    ensures DueBy(ss, marks, usecs, d, n) == d
    decreases n
  {
    if n > 0 {
      UnmarkedDueBy(ss, marks, usecs, d, n - 1);
    }
  }

  /** In a run in which x accepts no advertisement, whatever it hears and rejects, it waits until its
      deadline d and the alarm has promoted it at d by the time d has passed. */
  lemma UnservedBackupTakesOver(ss: seq<Daemon>, es: seq<Event>, marks: seq<bool>, x: Inst, d: nat, n: nat)
    returns (m: nat)
    requires Attended(ss, es, marks, x, d) && n <= |es| && forall i: nat :: i < n ==> !marks[i]
    ensures m <= n
    ensures if m == n then Waits(ss[n], x, d) else TakesOver(ss[m], es[m], ss[m + 1], x, d)
    ensures ss[n].now > d ==> m < n
  {
    m := BackupTakesOverExactly(ss, es, marks, x, d, n);
    UnmarkedDueBy(ss, marks, MasterDown(x), d, m);
  }

  // ----- How long the master-down interval is -----

  lemma Remainder(x: int, k: int, r: int)
    requires x == 0x1_0000_0000 * k + r && 0 <= r < 0x1_0000_0000
    ensures x % 0x1_0000_0000 == r
  {
  }

  /** The interval depends on the delay modulo 2^26 only: 1000000 is 64 * 15625. */
  lemma IntervalByResidue(delay: int)
    ensures Usecs(Micros(delay)) == 64 * (15625 * (delay % 0x400_0000) % 0x400_0000)
  {
    var (q, m) := (delay / 0x400_0000, delay % 0x400_0000);
    var (p, t) := (15625 * m / 0x400_0000, 15625 * m % 0x400_0000);
    assert Micros(delay) == 0x1_0000_0000 * (15625 * q + p) + 64 * t;
    Remainder(Micros(delay), 15625 * q + p, 64 * t);
  }

  lemma SameRemainder(x: int, k: int, r: int)
    requires x == 0x1_0000_0000 * k + r
    ensures x % 0x1_0000_0000 == r % 0x1_0000_0000
  {
    Remainder(x, k + r / 0x1_0000_0000, r % 0x1_0000_0000);
  }

  /** Wrapping before the tripling makes no difference. */
  lemma MasterDownWraps(x: Inst)
    ensures MasterDown(x) == (3 * Interval(x) + WrittenSkew(x.pri)) % 0x1_0000_0000
  {
    var k := Micros(x.delay) / 0x1_0000_0000;
    assert Micros(x.delay) == 0x1_0000_0000 * k + Interval(x);
    SameRemainder(WrittenMasterDown(x.delay, x.pri), 3 * k, 3 * Interval(x) + WrittenSkew(x.pri));
  }

  /** The master-down interval is three advertisement intervals and the skew exactly for these
      delays, of which the ones up to 4294 s are those up to 1431 s; the skew is nothing for all
      priorities but 0. */
  lemma MasterDownIsThreeIntervals(x: Inst)
    ensures MasterDown(x) == 3 * Interval(x) + WrittenSkew(x.pri) <==>
              192 * (15625 * (x.delay % 0x400_0000) % 0x400_0000) + WrittenSkew(x.pri) < 0x1_0000_0000
    ensures 0 < x.delay <= 4294 ==> Interval(x) == Micros(x.delay)
    ensures 0 < x.delay <= 4294 ==> (MasterDown(x) == 3 * Interval(x) + WrittenSkew(x.pri) <==> x.delay <= 1431)
    ensures Interval(x) == 64 * (15625 * (x.delay % 0x400_0000) % 0x400_0000)
    ensures MasterDown(x) == (3 * Interval(x) + WrittenSkew(x.pri)) % 0x1_0000_0000
    ensures WrittenSkew(x.pri) == if x.pri == 0 then 1_000_000 else 0
  {
    MasterDownWraps(x);
    IntervalByResidue(x.delay);
  }

  /** Without a skew an advertisement exactly three intervals after the last one can come too late:
      then the alarm is due as well, and if it comes first the backup has taken over. */
  lemma PunctualAdvertCanBeLate(s: Daemon, e: Event, x: Inst, last: nat)
    requires MasterDownAt(s, x) == Some(last + MasterDown(x)) && s.now == last + 3 * Interval(x)
    requires 0 < x.delay <= 1431 && x.pri != 0 && Accepts(s, e, x) && Drains(s)
    ensures Enabled(s, e) && MasterDownAt(Step(s, e).0, x) == Some(s.now + MasterDown(x))
    ensures Enabled(s, Alarm)
    ensures x.(state := Master) in Step(s, Alarm).0.insts && MasterDownAt(Step(s, Alarm).0, x) == None
  {
    MasterDownIsThreeIntervals(x);
    AcceptedAdvertRetimes(s, e, x, s.now);
    NotOverdue(s, x, s.now);
    AlarmOn(s, x, s.now);
  }
}
