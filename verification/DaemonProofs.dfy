/** What every run of the daemon keeps, and what it does to the deadlines. */
module DaemonProofs {
  import opened Protocol
  import opened Objects
  import opened Lists
  import opened Schedules
  import opened KeyLists
  import opened DaemonModel

  // ----- The queue as a map from keys to deadlines -----

  ghost predicate QueueOk(s: Daemon) {
    OnSchedule(s.now, s.order, s.due)
  }

  function Sched(s: Daemon): map<Key, nat>
    requires WellQueued(s)
  {
    Deadlines(s.order, s.due)
  }

  lemma EnterIsInsert(s: Daemon, key: Key, usecs: nat)
    requires QueueOk(s) && key !in s.order
    ensures QueueOk(Enter(s, key, usecs))
    ensures Sched(Enter(s, key, usecs)) == Sched(s)[key := s.now + usecs]
    ensures forall k :: k in Enter(s, key, usecs).order <==> k == key || k in s.order
  {
    var at := Place(s.due, s.now + usecs);
    InsertedOnSchedule(s.now, s.order, s.due, key, s.now + usecs);
    InsertedDeadlines(s.order, s.due, at, key, s.now + usecs);
    InsertedMembers(s.order, at, key);
  }

  lemma LeaveIsDelete(s: Daemon, key: Key)
    requires QueueOk(s)
    ensures QueueOk(Leave(s, key))
    ensures Sched(Leave(s, key)) == Sched(s) - {key}
    ensures forall k :: k in Leave(s, key).order <==> k != key && k in s.order
  {
    var at := First(s.order, key);
    if at < |s.order| {
      RemovedOnSchedule(s.now, s.order, s.due, at);
      RemovedDeadlines(s.order, s.due, at);
      RemovedMembers(s.order, at);
    } else {
      DeadlineAt(s.order, s.due);
    }
  }

  lemma DeletedThenInserted(m: map<Key, nat>, key: Key, d: nat)
    ensures (m - {key})[key := d] == m[key := d]
  {
  }

  lemma RetimedSched(s: Daemon, key: Key, usecs: nat)
    requires QueueOk(s)
    ensures Sched(Enter(Leave(s, key), key, usecs)) == Sched(s)[key := s.now + usecs]
  {
    var out := Leave(s, key);
    LeaveIsDelete(s, key);
    EnterIsInsert(out, key, usecs);
    assert Sched(Enter(out, key, usecs)) == Sched(out)[key := s.now + usecs];
    DeletedThenInserted(Sched(s), key, s.now + usecs);
  }

  lemma RetimedOrder(s: Daemon, key: Key, usecs: nat)
    requires QueueOk(s)
    ensures var r := Enter(Leave(s, key), key, usecs);
      QueueOk(r) && forall k :: k in r.order <==> k == key || k in s.order
  {
    LeaveIsDelete(s, key);
    EnterIsInsert(Leave(s, key), key, usecs);
  }

  /** Leaving and entering again moves one deadline. */
  lemma RetimeMovesOne(s: Daemon, key: Key, usecs: nat)
    requires QueueOk(s)
    ensures var r := Enter(Leave(s, key), key, usecs);
      && QueueOk(r) && Sched(r) == Sched(s)[key := s.now + usecs]
      && forall k :: k in r.order <==> k == key || k in s.order
  {
    RetimedSched(s, key, usecs);
    RetimedOrder(s, key, usecs);
  }

  // ----- The invariant -----

  /** The registry is sorted and free of duplicates, and a key is queued, once and not overdue, if
      and only if its instance is registered and MASTER or BACKUP. */
  ghost predicate Inv(s: Daemon) {
    && Registered(Keys(s.insts)) && QueueOk(s) && |s.flag| == 256
    && (forall i :: 0 <= i < |s.insts| ==> (s.insts[i].state != Init <==> s.insts[i].key in s.order))
    && (forall k :: k in s.order ==> k in Keys(s.insts))
  }

  lemma KeysDiffer(s: Daemon, i: nat)
    requires Registered(Keys(s.insts)) && i < |s.insts|
    ensures forall j :: 0 <= j < |s.insts| && j != i ==> s.insts[j].key != s.insts[i].key
  {
    DistinctFrom(Keys(s.insts), i);
    assert forall j :: 0 <= j < |s.insts| ==> Keys(s.insts)[j] == s.insts[j].key;
  }

  /** Replacing one instance, and no key but its own coming or going in the queue, keeps the
      invariant if the instance is queued just when it should be. */
  lemma OneChanged(s: Daemon, r: Daemon, i: nat)
    requires Inv(s) && QueueOk(r) && |r.flag| == 256 && i < |s.insts| == |r.insts|
    requires r.insts == s.insts[i := r.insts[i]] && r.insts[i].key == s.insts[i].key
    requires forall k :: k != s.insts[i].key ==> (k in r.order <==> k in s.order)
    requires r.insts[i].state != Init <==> s.insts[i].key in r.order
    ensures Inv(r) && Keys(r.insts) == Keys(s.insts)
  {
    KeysDiffer(s, i);
    assert Keys(r.insts) == Keys(s.insts);
    assert s.insts[i].key == Keys(s.insts)[i];
  }

  lemma BackupToMasterEffect(s: Daemon, i: nat)
    requires Inv(s) && i < |s.insts|
    ensures var r := BackupToMaster(s, i);
      && Inv(r) && Keys(r.insts) == Keys(s.insts)
      && r == s.(insts := s.insts[i := s.insts[i].(state := Master)], order := r.order, due := r.due)
      && Sched(r) == Sched(s)[s.insts[i].key := s.now + Interval(s.insts[i])]
  {
    RetimeMovesOne(s, s.insts[i].key, Interval(s.insts[i]));
    OneChanged(s, BackupToMaster(s, i), i);
  }

  lemma InitEnteredEffect(s: Daemon, i: nat, state: State)
    requires Inv(s) && i < |s.insts| && s.insts[i].state == Init && state != Init
    ensures var r := Become(Enter(s, s.insts[i].key, Interval(s.insts[i])), i, state);
      && Inv(r) && Keys(r.insts) == Keys(s.insts)
      && Sched(r) == Sched(s)[s.insts[i].key := s.now + Interval(s.insts[i])]
  {
    var r := Become(Enter(s, s.insts[i].key, Interval(s.insts[i])), i, state);
    EnterIsInsert(s, s.insts[i].key, Interval(s.insts[i]));
    OneChanged(s, r, i);
  }

  lemma ToInitEffect(s: Daemon, i: nat)
    requires Inv(s) && i < |s.insts|
    ensures var r := BackupToInit(s, i);
      Inv(r) && Keys(r.insts) == Keys(s.insts) && Sched(r) == Sched(s) - {s.insts[i].key}
  {
    LeaveIsDelete(s, s.insts[i].key);
    OneChanged(s, BackupToInit(s, i), i);
  }

  lemma RetimedKeepsInv(s: Daemon, i: nat, x: Inst, usecs: nat)
    requires Inv(s) && i < |s.insts| && x.key == s.insts[i].key && x.state != Init
    ensures var r := Enter(Leave(s, x.key), x.key, usecs).(insts := s.insts[i := x]);
      Inv(r) && Keys(r.insts) == Keys(s.insts) && Sched(r) == Sched(s)[x.key := s.now + usecs]
  {
    var r := Enter(Leave(s, x.key), x.key, usecs).(insts := s.insts[i := x]);
    RetimeMovesOne(s, x.key, usecs);
    OneChanged(s, r, i);
  }

  lemma UnlessMasterUpKeepsInv(s: Daemon, i: nat)
    requires Inv(s) && i < |s.insts|
    ensures Inv(UnlessMasterUp(s, i)) && Keys(UnlessMasterUp(s, i).insts) == Keys(s.insts)
  {
    BackupToMasterEffect(s, i);
  }

  lemma MasterToBackupKeepsInv(s: Daemon, i: nat)
    requires Inv(s) && i < |s.insts|
    ensures Inv(MasterToBackup(s, i))
  {
    var inst := s.insts[i];
    var x := inst.(state := Backup);
    RetimedKeepsInv(s, i, x, Interval(inst));
    var down := Send(Become(Enter(Leave(s, inst.key), inst.key, Interval(inst)), i, Backup), inst.key.id, 0);
    assert Inv(down);
    UnlessMasterUpKeepsInv(down, i);
  }

  // ----- Steps -----

  /** A create is of a key that is not registered, or refused; a destroy names its VRID, or hits
      nothing that is queued. */
  predicate Proper(s: Daemon, e: Event) {
    match e
    case Create(key, _, _, _, _, _) => key !in Keys(s.insts) || Refused(s, e)
    case Destroy(query) =>
      var found := Search(Keys(s.insts), query);
      query.id != 0 || query.af != AF_INET || found == None || s.insts[found.value].state == Init
    case _ => true
  }

  lemma KeysInserted(insts: seq<Inst>, at: nat, x: Inst)
    requires at <= |insts|
    ensures Keys(Inserted(insts, at, x)) == Inserted(Keys(insts), at, x.key)
  {
  }

  lemma KeysRemoved(insts: seq<Inst>, at: nat)
    requires at < |insts|
    ensures Keys(Removed(insts, at)) == Removed(Keys(insts), at)
  {
  }

  lemma RegisteredEffect(s: Daemon, x: Inst)
    requires Inv(s) && x.key !in Keys(s.insts) && x.state == Init
    ensures Inv(s.(insts := Inserted(s.insts, Slot(Keys(s.insts), x.key.id), x)))
  {
    var at := Slot(Keys(s.insts), x.key.id);
    var insts' := Inserted(s.insts, at, x);
    KeysInserted(s.insts, at, x);
    InsertKeepsRegistered(Keys(s.insts), x.key);
    InsertedMembers(Keys(s.insts), at, x.key);
    assert forall i :: 0 <= i < |insts'| ==>
      insts'[i] == if i < at then s.insts[i] else if i == at then x else s.insts[i - 1];
  }

  lemma UnregisteredEffect(s: Daemon, i: nat)
    requires Inv(s) && i < |s.insts|
    ensures Inv(s.(insts := Removed(s.insts, i))) <==> s.insts[i].state == Init
  {
    var insts' := Removed(s.insts, i);
    KeysRemoved(s.insts, i);
    RemoveKeepsRegistered(Keys(s.insts), i);
    KeysDiffer(s, i);
    assert forall j :: 0 <= j < |insts'| ==> insts'[j] == if j < i then s.insts[j] else s.insts[j + 1];
    assert forall k :: k in Keys(insts') <==> k in Keys(s.insts) && k != s.insts[i].key by {
      assert KeySet(Keys(insts')) == KeySet(Keys(s.insts)) - {Keys(s.insts)[i]};
    }
  }

  /** A create breaks the invariant exactly when it is accepted although its key is registered. */
  lemma CreateKeepsInvExactly(s: Daemon, e: Event)
    requires Inv(s) && e.Create?
    ensures Inv(DoCreate(s, e).0) <==> Proper(s, e)
  {
    if !Refused(s, e) {
      var at := Slot(Keys(s.insts), e.key.id);
      var x := Inst(e.key, Init, e.pri, e.delay, e.preempt, e.accept);
      var s' := s.(insts := Inserted(s.insts, at, x));
      KeysInserted(s.insts, at, x);
      InsertKeepsRegistered(Keys(s.insts), e.key);
      if e.key !in Keys(s.insts) {
        RegisteredEffect(s, x);
        InitEnteredEffect(s', at, Master);
      } else {
        assert Keys(DoCreate(s, e).0.insts) == Keys(s'.insts);
      }
    }
  }

  /** Such a create is the one, exactly, whose key is incomplete and registered and matched by another
      registered key too: the search for a conflict is ambiguous and reads as none. */
  lemma CreateDuplicatesKeyExactly(s: Daemon, e: Event)
    requires WellQueued(s) && Distinct(Keys(s.insts)) && e.Create?
    ensures var keys := Keys(s.insts);
      !Distinct(Keys(DoCreate(s, e).0.insts)) <==>
        && e.delay > 0 && e.ipnum != 0 && !Complete(e.key) && e.key in keys
        && exists j :: 0 <= j < |keys| && keys[j] != e.key && Matches(keys[j], e.key)
  {
    var keys := Keys(s.insts);
    if !Complete(e.key) && e.key in keys {
      var i :| 0 <= i < |keys| && keys[i] == e.key;
      forall j | 0 <= j < |keys| && keys[j] != e.key && Matches(keys[j], e.key)
        ensures Search(keys, e.key) == None
      {
        AmbiguousIsNotFound(keys, e.key, i, j);
      }
    }
    if !Refused(s, e) {
      var (at, r) := (Slot(Keys(s.insts), e.key.id), DoCreate(s, e).0);
      var x := Inst(e.key, Init, e.pri, e.delay, e.preempt, e.accept);
      KeysInserted(s.insts, at, x);
      CreateDuplicatesExactly(Keys(s.insts), e.key);
      assert Keys(r.insts) == Keys(Inserted(s.insts, at, x));
    }
  }

  lemma DestroyKeepsInvExactly(s: Daemon, query: Key)
    requires Inv(s)
    ensures Inv(DoDestroy(s, query).0) <==> Proper(s, Destroy(query))
  {
    var found := Search(Keys(s.insts), query);
    if query.af == AF_INET && found.Some? {
      var i := found.value;
      var inst := s.insts[i];
      if query.id == 0 {
        UnregisteredEffect(s, i);
        assert DoDestroy(s, query).0.insts == Removed(s.insts, i);
        SameButSent(s.(insts := Removed(s.insts, i)), DoDestroy(s, query).0);
      } else {
        NamedDestroyKeepsInv(s, query, i);
      }
    }
  }

  lemma UnregisteredLeave(s: Daemon, i: nat, r: Daemon)
    requires Inv(s) && i < |s.insts| && r == Leave(s, s.insts[i].key).(insts := Removed(s.insts, i), sent := r.sent)
    ensures Inv(r)
  {
    var gone := BackupToInit(s, i);
    ToInitEffect(s, i);
    UnregisteredEffect(gone, i);
    assert Removed(gone.insts, i) == Removed(s.insts, i);
    SameButSent(gone.(insts := Removed(s.insts, i)), r);
  }

  lemma LeftTwice(s: Daemon, key: Key)
    requires QueueOk(s)
    ensures Leave(Leave(s, key), key) == Leave(s, key)
  {
    LeaveIsDelete(s, key);
  }

  lemma NamedDestroyKeepsInv(s: Daemon, query: Key, i: nat)
    requires Inv(s) && query.id != 0 && query.af == AF_INET && Search(Keys(s.insts), query) == Some(i)
    ensures Inv(DoDestroy(s, query).0)
  {
    LeftTwice(s, s.insts[i].key);
    DestroyIsLeave(s, query, i);
    UnregisteredLeave(s, i, DoDestroy(s, query).0);
  }

  /** The invariant does not look at the messages sent. */
  lemma SameButSent(s: Daemon, r: Daemon)
    requires r == s.(sent := r.sent)
    ensures Inv(s) <==> Inv(r)
  {
  }

  lemma StartupKeepsInv(s: Daemon, query: Key)
    requires Inv(s)
    ensures Inv(DoStartup(s, query).0)
  {
    var found := Search(Keys(s.insts), query);
    if found.Some? && s.insts[found.value].state == Init {
      InitEnteredEffect(s, found.value, Backup);
      var i := found.value;
      UnlessMasterUpKeepsInv(Become(Enter(s, s.insts[i].key, Interval(s.insts[i])), i, Backup), i);
    }
  }

  lemma ShutdownKeepsInv(s: Daemon, query: Key)
    requires Inv(s)
    ensures Inv(DoShutdown(s, query).0)
  {
    var found := Search(Keys(s.insts), query);
    if found.Some? {
      ToInitEffect(s, found.value);
      SameButSent(BackupToInit(s, found.value), MasterToInit(s, found.value));
    }
  }

  lemma ModifyKeepsInv(s: Daemon, e: Event)
    requires Inv(s) && e.Modify?
    ensures Inv(DoModify(s, e).0) && DoModify(s, e).0.sent == s.sent
  {
    if DoModify(s, e).1 == Success {
      var i := Search(Keys(s.insts), e.query).value;
      var inst := Modified(s.insts[i], e);
      if e.newDelay != UNCHANGE && Retimable(e.query) && inst.key in s.order {
        RetimedKeepsInv(s, i, inst, Prescribed(inst));
      } else {
        OneChanged(s, s.(insts := s.insts[i := inst]), i);
      }
    }
  }

  lemma InsertedTwice(m: map<Key, nat>, key: Key, d: nat)
    ensures m[key := d][key := d] == m[key := d]
  {
  }

  lemma BackupToMasterSched(s: Daemon, i: nat)
    requires QueueOk(s) && i < |s.insts|
    ensures Sched(BackupToMaster(s, i)) == Sched(s)[s.insts[i].key := s.now + Interval(s.insts[i])]
  {
    RetimedSched(s, s.insts[i].key, Interval(s.insts[i]));
  }

  lemma EnteredEffect(s: Daemon, i: nat, r: Daemon)
    requires QueueOk(s) && i < |s.insts| && s.insts[i].key !in s.order
    requires r == Become(Enter(s, s.insts[i].key, Interval(s.insts[i])), i, Backup)
    ensures var x := s.insts[i];
      && QueueOk(r) && Sched(r) == Sched(s)[x.key := s.now + Interval(x)]
      && r.now == s.now && r.sent == s.sent && r.flag == s.flag && r.insts == s.insts[i := x.(state := Backup)]
  {
    EnterIsInsert(s, s.insts[i].key, Interval(s.insts[i]));
  }

  /** What the fallback leaves of a backup that has just been entered. */
  lemma FallbackEffect(entered: Daemon, i: nat, sched: map<Key, nat>, r: Daemon)
    requires QueueOk(entered) && i < |entered.insts| && entered.insts[i].state == Backup
    requires var x := entered.insts[i]; Sched(entered) == sched[x.key := entered.now + Interval(x)]
    requires r == UnlessMasterUp(entered, i)
    ensures var x := entered.insts[i];
      && WellQueued(r) && Sched(r) == sched[x.key := entered.now + Interval(x)]
      && r.sent == entered.sent && r.flag == entered.flag
      && r.insts == entered.insts[i := x.(state := if AnyMasterUp(entered.flag) then Backup else Master)]
  {
    var x := entered.insts[i];
    BackupToMasterSched(entered, i);
    InsertedTwice(sched, x.key, entered.now + Interval(x));
    assert entered.insts == entered.insts[i := x];
  }

  lemma StartupIsFallback(s: Daemon, query: Key, i: nat, r: Daemon) returns (entered: Daemon)
    requires WellQueued(s) && DoStartup(s, query) == (r, Success) && Search(Keys(s.insts), query) == Some(i)
    ensures s.insts[i].state == Init
    ensures entered == Become(Enter(s, s.insts[i].key, Interval(s.insts[i])), i, Backup) && WellQueued(entered)
    ensures |entered.insts| == |s.insts| && r == UnlessMasterUp(entered, i)
  {
    entered := Become(Enter(s, s.insts[i].key, Interval(s.insts[i])), i, Backup);
  }

  lemma SetTwice(insts: seq<Inst>, i: nat, a: Inst, b: Inst)
    requires i < |insts|
    ensures insts[i := a][i := b] == insts[i := b]
  {
  }

  lemma StartupEffect(s: Daemon, i: nat, entered: Daemon, r: Daemon)
    requires QueueOk(s) && i < |s.insts| && s.insts[i].key !in s.order && WellQueued(entered)
    requires entered == Become(Enter(s, s.insts[i].key, Interval(s.insts[i])), i, Backup)
    requires |entered.insts| == |s.insts| && r == UnlessMasterUp(entered, i)
    ensures var x := s.insts[i];
      && WellQueued(r) && r.sent == s.sent && r.flag == s.flag
      && r.insts == s.insts[i := x.(state := if AnyMasterUp(s.flag) then Backup else Master)]
      && Sched(r) == Sched(s)[x.key := s.now + Interval(x)]
  {
    EnteredEffect(s, i, entered);
    FallbackEffect(entered, i, Sched(s), r);
    SetTwice(s.insts, i, entered.insts[i], r.insts[i]);
  }

  /** The master of some VRID is in the table. VRID 0 does not count. */
  ghost predicate MasterHeard(flag: seq<bool>) {
    exists id: nat :: 1 <= id < |flag| && flag[id]
  }

  lemma AnyMasterIsHeard(flag: seq<bool>)
    ensures AnyMasterUp(flag) <==> MasterHeard(flag)
  {
    AnyMasterUpExactly(flag, 1);
  }

  /** The startup of an INIT instance that is found by its VRID is carried out: it sends nothing and
      leaves the instance due one interval from now, as a BACKUP if some master was heard of and as
      the MASTER otherwise; no other deadline moves. */
  lemma StartupSchedulesExactly(s: Daemon, query: Key, i: nat, r: Daemon)
    requires Inv(s) && query.af == AF_INET && query.id != 0 && r == DoStartup(s, query).0
    requires Search(Keys(s.insts), query) == Some(i) && s.insts[i].state == Init
    ensures var x := s.insts[i];
      && DoStartup(s, query).1 == Success && WellQueued(r) && r.sent == s.sent && r.flag == s.flag
      && r.insts == s.insts[i := x.(state := if MasterHeard(s.flag) then Backup else Master)]
      && Sched(r) == Sched(s)[x.key := s.now + Usecs(Micros(x.delay))]
  {
    AnyMasterIsHeard(s.flag);
    var entered := StartupIsFallback(s, query, i, r);
    InitIsNotQueued(s, i);
    StartupEffect(s, i, entered, r);
  }

  lemma InitIsNotQueued(s: Daemon, i: nat)
    requires Inv(s) && i < |s.insts| && s.insts[i].state == Init
    ensures s.insts[i].key !in s.order
  {
  }

  lemma {:induction false} AnyMasterUpExactly(flag: seq<bool>, i: nat)
    requires 1 <= i
    ensures MasterUp(flag, i) != 0 <==> exists id: nat :: i <= id < |flag| && flag[id]
    ensures var up := MasterUp(flag, i);
      up != 0 ==> i <= up < |flag| && flag[up] && forall id: nat :: i <= id < up ==> !flag[id]
    decreases |flag| - i
  {
    if i < |flag| && !flag[i] {
      AnyMasterUpExactly(flag, i + 1);
    }
  }

  /** The shutdown of a MASTER or BACKUP that is found by its VRID is carried out: it takes just this
      VR out of the schedule, and multicasts one farewell exactly if the instance was the MASTER. */
  lemma ShutdownSchedulesExactly(s: Daemon, query: Key, i: nat)
    requires Inv(s) && query.af == AF_INET && query.id != 0
    requires Search(Keys(s.insts), query) == Some(i) && s.insts[i].state != Init
    ensures var (r, x) := (DoShutdown(s, query).0, s.insts[i]);
      && DoShutdown(s, query).1 == Success && r.insts == s.insts[i := x.(state := Init)] && r.flag == s.flag
      && r.sent == s.sent + (if x.state == Master then [Advert(x.key.id, 0)] else [])
      && Sched(r) == Sched(s) - {x.key}
  {
    ToInitEffect(s, i);
  }

  /** A create with an interval and addresses for which no conflict is found adds an INIT instance,
      which is not scheduled, or for an address owner a MASTER due one interval from now, and not later
      if its key is scheduled already; it sends nothing. */
  lemma CreateSchedulesExactly(s: Daemon, e: Event)
    requires Inv(s) && e.Create? && e.delay > 0 && e.ipnum != 0 && Search(Keys(s.insts), e.key) == None
    ensures var r := DoCreate(s, e).0;
      var (at, state) := (Slot(Keys(s.insts), e.key.id), if e.pri == 255 then Master else Init);
      && DoCreate(s, e).1 == Success
      && r.insts == Inserted(s.insts, at, Inst(e.key, state, e.pri, e.delay, e.preempt, e.accept))
      && r.sent == s.sent && r.flag == s.flag
      && Sched(r) == if e.pri == 255 then Sooner(Sched(s), e.key, s.now + Usecs(Micros(e.delay))) else Sched(s)
  {
    var at := Slot(Keys(s.insts), e.key.id);
    var x := Inst(e.key, Init, e.pri, e.delay, e.preempt, e.accept);
    PlacedDeadlines(s.order, s.due, e.key, s.now + Interval(x));
    SetInserted(s.insts, at, x, x.(state := Master));
    CreateIsEnter(s, e);
  }

  lemma SetInserted(insts: seq<Inst>, at: nat, x: Inst, y: Inst)
    requires at <= |insts|
    ensures Inserted(insts, at, x)[at := y] == Inserted(insts, at, y)
  {
  }

  lemma CreateIsEnter(s: Daemon, e: Event)
    requires WellQueued(s) && e.Create? && DoCreate(s, e).1 == Success
    ensures var (at, x) := (Slot(Keys(s.insts), e.key.id), Inst(e.key, Init, e.pri, e.delay, e.preempt, e.accept));
      var insts := Inserted(s.insts, at, x);
      DoCreate(s, e).0 ==
        if e.pri == 255 then Enter(s, e.key, Interval(x)).(insts := insts[at := x.(state := Master)])
        else s.(insts := insts)
  {
  }

  lemma DestroyIsLeave(s: Daemon, query: Key, i: nat)
    requires WellQueued(s) && query.af == AF_INET && Search(Keys(s.insts), query) == Some(i)
    requires Leave(Leave(s, s.insts[i].key), s.insts[i].key) == Leave(s, s.insts[i].key)
    requires query.id == 0 ==> s.insts[i].state == Init && Leave(s, s.insts[i].key) == s
    ensures var key := s.insts[i].key;
      DoDestroy(s, query).0 == Leave(s, key).(insts := Removed(s.insts, i), sent := s.sent + [Advert(key.id, 0)])
  {
    assert Removed(s.insts[i := s.insts[i].(state := Init)], i) == Removed(s.insts, i);
  }

  lemma WildcardDestroyIs(s: Daemon, query: Key, i: nat)
    requires WellQueued(s) && query.af == AF_INET && query.id == 0 && Search(Keys(s.insts), query) == Some(i)
    ensures var farewell := if s.insts[i].state == Master then [] else [Advert(s.insts[i].key.id, 0)];
      DoDestroy(s, query) == (s.(insts := Removed(s.insts, i), sent := s.sent + farewell), Success)
  {
    assert s.sent + [] == s.sent;
  }

  /** The destroy of an instance that is found takes it out of the registry. If the query names its
      VRID it also takes its VR out of the schedule and multicasts exactly one farewell, whatever the
      state was; with a wildcard the schedule stays, and a MASTER says no farewell. */
  lemma DestroySchedulesExactly(s: Daemon, query: Key, i: nat)
    requires Inv(s) && query.af == AF_INET && Search(Keys(s.insts), query) == Some(i)
    ensures var (r, x) := (DoDestroy(s, query).0, s.insts[i]);
      && DoDestroy(s, query).1 == Success && WellQueued(r)
      && r.insts == Removed(s.insts, i) && r.flag == s.flag && r.now == s.now
      && r.sent == s.sent + (if query.id == 0 && x.state == Master then [] else [Advert(x.key.id, 0)])
      && Sched(r) == if query.id == 0 then Sched(s) else Sched(s) - {x.key}
  {
    if query.id == 0 {
      WildcardDestroyIs(s, query, i);
    } else {
      LeaveIsDelete(s, s.insts[i].key);
      LeftTwice(s, s.insts[i].key);
      DestroyIsLeave(s, query, i);
    }
  }

  lemma ModifyIsRetime(s: Daemon, e: Event, i: nat) returns (queue: Daemon)
    requires WellQueued(s) && e.Modify? && DoModify(s, e).1 == Success && Search(Keys(s.insts), e.query) == Some(i)
    ensures var (key, inst) := (s.insts[i].key, Modified(s.insts[i], e));
      && queue == (if e.newDelay != UNCHANGE && Retimable(e.query) && key in s.order
                   then Enter(Leave(s, key), key, Prescribed(inst)) else s)
      && DoModify(s, e).0 == queue.(insts := s.insts[i := inst])
  {
    queue := DoModify(s, e).0.(insts := s.insts);
  }

  lemma RetimedIf(s: Daemon, b: bool, key: Key, usecs: nat, r: Daemon)
    requires QueueOk(s) && r == if b && key in s.order then Enter(Leave(s, key), key, usecs) else s
    ensures WellQueued(r)
    ensures Sched(r) == if b && key in Sched(s) then Sched(s)[key := s.now + usecs] else Sched(s)
  {
    DeadlineAt(s.order, s.due);
    RetimedSched(s, key, usecs);
  }

  /** What one of the four properties is after a modify. */
  function Changed(was: int, given: int): int {
    if given == UNCHANGE then was else given
  }

  lemma PrescribedExactly(x: Inst)
    requires x.state != Init
    ensures Prescribed(x) == Usecs(if x.state == Master then Micros(x.delay)
                                   else 3 * Micros(x.delay) + if x.pri == 0 then SECOND else 0)
  {
  }

  /** A modify with legal modes of an instance that is found is carried out: it changes the properties
      that are given, and not the key or the state. If a new interval is given and the query names the
      VRID, the VR of a MASTER is due one such interval from now, and that of a BACKUP three and the
      skew of its new priority; no other deadline moves, and a VR that is not queued stays so. */
  lemma ModifyRetimesExactly(s: Daemon, e: Event, i: nat)
    requires Inv(s) && e.Modify? && e.newPreempt in {0, 1, UNCHANGE} && e.newAccept in {0, 1, UNCHANGE}
    requires Search(Keys(s.insts), e.query) == Some(i)
    ensures var (r, x) := (DoModify(s, e).0, s.insts[i]);
      && DoModify(s, e).1 == Success && r.insts == s.insts[i := r.insts[i]]
      && r.insts[i].key == x.key && r.insts[i].state == x.state
      && r.insts[i].pri == Changed(x.pri, e.newPri) % 256 && r.insts[i].delay == Changed(x.delay, e.newDelay)
      && r.insts[i].preempt == (Changed(if x.preempt then 1 else 0, e.newPreempt) == 1)
      && r.insts[i].accept == (Changed(if x.accept then 1 else 0, e.newAccept) == 1)
      && r.sent == s.sent && r.flag == s.flag && r.now == s.now
    ensures var (r, x) := (DoModify(s, e).0, s.insts[i]);
      var master, skew := Micros(e.newDelay), if r.insts[i].pri == 0 then SECOND else 0;
      if e.newDelay != UNCHANGE && e.query.id != 0 && e.query.af in {AF_INET, AF_INET6, AF_UNSPEC} && x.state != Init
      then Sched(r) == Sched(s)[x.key := s.now + Usecs(if x.state == Master then master else 3 * master + skew)]
      else Sched(r) == Sched(s)
  {
    var queue := ModifyIsRetime(s, e, i);
    var inst := Modified(s.insts[i], e);
    RetimedIf(s, e.newDelay != UNCHANGE && Retimable(e.query), s.insts[i].key, Prescribed(inst), queue);
    DeadlineAt(s.order, s.due);
    if s.insts[i].state != Init {
      PrescribedExactly(inst);
    }
  }

  // ----- Which commands are carried out -----

  /** The answer to each command, by the check that decides it. A command that is not carried out
      changes nothing. */
  lemma StartupAnswersExactly(s: Daemon, query: Key)
    requires WellQueued(s)
    ensures var ((r, ret), found) := (DoStartup(s, query), Search(Keys(s.insts), query));
      var named := query.af == AF_INET && query.id != 0;
      && (ret == ErrnoEinval <==> !named)
      && (ret == NoInst <==> named && found == None)
      && (ret == VrrpEinval <==> named && found.Some? && s.insts[found.value].state != Init)
      && (ret == Success <==> named && found.Some? && s.insts[found.value].state == Init)
      && (ret != Success ==> r == s)
  {
  }

  lemma ShutdownAnswersExactly(s: Daemon, query: Key)
    requires WellQueued(s)
    ensures var ((r, ret), found) := (DoShutdown(s, query), Search(Keys(s.insts), query));
      var named := query.af == AF_INET && query.id != 0;
      && (ret == ErrnoEinval <==> !named)
      && (ret == NoInst <==> named && found == None)
      && (ret == VrrpEinval <==> named && found.Some? && s.insts[found.value].state == Init)
      && (ret == Success <==> named && found.Some? && s.insts[found.value].state in {Master, Backup})
      && (ret != Success ==> r == s)
  {
  }

  lemma CreateAnswersExactly(s: Daemon, e: Event)
    requires WellQueued(s) && e.Create?
    ensures var ((r, ret), found) := (DoCreate(s, e), Search(Keys(s.insts), e.key));
      && (ret == ErrnoEinval <==> e.delay <= 0 || e.ipnum == 0)
      && (ret == Exists <==> e.delay > 0 && e.ipnum > 0 && found.Some?)
      && (ret == Success <==> e.delay > 0 && e.ipnum > 0 && found == None)
      && (ret != Success ==> r == s)
  {
  }

  lemma DestroyAnswersExactly(s: Daemon, query: Key)
    requires WellQueued(s)
    ensures var ((r, ret), found) := (DoDestroy(s, query), Search(Keys(s.insts), query));
      && (ret == ErrnoEinval <==> query.af != AF_INET)
      && (ret == Segv <==> query.af == AF_INET && found == None)
      && (ret == Success <==> query.af == AF_INET && found.Some?)
      && (ret != Success ==> r == s)
  {
  }

  lemma ModifyAnswersExactly(s: Daemon, e: Event)
    requires WellQueued(s) && e.Modify?
    ensures var ((r, ret), found) := (DoModify(s, e), Search(Keys(s.insts), e.query));
      var legal := -1 <= e.newPreempt <= 1 && -1 <= e.newAccept <= 1;
      && (ret == ErrnoEinval <==> !legal)
      && (ret == NoInst <==> legal && found == None)
      && (ret == Success <==> legal && found.Some?)
      && (ret != Success ==> r == s)
  {
  }

  lemma ProcessAdvertKeepsInv(s: Daemon, i: nat, heard: Byte)
    requires Inv(s) && i < |s.insts| && heard != 0
    ensures Inv(ProcessAdvert(s, i, heard))
  {
    var inst := s.insts[i];
    match React(inst.state, inst.pri, inst.preempt, heard)
    case Retimed =>
      RetimedKeepsInv(s, i, inst, MasterDown(inst));
      assert s.insts[i := inst] == s.insts;
    case SteppedDown => MasterToBackupKeepsInv(s, i);
    case _ =>
  }

  lemma ReceiveKeepsInv(s: Daemon, port: string, af: int, a: Advert)
    requires Inv(s)
    ensures Inv(DoReceive(s, port, af, a).0)
  {
    var s' := Noted(s, a);
    assert Inv(s');
    if a.pri == 0 {
      if s.insts != [] {
        BackupToMasterEffect(s', 0);
      }
    } else {
      var found := Search(Keys(s.insts), Key(a.id, port, af));
      if a.id != 0 && found.Some? {
        ProcessAdvertKeepsInv(s', found.value, a.pri);
      }
    }
  }

  // ----- The timer -----

  lemma IntervalVanishesExactly(delay: int)
    ensures Usecs(Micros(delay)) == 0 <==> delay % 0x400_0000 == 0
  {
    var q := Micros(delay) / 0x1_0000_0000;
    var k := delay / 0x400_0000;
    if delay % 0x400_0000 == 0 {
      assert Micros(delay) == 0x1_0000_0000 * (15625 * k);
      MultipleOf2To32(15625 * k);
    }
    if Usecs(Micros(delay)) == 0 {
      // 1000000 = 64 * 15625 and 15625 * 12738873 = 1 + 2966 * 2^26
      assert 15625 * delay == 0x400_0000 * q;
      assert delay == 0x400_0000 * (12738873 * q - 2966 * delay);
      MultipleOf2To26(12738873 * q - 2966 * delay);
    }
  }

  lemma MultipleOf2To32(k: int)
    ensures 0x1_0000_0000 * k % 0x1_0000_0000 == 0
  {
  }

  lemma MultipleOf2To26(k: int)
    ensures 0x400_0000 * k % 0x400_0000 == 0
  {
  }

  /** The advertisements the masters among the keys send, in the order of the keys. */
  function Adverts(s: Daemon, keys: seq<Key>): seq<Advert>
    requires forall k :: k in keys ==> k in Keys(s.insts)
    decreases keys
  {
    if keys == [] then []
    else
      var inst := Owner(s, keys[0]);
      (if inst.state == Master then [Advert(inst.key.id, inst.pri)] else []) + Adverts(s, keys[1..])
  }

  function AllMaster(insts: seq<Inst>, keys: seq<Key>): (r: seq<Inst>)
    ensures |r| == |insts|
  {
    seq(|insts|, i requires 0 <= i < |insts| =>
      if insts[i].key in keys then insts[i].(state := Master) else insts[i])
  }

  lemma OwnerIsUnique(s: Daemon, i: nat)
    requires Registered(Keys(s.insts)) && i < |s.insts|
    ensures First(Keys(s.insts), s.insts[i].key) == i
  {
    FirstIsOnly(Keys(s.insts), i);
  }

  function HeadOut(s: Daemon): Daemon
    requires s.order != [] && WellQueued(s)
  {
    s.(order := s.order[1..], due := s.due[1..])
  }

  lemma HeadOutIsLeave(s: Daemon)
    requires Inv(s) && s.order != []
    ensures HeadOut(s) == Leave(s, s.order[0]) == Leave(HeadOut(s), s.order[0])
  {
    assert First(s.order, s.order[0]) == 0;
    assert Removed(s.order, 0) == s.order[1..] && Removed(s.due, 0) == s.due[1..];
  }

  /** A turn of the handler, whichever state it finds. */
  function Handled(s: Daemon, i: nat): Daemon
    requires WellQueued(s) && i < |s.insts|
  {
    var inst := s.insts[i];
    Enter(Leave(s, inst.key), inst.key, Interval(inst)).(
      insts := s.insts[i := inst.(state := Master)],
      sent := s.sent + if inst.state == Master then [Advert(inst.key.id, inst.pri)] else [])
  }

  lemma SetSame(insts: seq<Inst>, i: nat, x: Inst)
    requires i < |insts| && insts[i] == x
    ensures insts[i := x] == insts
  {
  }

  lemma EnterSent(s: Daemon, key: Key, usecs: nat, sent: seq<Advert>)
    requires WellQueued(s)
    ensures Enter(s.(sent := sent), key, usecs) == Enter(s, key, usecs).(sent := sent)
  {
  }

  lemma MasterHandled(s: Daemon, i: nat)
    requires WellQueued(s) && s.order != [] && i == First(Keys(s.insts), s.order[0]) < |s.insts|
    requires s.insts[i].key == s.order[0] && s.insts[i].state == Master && HeadOut(s) == Leave(s, s.order[0])
    ensures HandleHead(s) == Handled(s, i)
  {
    var x := s.insts[i];
    SetSame(s.insts, i, x.(state := Master));
    EnterSent(HeadOut(s), x.key, Interval(x), s.sent + [Advert(x.key.id, x.pri)]);
  }

  lemma BackupHandled(s: Daemon, i: nat)
    requires WellQueued(s) && s.order != [] && i == First(Keys(s.insts), s.order[0]) < |s.insts|
    requires s.insts[i].key == s.order[0] && s.insts[i].state == Backup
    requires HeadOut(s) == Leave(s, s.order[0]) == Leave(HeadOut(s), s.order[0])
    ensures HandleHead(s) == Handled(s, i)
  {
    assert s.sent + [] == s.sent;
  }

  lemma HandleHeadIs(s: Daemon, i: nat)
    requires WellQueued(s) && s.order != [] && i == First(Keys(s.insts), s.order[0]) < |s.insts|
    requires s.insts[i].key == s.order[0] && s.insts[i].state != Init
    requires HeadOut(s) == Leave(s, s.order[0]) == Leave(HeadOut(s), s.order[0])
    ensures HandleHead(s) == Handled(s, i)
  {
    if s.insts[i].state == Master {
      MasterHandled(s, i);
    } else {
      BackupHandled(s, i);
    }
  }

  lemma HandledKeepsInv(s: Daemon, i: nat)
    requires Inv(s) && i < |s.insts|
    ensures Inv(Handled(s, i)) && Keys(Handled(s, i).insts) == Keys(s.insts)
  {
    var inst := s.insts[i];
    RetimedKeepsInv(s, i, inst.(state := Master), Interval(inst));
    SameButSent(Enter(Leave(s, inst.key), inst.key, Interval(inst)).(insts := s.insts[i := inst.(state := Master)]),
                Handled(s, i));
  }

  lemma HandledSched(s: Daemon, i: nat)
    requires Inv(s) && i < |s.insts|
    ensures Sched(Handled(s, i)) == Sched(s)[s.insts[i].key := s.now + Interval(s.insts[i])]
  {
    RetimedSched(s, s.insts[i].key, Interval(s.insts[i]));
  }

  lemma HeadOwner(s: Daemon) returns (i: nat)
    requires Inv(s) && s.order != []
    ensures i < |s.insts| && s.insts[i].key == s.order[0] && s.insts[i].state != Init
    ensures HandleHead(s) == Handled(s, i)
  {
    i := First(Keys(s.insts), s.order[0]);
    assert s.order[0] in s.order;
    assert Keys(s.insts)[i] == s.order[0];
    HeadOutIsLeave(s);
    HandleHeadIs(s, i);
  }

  lemma FrontStays(due: seq<nat>, n: nat, now: nat, later: nat, due': seq<nat>)
    requires 1 <= n <= |due| && now < later && forall j :: 0 <= j < n ==> due[j] == now
    requires due' == Inserted(due[1..], Place(due[1..], later), later)
    ensures n - 1 <= Place(due[1..], later)
    ensures forall j :: 0 <= j < n - 1 ==> due'[j] == now
  {
    PlaceIsFirst(due[1..], later);
    assert forall j :: 0 <= j < |due| - 1 ==> due[1..][j] == due[j + 1];
  }

  lemma InsertedBehind(order: seq<Key>, key: Key, at: nat, n: nat)
    requires 1 <= n <= at + 1 <= |order|
    ensures Inserted(order[1..], at, key)[..n - 1] == order[1..n]
  {
  }

  lemma EnteredBehind(s: Daemon, usecs: nat, n: nat)
    requires WellQueued(s) && 1 <= n <= |s.order| && usecs > 0 && forall j :: 0 <= j < n ==> s.due[j] == s.now
    ensures var r := Enter(HeadOut(s), s.order[0], usecs);
      && |r.order| == |s.order| && r.order[..n - 1] == s.order[1..n]
      && forall j :: 0 <= j < n - 1 ==> r.due[j] == s.now
  {
    var later := s.now + usecs;
    FrontStays(s.due, n, s.now, later, Enter(HeadOut(s), s.order[0], usecs).due);
    InsertedBehind(s.order, s.order[0], Place(s.due[1..], later), n);
  }

  /** The entries due with the head stay in front, in their order, as it is requeued later. */
  lemma NextHeads(s: Daemon, i: nat, n: nat)
    requires Inv(s) && i < |s.insts| && 1 <= n <= |s.order| && s.insts[i].key == s.order[0]
    requires Interval(s.insts[i]) > 0 && forall j :: 0 <= j < n ==> s.due[j] == s.now
    ensures var r := Handled(s, i);
      && |r.order| == |s.order| == |r.due| && r.order[..n - 1] == s.order[1..n]
      && forall j :: 0 <= j < n - 1 ==> r.due[j] == s.now
  {
    HeadOutIsLeave(s);
    EnteredBehind(s, Interval(s.insts[i]), n);
  }

  lemma OwnerUnmoved(s: Daemon, i: nat, key: Key)
    requires Registered(Keys(s.insts)) && WellQueued(s) && i < |s.insts|
    requires key in Keys(s.insts) && key != s.insts[i].key
    ensures Keys(Handled(s, i).insts) == Keys(s.insts) && Owner(Handled(s, i), key) == Owner(s, key)
  {
    assert Keys(Handled(s, i).insts) == Keys(s.insts);
    assert Keys(s.insts)[i] == s.insts[i].key;
  }

  lemma {:induction false} AdvertsUnmoved(s: Daemon, i: nat, keys: seq<Key>)
    requires Registered(Keys(s.insts)) && WellQueued(s) && i < |s.insts|
    requires forall k :: k in keys ==> k in Keys(s.insts) && k != s.insts[i].key
    ensures Keys(Handled(s, i).insts) == Keys(s.insts) && Adverts(Handled(s, i), keys) == Adverts(s, keys)
    decreases keys
  {
    assert Keys(Handled(s, i).insts) == Keys(s.insts);
    if keys != [] {
      assert keys[0] in keys;
      OwnerUnmoved(s, i, keys[0]);
      AdvertsUnmoved(s, i, keys[1..]);
    }
  }

  lemma PromotedTwice(s: Daemon, i: nat, keys: seq<Key>)
    requires Registered(Keys(s.insts)) && i < |s.insts|
    ensures AllMaster(s.insts[i := s.insts[i].(state := Master)], keys) == AllMaster(s.insts, [s.insts[i].key] + keys)
  {
    KeysDiffer(s, i);
  }

  /** The deadlines after the entries `heads` were requeued. */
  ghost function Requeued(s: Daemon, heads: seq<Key>): map<Key, nat>
    requires Inv(s) && forall k :: k in heads ==> k in Keys(s.insts)
  {
    map k | k in Sched(s) :: if k in heads then s.now + Interval(Owner(s, k)) else Sched(s)[k]
  }

  lemma RequeuedTwice(s: Daemon, i: nat, heads: seq<Key>)
    requires Inv(s) && i < |s.insts| && s.insts[i].key in Sched(s)
    requires forall k :: k in heads ==> k in Keys(s.insts) && k != s.insts[i].key
    ensures Inv(Handled(s, i)) && Keys(Handled(s, i).insts) == Keys(s.insts)
    ensures Requeued(Handled(s, i), heads) == Requeued(s, [s.insts[i].key] + heads)
  {
    HandledKeepsInv(s, i);
    HandledSched(s, i);
    OwnerIsUnique(s, i);
    var key := s.insts[i].key;
    var once, twice := Requeued(s, [key] + heads), Requeued(Handled(s, i), heads);
    assert twice.Keys == once.Keys;
    forall k | k in once
      ensures twice[k] == once[k]
    {
      if k in heads {
        OwnerUnmoved(s, i, k);
      }
    }
  }

  lemma HeadsRegistered(s: Daemon, n: nat)
    requires Inv(s) && n <= |s.order|
    ensures forall k :: k in s.order[..n] ==> k in Keys(s.insts) && k in Sched(s)
  {
    DeadlineAt(s.order, s.due);
  }

  predicate AllLasting(s: Daemon, n: nat)
    requires n <= |s.order|
  {
    forall j: nat {:trigger Lasting(s, s.order[j])} :: j + 1 < n ==> Lasting(s, s.order[j])
  }

  /** The first n entries are due now, and all but the last of them are requeued later. */
  ghost predicate DueHeads(s: Daemon, n: nat) {
    Inv(s) && n <= |s.order| && (forall j :: 0 <= j < n ==> s.due[j] == s.now) && AllLasting(s, n)
  }

  lemma LastingKept(s: Daemon, i: nat, key: Key)
    requires WellQueued(s) && i < |s.insts|
    ensures Lasting(Handled(s, i), key) <==> Lasting(s, key)
  {
    var next := Handled(s, i);
    assert forall j :: 0 <= j < |s.insts| ==>
      next.insts[j].key == s.insts[j].key && Interval(next.insts[j]) == Interval(s.insts[j]);
    if Lasting(next, key) {
      assert forall j :: 0 <= j < |s.insts| && s.insts[j].key == key ==> next.insts[j].key == key;
    }
  }

  lemma LastingOwner(s: Daemon, i: nat)
    requires Registered(Keys(s.insts)) && i < |s.insts|
    ensures s.insts[i].key in Keys(s.insts) && Owner(s, s.insts[i].key) == s.insts[i]
    ensures Lasting(s, s.insts[i].key) <==> Interval(s.insts[i]) > 0
  {
    assert Keys(s.insts)[i] == s.insts[i].key;
    OwnerIsUnique(s, i);
    KeysDiffer(s, i);
  }

  lemma HeadsDiffer(s: Daemon, n: nat)
    requires Inv(s) && 1 <= n <= |s.order|
    ensures s.order[..n] == [s.order[0]] + s.order[1..n]
    ensures forall k :: k in s.order[1..n] ==> k in Keys(s.insts) && k != s.order[0]
    ensures s.order[0] in Sched(s)
  {
    DeadlineAt(s.order, s.due);
    DistinctFrom(s.order, 0);
  }

  lemma HeadsAfter(s: Daemon, i: nat, n: nat)
    requires DueHeads(s, n) && n > 0 && i < |s.insts| && s.insts[i].key == s.order[0]
    ensures var r := Handled(s, i);
      && n <= |r.order| == |r.due| && r.order[..n - 1] == s.order[1..n]
      && forall j :: 0 <= j < n - 1 ==> r.due[j] == s.now
  {
    if n > 1 {
      LastingOwner(s, i);
      assert Lasting(s, s.order[0]);
      NextHeads(s, i, n);
    } else {
      HeadOutIsLeave(s);
    }
  }

  lemma OneOff(s: Daemon, n: nat, r: Daemon, next: Daemon)
    requires WellQueued(s) && s.order != [] && n > 0 && r == HandleTimes(s, n) && next == HandleHead(s)
    ensures r == HandleTimes(next, n - 1)
  {
  }

  lemma LastingBehind(s: Daemon, i: nat, n: nat)
    requires WellQueued(s) && i < |s.insts| && 1 <= n <= |s.order| && AllLasting(s, n)
    requires n - 1 <= |Handled(s, i).order| && Handled(s, i).order[..n - 1] == s.order[1..n]
    ensures AllLasting(Handled(s, i), n - 1)
  {
    var next := Handled(s, i);
    forall j: nat | j + 1 < n - 1
      ensures Lasting(next, next.order[j])
    {
      assert next.order[j] == next.order[..n - 1][j] == s.order[1..n][j] == s.order[j + 1];
      LastingKept(s, i, s.order[j + 1]);
    }
  }

  /** One turn, seen from the entries that are due: it takes the first one. */
  lemma HeadTurn(s: Daemon, n: nat) returns (i: nat, next: Daemon)
    requires DueHeads(s, n) && n > 0
    ensures i < |s.insts| && s.insts[i].key == s.order[0]
    ensures next == HandleHead(s) == Handled(s, i) && DueHeads(next, n - 1)
    ensures next.order[..n - 1] == s.order[1..n]
  {
    i := HeadOwner(s);
    next := Handled(s, i);
    HeadsAfter(s, i, n);
    HandledKeepsInv(s, i);
    LastingBehind(s, i, n);
  }

  /** The first n entries and no others are due now. */
  ghost predicate ExactlyDue(s: Daemon, n: nat) {
    DueHeads(s, n) && (n < |s.due| ==> s.due[n] > s.now)
  }

  lemma TiesAreExactlyDue(s: Daemon)
    requires Inv(s) && Enabled(s, Alarm) && s.due != []
    ensures ExactlyDue(s, Ties(s.due))
  {
    AscendingPairs(s.due);
  }

  lemma NextIsLater(due: seq<nat>, n: nat, now: nat, later: nat)
    requires 1 <= n <= |due| && now < later && forall j :: 0 <= j < n ==> due[j] == now
    requires n < |due| ==> due[n] > now
    ensures var due' := Inserted(due[1..], Place(due[1..], later), later);
      n - 1 < |due'| && due'[n - 1] > now
  {
    FrontStays(due, n, now, later, Inserted(due[1..], Place(due[1..], later), later));
  }

  lemma EnteredLater(s: Daemon, usecs: nat, n: nat)
    requires WellQueued(s) && 1 <= n <= |s.order| && usecs > 0 && forall j :: 0 <= j < n ==> s.due[j] == s.now
    requires n < |s.due| ==> s.due[n] > s.now
    ensures var r := Enter(HeadOut(s), s.order[0], usecs); n - 1 < |r.due| && r.due[n - 1] > s.now
  {
    NextIsLater(s.due, n, s.now, s.now + usecs);
  }

  /** After a turn that was not the last the other entries that were due, and no others, are. */
  lemma TurnLeavesTheRest(s: Daemon, n: nat, next: Daemon)
    requires ExactlyDue(s, n) && n > 0 && next == HandleHead(s)
    ensures HandleTimes(next, n - 1) == HandleTimes(s, n)
    ensures Lasting(s, s.order[0]) ==> ExactlyDue(next, n - 1)
  {
    var i, _ := HeadTurn(s, n);
    OneOff(s, n, HandleTimes(s, n), next);
    if Lasting(s, s.order[0]) {
      LastingOwner(s, i);
      HeadOutIsLeave(s);
      EnteredLater(s, Interval(s.insts[i]), n);
    }
  }

  lemma AdvertsOfHead(s: Daemon, i: nat, keys: seq<Key>)
    requires Registered(Keys(s.insts)) && WellQueued(s) && i < |s.insts|
    requires forall k :: k in keys ==> k in Keys(s.insts)
    ensures s.insts[i].key in Keys(s.insts)
    ensures s.sent + Adverts(s, [s.insts[i].key] + keys) == Handled(s, i).sent + Adverts(s, keys)
  {
    OwnerIsUnique(s, i);
    assert Keys(s.insts)[i] == s.insts[i].key;
    assert ([s.insts[i].key] + keys)[1..] == keys;
  }

  lemma HeadPromoted(s: Daemon, n: nat, i: nat, next: Daemon)
    requires DueHeads(s, n) && n > 0 && i < |s.insts| && s.insts[i].key == s.order[0] && next == Handled(s, i)
    ensures next.now == s.now && next.flag == s.flag
    ensures AllMaster(next.insts, s.order[1..n]) == AllMaster(s.insts, s.order[..n])
  {
    HeadsDiffer(s, n);
    PromotedTwice(s, i, s.order[1..n]);
  }

  lemma HeadAdvertised(s: Daemon, n: nat, i: nat, next: Daemon)
    requires DueHeads(s, n) && n > 0 && i < |s.insts| && s.insts[i].key == s.order[0] && next == Handled(s, i)
    ensures forall k :: k in s.order[..n] ==> k in Keys(s.insts)
    ensures forall k :: k in s.order[1..n] ==> k in Keys(next.insts)
    ensures next.sent + Adverts(next, s.order[1..n]) == s.sent + Adverts(s, s.order[..n])
  {
    HeadsRegistered(s, n);
    HeadsDiffer(s, n);
    AdvertsUnmoved(s, i, s.order[1..n]);
    AdvertsOfHead(s, i, s.order[1..n]);
  }

  lemma HeadRequeued(s: Daemon, n: nat, i: nat, next: Daemon)
    requires DueHeads(s, n) && n > 0 && i < |s.insts| && s.insts[i].key == s.order[0] && next == Handled(s, i)
    ensures Inv(next)
    ensures forall k :: k in s.order[..n] ==> k in Keys(s.insts)
    ensures forall k :: k in s.order[1..n] ==> k in Keys(next.insts)
    ensures Requeued(next, s.order[1..n]) == Requeued(s, s.order[..n])
  {
    HeadsRegistered(s, n);
    HeadsDiffer(s, n);
    RequeuedTwice(s, i, s.order[1..n]);
  }

  /** r is s after the entries `heads` were handled, each once and in this order: the masters among
      them advertised, all of them are MASTER and requeued by their own interval, and nothing else
      moved. */
  ghost predicate HandledExactly(s: Daemon, r: Daemon, heads: seq<Key>) {
    && Inv(s) && Inv(r) && (forall k :: k in heads ==> k in Keys(s.insts))
    && r.now == s.now && r.flag == s.flag
    && r.insts == AllMaster(s.insts, heads)
    && r.sent == s.sent + Adverts(s, heads)
    && Sched(r) == Requeued(s, heads)
  }

  lemma NothingHandled(s: Daemon)
    requires Inv(s)
    ensures HandledExactly(s, s, s.order[..0])
  {
  }

  /** After the first of the entries, the rest of them. */
  lemma FirstThenRest(s: Daemon, n: nat, i: nat, next: Daemon, r: Daemon)
    requires DueHeads(s, n) && n > 0 && i < |s.insts| && s.insts[i].key == s.order[0] && next == Handled(s, i)
    requires HandledExactly(next, r, s.order[1..n])
    ensures HandledExactly(s, r, s.order[..n])
  {
    HeadPromoted(s, n, i, next);
    HeadAdvertised(s, n, i, next);
    HeadRequeued(s, n, i, next);
  }

  /** r is where a turn of the handler leads from s. */
  predicate Turned(s: Daemon, r: Daemon) {
    WellQueued(s) && s.order != [] && r == HandleHead(s)
  }

  ghost predicate Chain(ss: seq<Daemon>) {
    forall j: nat :: j + 1 < |ss| ==> Turned(ss[j], ss[j + 1])
  }

  lemma Chained(s: Daemon, rest: seq<Daemon>)
    requires rest != [] && Chain(rest) && Turned(s, rest[0])
    ensures Chain([s] + rest)
  {
    var ss := [s] + rest;
    forall j: nat | j + 1 < |ss|
      ensures Turned(ss[j], ss[j + 1])
    {
      if j > 0 {
        assert Turned(rest[j - 1], rest[j - 1 + 1]);
      }
    }
  }

  lemma FirstTurn(s: Daemon, n: nat) returns (next: Daemon)
    requires DueHeads(s, n) && n > 0
    ensures DueHeads(next, n - 1) && Turned(s, next)
  {
    var i;
    i, next := HeadTurn(s, n);
  }

  lemma RestHandled(s: Daemon, n: nat, next: Daemon, r: Daemon)
    requires DueHeads(s, n) && n > 0 && Turned(s, next)
    requires n - 1 <= |next.order| && HandledExactly(next, r, next.order[..n - 1])
    ensures HandledExactly(s, r, s.order[..n])
  {
    var i, head := HeadTurn(s, n);
    FirstThenRest(s, n, i, next, r);
  }

  /** n turns, through the states ss, lead from s to r. */
  ghost predicate TurnsFrom(s: Daemon, n: nat, ss: seq<Daemon>, r: Daemon) {
    |ss| == n + 1 && ss[0] == s && ss[n] == r && Chain(ss)
  }

  lemma MoreTurns(s: Daemon, n: nat, next: Daemon, rest: seq<Daemon>, r: Daemon)
    requires n > 0 && Turned(s, next) && TurnsFrom(next, n - 1, rest, r)
    ensures TurnsFrom(s, n, [s] + rest, r)
  {
    Chained(s, rest);
  }

  lemma {:induction false} TurnsExist(s: Daemon, n: nat) returns (ss: seq<Daemon>, r: Daemon)
    requires DueHeads(s, n)
    ensures TurnsFrom(s, n, ss, r)
    decreases n
  {
    if n == 0 {
      ss, r := [s], s;
    } else {
      var next := FirstTurn(s, n);
      var rest;
      rest, r := TurnsExist(next, n - 1);
      MoreTurns(s, n, next, rest, r);
      ss := [s] + rest;
    }
  }

  lemma FewerTurns(s: Daemon, n: nat, ss: seq<Daemon>, r: Daemon) returns (next: Daemon)
    requires DueHeads(s, n) && n > 0 && TurnsFrom(s, n, ss, r)
    ensures DueHeads(next, n - 1) && Turned(s, next) && TurnsFrom(next, n - 1, ss[1..], r)
  {
    next := FirstTurn(s, n);
    assert Turned(ss[0], ss[0 + 1]);
    forall j: nat | j + 1 < |ss[1..]|
      ensures Turned(ss[1..][j], ss[1..][j + 1])
    {
      assert Turned(ss[j + 1], ss[j + 1 + 1]);
    }
  }

  /** The first n entries being due, n turns handle them. */
  lemma {:induction false} TurnsHandle(s: Daemon, n: nat, ss: seq<Daemon>, r: Daemon)
    requires DueHeads(s, n) && TurnsFrom(s, n, ss, r)
    ensures HandledExactly(s, r, s.order[..n])
    decreases n
  {
    if n == 0 {
      NothingHandled(s);
    } else {
      var next := FewerTurns(s, n, ss, r);
      TurnsHandle(next, n - 1, ss[1..], r);
      RestHandled(s, n, next, r);
    }
  }

  lemma {:induction false} TurnsLead(ss: seq<Daemon>)
    requires |ss| > 0 && Chain(ss) && WellQueued(ss[0])
    ensures HandleTimes(ss[0], |ss| - 1) == ss[|ss| - 1]
    decreases ss
  {
    if |ss| > 1 {
      assert Turned(ss[0], ss[1]);
      forall j: nat | j + 1 < |ss[1..]|
        ensures Turned(ss[1..][j], ss[1..][j + 1])
      {
        assert Turned(ss[j + 1], ss[j + 1 + 1]);
      }
      TurnsLead(ss[1..]);
    }
  }

  /** One firing handles exactly the entries that are due now. It leaves none due, or just the last
      of them if that one's interval converts to nothing. */
  lemma AlarmHandlesExactlyTheDue(s: Daemon)
    requires Inv(s) && Enabled(s, Alarm) && s.due != []
    ensures HandledExactly(s, DoAlarm(s), s.order[..Ties(s.due)])
    ensures forall k :: k in Sched(s) ==> (k in s.order[..Ties(s.due)] <==> Sched(s)[k] == s.now)
    ensures var (r, last) := (DoAlarm(s), s.order[Ties(s.due) - 1]);
      && r.due != []
      && if Lasting(s, last) then r.due[0] > s.now
         else r.order[0] == last && r.due[0] == s.now && Ties(r.due) == 1
  {
    var n := Ties(s.due);
    TiesAreExactlyDue(s);
    var ss, r := TurnsExist(s, n);
    TurnsHandle(s, n, ss, r);
    TurnsLead(ss);
    DueNow(s);
    StillDue(s, DoAlarm(s), s.order[..n]);
  }

  lemma DueNow(s: Daemon)
    requires Inv(s) && s.due != [] && s.due[0] == s.now
    ensures forall k :: k in Sched(s) ==> (k in s.order[..Ties(s.due)] <==> Sched(s)[k] == s.now)
  {
    var n := Ties(s.due);
    DeadlineAt(s.order, s.due);
    AscendingPairs(s.due);
    forall k | k in Sched(s)
      ensures k in s.order[..n] <==> Sched(s)[k] == s.now
    {
      var i :| 0 <= i < |s.order| && s.order[i] == k;
      DistinctFrom(s.order, i);
      assert i < n ==> s.order[..n][i] == k;
    }
  }

  lemma LastingExactly(s: Daemon, k: Key)
    requires Registered(Keys(s.insts)) && k in Keys(s.insts)
    ensures Lasting(s, k) <==> Interval(Owner(s, k)) > 0
  {
    var i := First(Keys(s.insts), k);
    LastingOwner(s, i);
  }

  lemma TieAt(s: Daemon, k: Key)
    requires Inv(s) && s.due != [] && s.due[0] == s.now && k in s.order[..Ties(s.due)]
    ensures k in Keys(s.insts)
    ensures AllLasting(s, Ties(s.due)) ==> k == s.order[Ties(s.due) - 1] || Lasting(s, k)
  {
    var j :| 0 <= j < Ties(s.due) && s.order[..Ties(s.due)][j] == k;
    assert s.order[j] in s.order;
    if AllLasting(s, Ties(s.due)) && j + 1 < Ties(s.due) {
      assert Lasting(s, s.order[j]);
    }
  }

  /** Of the requeued entries only the last can be due at once. */
  lemma RequeuedLater(s: Daemon, heads: seq<Key>, k: Key)
    requires Inv(s) && Enabled(s, Alarm) && s.due != [] && heads == s.order[..Ties(s.due)]
    requires (forall h :: h in heads ==> h in Keys(s.insts)) && k in Sched(s)
    ensures var (m, last) := (Requeued(s, heads), s.order[Ties(s.due) - 1]);
      k in m && m[k] >= s.now && (m[k] == s.now <==> k == last && !Lasting(s, last))
  {
    DueNow(s);
    SchedNotOverdue(s, k);
    assert heads[Ties(s.due) - 1] == s.order[Ties(s.due) - 1];
    if k in heads {
      TieAt(s, k);
      LastingExactly(s, k);
    }
  }

  lemma SchedNotOverdue(s: Daemon, k: Key)
    requires QueueOk(s) && k in Sched(s)
    ensures Sched(s)[k] >= s.now
  {
    DeadlineAt(s.order, s.due);
    AscendingPairs(s.due);
    var j :| 0 <= j < |s.order| && s.order[j] == k;
    assert Sched(s)[k] == s.due[j];
  }

  /** In a schedule in which `last` alone can be due now, it is then the first. */
  lemma LeftDue(r: Daemon, last: Key, vanished: bool)
    requires QueueOk(r) && last in Sched(r)
    requires forall k :: k in Sched(r) ==> Sched(r)[k] >= r.now && (Sched(r)[k] == r.now <==> k == last && vanished)
    ensures r.due != []
    ensures if vanished then r.order[0] == last && r.due[0] == r.now && Ties(r.due) == 1 else r.due[0] > r.now
  {
    DeadlineAt(r.order, r.due);
    AscendingPairs(r.due);
    var j :| 0 <= j < |r.order| && r.order[j] == last;
    assert r.order[0] in Sched(r);
    DistinctFrom(r.order, 0);
    if |r.order| > 1 {
      assert r.order[1] in Sched(r);
    }
  }

  lemma StillDue(s: Daemon, r: Daemon, heads: seq<Key>)
    requires Inv(s) && Enabled(s, Alarm) && Inv(r) && s.due != [] && heads == s.order[..Ties(s.due)]
    requires r.now == s.now && (forall k :: k in heads ==> k in Keys(s.insts)) && Sched(r) == Requeued(s, heads)
    ensures var last := s.order[Ties(s.due) - 1];
      && r.due != []
      && if Lasting(s, last) then r.due[0] > s.now
         else r.order[0] == last && r.due[0] == s.now && Ties(r.due) == 1
  {
    var last := s.order[Ties(s.due) - 1];
    forall k | k in Sched(r)
      ensures Sched(r)[k] >= r.now && (Sched(r)[k] == r.now <==> k == last && !Lasting(s, last))
    {
      RequeuedLater(s, heads, k);
    }
    assert last in s.order;
    HeadsRegistered(s, |s.order|);
    assert s.order[..|s.order|] == s.order;
    LeftDue(r, last, !Lasting(s, last));
  }

  // ----- When the handler ends -----

  /** The first n entries and no others are due now, whatever their intervals. */
  ghost predicate AllDue(s: Daemon, n: nat) {
    && Inv(s) && 1 <= n <= |s.order| && (forall j :: 0 <= j < n ==> s.due[j] == s.now)
    && (n < |s.due| ==> s.due[n] > s.now)
  }

  lemma EnteredAtOnce(s: Daemon)
    requires WellQueued(s) && |s.due| > 1 && s.due[0] == s.due[1] == s.now
    ensures Enter(HeadOut(s), s.order[0], 0) == s
  {
    assert Place(s.due[1..], s.now) == 0;
    assert Inserted(s.order[1..], 0, s.order[0]) == s.order && Inserted(s.due[1..], 0, s.now) == s.due;
  }

  lemma HandledAtOnce(s: Daemon, i: nat)
    requires WellQueued(s) && i < |s.insts| && |s.due| > 1 && s.due[0] == s.due[1] == s.now
    requires s.insts[i].key == s.order[0] && Interval(s.insts[i]) == 0 && Leave(s, s.order[0]) == HeadOut(s)
    ensures Handled(s, i).order == s.order && Handled(s, i).due == s.due && Handled(s, i).now == s.now
  {
    EnteredAtOnce(s);
  }

  /** An entry whose interval is nothing goes back to the front, due now: nothing has moved. */
  lemma VanishingTurn(s: Daemon, n: nat) returns (i: nat)
    requires AllDue(s, n) && n > 1 && !Lasting(s, s.order[0])
    ensures i < |s.insts| && HandleHead(s) == Handled(s, i) && AllDue(Handled(s, i), n)
    ensures Handled(s, i).order == s.order
  {
    i := HeadOwner(s);
    LastingOwner(s, i);
    HeadOutIsLeave(s);
    HandledAtOnce(s, i);
    HandledKeepsInv(s, i);
  }

  lemma LastingTurn(s: Daemon, n: nat) returns (i: nat)
    requires AllDue(s, n) && n > 1 && Lasting(s, s.order[0])
    ensures i < |s.insts| && HandleHead(s) == Handled(s, i) && AllDue(Handled(s, i), n - 1)
    ensures Handled(s, i).order[..n - 1] == s.order[1..n]
  {
    i := HeadOwner(s);
    LastingOwner(s, i);
    HeadOutIsLeave(s);
    HandledKeepsInv(s, i);
    NextHeads(s, i, n);
    EnteredLater(s, Interval(s.insts[i]), n);
  }

  lemma AllLastingStep(s: Daemon, i: nat, n: nat)
    requires WellQueued(s) && i < |s.insts| && 1 < n <= |s.order| && Lasting(s, s.order[0])
    requires n - 1 <= |Handled(s, i).order| && Handled(s, i).order[..n - 1] == s.order[1..n]
    ensures AllLasting(Handled(s, i), n - 1) <==> AllLasting(s, n)
  {
    var r := Handled(s, i);
    forall j: nat | j + 1 < n - 1
      ensures Lasting(r, r.order[j]) <==> Lasting(s, s.order[j + 1])
    {
      assert r.order[j] == r.order[..n - 1][j] == s.order[1..n][j] == s.order[j + 1];
      LastingKept(s, i, s.order[j + 1]);
    }
    forall j: nat | j + 1 < n && AllLasting(r, n - 1)
      ensures Lasting(s, s.order[j])
    {
      if j > 0 {
        assert Lasting(r, r.order[j - 1]);
      }
    }
  }

  /** A turn that is not the last leaves one entry fewer, or everything as it was. */
  lemma NextTurn(s: Daemon, n: nat) returns (next: Daemon, m: nat)
    requires AllDue(s, n) && n > 1
    ensures next == HandleHead(s) && AllDue(next, m)
    ensures m == if Lasting(s, s.order[0]) then n - 1 else n
    ensures AllLasting(next, m) <==> AllLasting(s, n)
    ensures AllLasting(s, n) ==> Lasting(s, s.order[0])
  {
    next := HandleHead(s);
    if Lasting(s, s.order[0]) {
      m := n - 1;
      var i := LastingTurn(s, n);
      AllLastingStep(s, i, n);
    } else {
      m := n;
      var i := VanishingTurn(s, n);
      LastingKept(s, i, s.order[0]);
      assert !Lasting(next, next.order[0]);
    }
  }

  lemma MoreThanOne(s: Daemon, n: nat)
    requires AllDue(s, n)
    ensures More(s) <==> n > 1
  {
  }

  lemma EndsNext(s: Daemon, turns: nat, next: Daemon)
    requires WellQueued(s) && s.order != [] && next == HandleHead(s) && More(s)
    ensures EndsAfter(s, turns) <==> turns > 0 && EndsAfter(next, turns - 1)
  {
  }

  lemma EndsLast(s: Daemon, turns: nat)
    requires WellQueued(s) && s.order != [] && !More(s)
    ensures EndsAfter(s, turns) <==> turns == 1
  {
  }

  lemma {:induction false} EndsExactly(s: Daemon, n: nat, turns: nat)
    requires AllDue(s, n)
    ensures EndsAfter(s, turns) <==> AllLasting(s, n) && turns == n
    decreases turns
  {
    MoreThanOne(s, n);
    if n == 1 {
      EndsLast(s, turns);
    } else {
      var next, m := NextTurn(s, n);
      EndsNext(s, turns, next);
      if turns > 0 {
        EndsExactly(next, m, turns - 1);
      }
    }
  }

  /** The handler ends if and only if none of the entries due now, the last one excepted, belongs to
      an instance whose interval is a multiple of 2^26 seconds; it then takes one turn for each. */
  lemma AlarmEndsExactly(s: Daemon, turns: nat)
    requires Inv(s) && s.due != [] && s.due[0] == s.now
    ensures EndsAfter(s, turns) <==> Drains(s) && turns == Ties(s.due)
    ensures Drains(s) <==>
      forall j: nat :: j + 1 < Ties(s.due) ==>
        s.order[j] in Keys(s.insts) && Owner(s, s.order[j]).delay % 0x400_0000 != 0
  {
    var n := Ties(s.due);
    AscendingPairs(s.due);
    EndsExactly(s, n, turns);
    forall j: nat | j + 1 < n
      ensures s.order[j] in Keys(s.insts)
      ensures Lasting(s, s.order[j]) <==> Owner(s, s.order[j]).delay % 0x400_0000 != 0
    {
      assert s.order[j] in s.order;
      LastingExactly(s, s.order[j]);
      IntervalVanishesExactly(Owner(s, s.order[j]).delay);
    }
  }
}
