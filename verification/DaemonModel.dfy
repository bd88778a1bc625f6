/** One daemon as a state machine over its commands, its timer and the advertisements it hears. */
module DaemonModel {
  import opened Protocol
  import opened Objects
  import opened Lists
  import opened Schedules
  import opened KeyLists

  datatype Inst = Inst(key: Key, state: State, pri: Byte, delay: int, preempt: bool, accept: bool)

  /** What an advertisement says to its receivers. */
  datatype Advert = Advert(id: Byte, pri: Byte)

  /** The registry, the advertisement queue as keys and absolute deadlines, the table of masters
      heard of, and what was multicast. */
  datatype Daemon = Daemon(now: nat, insts: seq<Inst>, order: seq<Key>, due: seq<nat>,
                           flag: seq<bool>, sent: seq<Advert>)

  datatype Event =
    | Create(key: Key, pri: Byte, delay: int, ipnum: Byte, preempt: bool, accept: bool)
    | Destroy(query: Key)
    | Startup(query: Key)
    | Shutdown(query: Key)
    | Modify(query: Key, newPri: int, newDelay: int, newPreempt: int, newAccept: int)
    | Receive(port: string, af: int, advert: Advert)
    | Alarm
    | Elapse(usecs: nat)

  /** Return codes; the argument checks return errno's EINVAL, and a search result that is used
      before it is tested ends the process. */
  datatype Ret = Success | Exists | ErrnoEinval | VrrpEinval | NoInst | Segv

  const UNCHANGE: int := -1

  function Keys(insts: seq<Inst>): (k: seq<Key>)
    ensures |k| == |insts|
  {
    seq(|insts|, i requires 0 <= i < |insts| => insts[i].key)
  }

  function Interval(inst: Inst): nat {
    Usecs(Micros(inst.delay))
  }

  function MasterDown(inst: Inst): nat {
    Usecs(WrittenMasterDown(inst.delay, inst.pri))
  }

  /** The first VRID from i on that a master is up for; 0 if there is none. */
  function MasterUp(flag: seq<bool>, i: nat): nat
    decreases |flag| - i
  {
    if i >= |flag| then 0 else if flag[i] then i else MasterUp(flag, i + 1)
  }

  predicate AnyMasterUp(flag: seq<bool>) {
    MasterUp(flag, 1) != 0
  }

  // ----- Queue, state and network primitives -----

  predicate WellQueued(s: Daemon) {
    |s.order| == |s.due|
  }

  function Enter(s: Daemon, key: Key, usecs: nat): (r: Daemon)
    requires WellQueued(s)
    ensures WellQueued(r)
  {
    var at := Place(s.due, s.now + usecs);
    s.(order := Inserted(s.order, at, key), due := Inserted(s.due, at, s.now + usecs))
  }

  function Leave(s: Daemon, key: Key): (r: Daemon)
    requires WellQueued(s)
    ensures WellQueued(r)
  {
    var at := First(s.order, key);
    if at == |s.order| then s else s.(order := Removed(s.order, at), due := Removed(s.due, at))
  }

  function Become(s: Daemon, i: nat, state: State): Daemon
    requires i < |s.insts|
  {
    s.(insts := s.insts[i := s.insts[i].(state := state)])
  }

  function Send(s: Daemon, id: Byte, pri: Byte): Daemon {
    s.(sent := s.sent + [Advert(id, pri)])
  }

  // ----- State transitions -----

  function InitToMaster(s: Daemon, i: nat): (r: Daemon)
    requires i < |s.insts| && WellQueued(s)
  {
    Become(Enter(s, s.insts[i].key, Interval(s.insts[i])), i, Master)
  }

  function BackupToMaster(s: Daemon, i: nat): (r: Daemon)
    requires i < |s.insts| && WellQueued(s)
  {
    Become(Enter(Leave(s, s.insts[i].key), s.insts[i].key, Interval(s.insts[i])), i, Master)
  }

  function UnlessMasterUp(s: Daemon, i: nat): Daemon
    requires i < |s.insts| && WellQueued(s)
  {
    if AnyMasterUp(s.flag) then s else BackupToMaster(s, i)
  }

  function InitToBackup(s: Daemon, i: nat): Daemon
    requires i < |s.insts| && WellQueued(s)
  {
    UnlessMasterUp(Become(Enter(s, s.insts[i].key, Interval(s.insts[i])), i, Backup), i)
  }

  function MasterToInit(s: Daemon, i: nat): Daemon
    requires i < |s.insts| && WellQueued(s)
  {
    Send(Become(Leave(s, s.insts[i].key), i, Init), s.insts[i].key.id, 0)
  }

  function BackupToInit(s: Daemon, i: nat): Daemon
    requires i < |s.insts| && WellQueued(s)
  {
    Become(Leave(s, s.insts[i].key), i, Init)
  }

  function MasterToBackup(s: Daemon, i: nat): Daemon
    requires i < |s.insts| && WellQueued(s)
  {
    var inst := s.insts[i];
    UnlessMasterUp(Send(Become(Enter(Leave(s, inst.key), inst.key, Interval(inst)), i, Backup), inst.key.id, 0), i)
  }

  // ----- Commands -----

  predicate Refused(s: Daemon, e: Event)
    requires e.Create?
  {
    e.delay <= 0 || e.ipnum == 0 || Search(Keys(s.insts), e.key) != None
  }

  function DoCreate(s: Daemon, e: Event): (Daemon, Ret)
    requires e.Create? && WellQueued(s)
  {
    if e.delay <= 0 || e.ipnum == 0 then (s, ErrnoEinval)
    else if Search(Keys(s.insts), e.key) != None then (s, Exists)
    else
      var at := Slot(Keys(s.insts), e.key.id);
      var s' := s.(insts := Inserted(s.insts, at, Inst(e.key, Init, e.pri, e.delay, e.preempt, e.accept)));
      (if e.pri == 255 then InitToMaster(s', at) else s', Success)
  }

  function DoStartup(s: Daemon, query: Key): (Daemon, Ret)
    requires WellQueued(s)
  {
    if query.af != AF_INET || query.id == 0 then (s, ErrnoEinval)
    else
      match Search(Keys(s.insts), query)
      case None => (s, NoInst)
      case Some(i) => if s.insts[i].state != Init then (s, VrrpEinval) else (InitToBackup(s, i), Success)
  }

  function DoShutdown(s: Daemon, query: Key): (Daemon, Ret)
    requires WellQueued(s)
  {
    if query.af != AF_INET || query.id == 0 then (s, ErrnoEinval)
    else
      match Search(Keys(s.insts), query)
      case None => (s, NoInst)
      case Some(i) =>
        match s.insts[i].state
        case Master => (MasterToInit(s, i), Success)
        case Backup => (BackupToInit(s, i), Success)
        case Init => (s, VrrpEinval)
  }

  /** The argument check of vrrp_rmqueue and vrrp_enqueue; they refuse the wildcard id. */
  predicate Retimable(query: Key) {
    query.id != 0 && query.af in {AF_INET, AF_INET6, AF_UNSPEC}
  }

  function RmQueue(s: Daemon, query: Key, i: nat): (r: Daemon)
    requires i < |s.insts| && WellQueued(s)
    ensures WellQueued(r) && r.insts == s.insts
  {
    if Retimable(query) then Leave(s, s.insts[i].key) else s
  }

  function DoDestroy(s: Daemon, query: Key): (Daemon, Ret)
    requires WellQueued(s)
  {
    if query.af != AF_INET then (s, ErrnoEinval)
    else
      match Search(Keys(s.insts), query)
      case None => (s, Segv)
      case Some(i) =>
        var down :=
          if s.insts[i].state == Master then RmQueue(DoShutdown(s, query).0, query, i)
          else Send(RmQueue(s, query, i), s.insts[i].key.id, 0);
        (down.(insts := Removed(down.insts, i)), Success)
  }

  /** The timeout vrrp_enqueue prescribes for an instance's state. */
  function Prescribed(inst: Inst): nat {
    match inst.state
    case Master => Interval(inst)
    case Backup => MasterDown(inst)
    case Init => 0
  }

  function Modified(inst: Inst, e: Event): Inst
    requires e.Modify?
  {
    inst.(pri := if e.newPri != UNCHANGE then e.newPri % 256 else inst.pri,
          delay := if e.newDelay != UNCHANGE then e.newDelay else inst.delay,
          preempt := if e.newPreempt != UNCHANGE then e.newPreempt == 1 else inst.preempt,
          accept := if e.newAccept != UNCHANGE then e.newAccept == 1 else inst.accept)
  }

  function DoModify(s: Daemon, e: Event): (Daemon, Ret)
    requires e.Modify? && WellQueued(s)
  {
    if e.newPreempt !in {0, 1, UNCHANGE} || e.newAccept !in {0, 1, UNCHANGE} then (s, ErrnoEinval)
    else
      match Search(Keys(s.insts), e.query)
      case None => (s, NoInst)
      case Some(i) =>
        var inst := Modified(s.insts[i], e);
        var queue :=
          if e.newDelay != UNCHANGE && Retimable(e.query) && inst.key in s.order
          then Enter(Leave(s, inst.key), inst.key, Prescribed(inst)) else s;
        (queue.(insts := s.insts[i := inst]), Success)
  }

  /** The part of vrrp_adv_check for priority 0: the first registered instance is promoted. */
  function Farewell(s: Daemon): (Daemon, Ret)
    requires WellQueued(s)
  {
    if s.insts == [] then (s, Segv)
    else
      var first := s.insts[0];
      (if React(first.state, first.pri, first.preempt, 0) == Promoted then BackupToMaster(s, 0) else s, Success)
  }

  /** vrrp_process_incoming_adv, for the instance i. */
  function ProcessAdvert(s: Daemon, i: nat, heard: Byte): Daemon
    requires WellQueued(s) && i < |s.insts| && heard != 0
  {
    var inst := s.insts[i];
    match React(inst.state, inst.pri, inst.preempt, heard)
    case Retimed => Enter(Leave(s, inst.key), inst.key, MasterDown(inst))
    case SteppedDown => MasterToBackup(s, i)
    case Ignored => s
    case Promoted => s
  }

  function Noted(s: Daemon, a: Advert): Daemon
    requires |s.flag| == 256
  {
    s.(flag := s.flag[a.id := a.pri != 0])
  }

  function DoReceive(s: Daemon, port: string, af: int, a: Advert): (Daemon, Ret)
    requires WellQueued(s) && |s.flag| == 256
  {
    if a.pri == 0 then Farewell(Noted(s, a))
    else
      var found := Search(Keys(s.insts), Key(a.id, port, af));
      if a.id == 0 || found == None then (Noted(s, a), Success)
      else (ProcessAdvert(Noted(s, a), found.value, a.pri), Success)
  }

  // ----- The timer -----

  /** How many entries are due together with the first one. */
  function Ties(due: seq<nat>): (n: nat)
    requires due != []
    ensures 1 <= n <= |due|
    ensures forall i :: 0 <= i < n ==> due[i] == due[0]
    ensures n < |due| ==> due[n] != due[0]
  {
    if |due| > 1 && due[1] == due[0] then 1 + Ties(due[1..]) else 1
  }

  /** One turn of the handler: take the head out, advertise or promote, and requeue. */
  function HandleHead(s: Daemon): (r: Daemon)
    requires WellQueued(s) && s.order != []
    ensures WellQueued(r)
  {
    var key := s.order[0];
    var out := s.(order := s.order[1..], due := s.due[1..]);
    var i := First(Keys(s.insts), key);
    if i == |s.insts| then out
    else
      match s.insts[i].state
      case Master => Enter(Send(out, key.id, s.insts[i].pri), key, Interval(s.insts[i]))
      case Backup => BackupToMaster(out, i)
      case Init => out
  }

  function HandleTimes(s: Daemon, n: nat): (r: Daemon)
    requires WellQueued(s)
    ensures WellQueued(r)
    decreases n
  {
    if n == 0 || s.order == [] then s else HandleTimes(HandleHead(s), n - 1)
  }

  function Owner(s: Daemon, key: Key): Inst
    requires key in Keys(s.insts)
  {
    s.insts[First(Keys(s.insts), key)]
  }

  /** A turn requeues the entry later than now, and not at once. */
  predicate Lasting(s: Daemon, key: Key) {
    forall i :: 0 <= i < |s.insts| && s.insts[i].key == key ==> Interval(s.insts[i]) > 0
  }

  /** Of the entries due together with the first one, all but the last are requeued later. */
  predicate Drains(s: Daemon)
    requires WellQueued(s)
  {
    s.due != [] ==> forall j: nat {:trigger Lasting(s, s.order[j])} :: j + 1 < Ties(s.due) ==> Lasting(s, s.order[j])
  }

  /** What the handler's loop is decided by, before it takes the head out. */
  predicate More(s: Daemon)
    requires WellQueued(s)
  {
    |s.due| > 1 && s.due[1] == s.due[0]
  }

  /** The handler's loop ends, with this turn the last one. */
  predicate EndsAfter(s: Daemon, turns: nat)
    requires WellQueued(s)
    decreases turns
  {
    if s.order == [] then turns == 0
    else turns > 0 && if More(s) then EndsAfter(HandleHead(s), turns - 1) else turns == 1
  }

  function DoAlarm(s: Daemon): Daemon
    requires WellQueued(s)
  {
    if s.due == [] then s else HandleTimes(s, Ties(s.due))
  }

  // ----- Steps and runs -----

  /** The alarm goes off when the head is due, and until it is handled time stands still. A handler
      that does not end takes no step. */
  predicate Enabled(s: Daemon, e: Event)
    requires WellQueued(s)
  {
    match e
    case Alarm => s.due != [] ==> s.due[0] == s.now && Drains(s)
    case Elapse(usecs) => s.due != [] ==> s.now + usecs <= s.due[0]
    case _ => true
  }

  function Step(s: Daemon, e: Event): (Daemon, Ret)
    requires WellQueued(s) && |s.flag| == 256
  {
    match e
    case Create(_, _, _, _, _, _) => DoCreate(s, e)
    case Destroy(query) => DoDestroy(s, query)
    case Startup(query) => DoStartup(s, query)
    case Shutdown(query) => DoShutdown(s, query)
    case Modify(_, _, _, _, _) => DoModify(s, e)
    case Receive(port, af, a) => DoReceive(s, port, af, a)
    case Alarm => (DoAlarm(s), Success)
    case Elapse(usecs) => (s.(now := s.now + usecs), Success)
  }
}
