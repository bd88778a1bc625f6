/** Any number of routers backing one VRID, and the advertisements between them. A message that
    was ever sent stays deliverable: it may be lost, delayed, reordered or duplicated. */
module Election {
  import opened Protocol
  import opened Lists

  /** What a master sends when a higher priority makes it step down: the code multicasts a
      priority-0 advertisement, section 6.4.3 of RFC 3768 sends nothing. */
  datatype Rule = AsWritten | Rfc3768

  datatype Router = Router(pri: nat, preempt: bool, state: State)

  datatype Message = Message(from: nat, pri: nat)

  datatype Net = Net(routers: seq<Router>, sent: set<Message>) {
    function Pri(i: nat): nat
      requires i < |routers|
    {
      routers[i].pri
    }

    function State(i: nat): State
      requires i < |routers|
    {
      routers[i].state
    }

    function Become(i: nat, s: State): (n: Net)
      requires i < |routers|
    {
      this.(routers := routers[i := routers[i].(state := s)])
    }

    function Post(i: nat, pri: nat): Net {
      this.(sent := sent + {Message(i, pri)})
    }
  }

  datatype Event =
    | Startup(i: nat, masterSeen: bool)
    | OwnerCreated(i: nat)
    | Advertise(i: nat)
    | Expire(i: nat)
    | Shutdown(i: nat)
    | Destroy(i: nat)
    | Deliver(m: Message, dst: nat)

  predicate Enabled(net: Net, e: Event) {
    match e
    case Startup(i, _) => i < |net.routers| && net.State(i) == Init
    case OwnerCreated(i) => i < |net.routers| && net.State(i) == Init && net.Pri(i) == 255
    case Advertise(i) => i < |net.routers| && net.State(i) == Master
    case Expire(i) => i < |net.routers| && net.State(i) == Backup
    case Shutdown(i) => i < |net.routers| && net.State(i) != Init
    case Destroy(i) => i < |net.routers|
    case Deliver(m, dst) => m in net.sent && dst < |net.routers| && dst != m.from
  }

  function Receive(rule: Rule, net: Net, heard: nat, dst: nat): Net
    requires dst < |net.routers|
  {
    var r := net.routers[dst];
    match React(r.state, r.pri, r.preempt, heard)
    case Promoted => net.Become(dst, Master)
    case SteppedDown =>
      var down := net.Become(dst, Backup);
      if rule == AsWritten then down.Post(dst, 0) else down
    case Retimed => net
    case Ignored => net
  }

  function Apply(rule: Rule, net: Net, e: Event): Net
    requires Enabled(net, e)
  {
    match e
    case Startup(i, masterSeen) => net.Become(i, if masterSeen then Backup else Master)
    case OwnerCreated(i) => net.Become(i, Master)
    case Advertise(i) => net.Post(i, net.Pri(i))
    case Expire(i) => net.Become(i, Master)
    case Shutdown(i) =>
      if net.State(i) == Master then net.Become(i, Init).Post(i, 0) else net.Become(i, Init)
    case Destroy(i) => net.Become(i, Init).Post(i, 0)
    case Deliver(m, dst) => Receive(rule, net, m.pri, dst)
  }

  predicate Legal(rule: Rule, net: Net, es: seq<Event>)
    decreases es
  {
    es == [] || (Enabled(net, es[0]) && Legal(rule, Apply(rule, net, es[0]), es[1..]))
  }

  function Exec(rule: Rule, net: Net, es: seq<Event>): (r: Net)
    requires Legal(rule, net, es)
    ensures |r.routers| == |net.routers|
    decreases es
  {
    if es == [] then net else Exec(rule, Apply(rule, net, es[0]), es[1..])
  }

  // ----- Safety over every run -----

  /** Every message carries 0 or the configured priority of the router that sent it. */
  ghost predicate Honest(net: Net) {
    forall m :: m in net.sent ==> m.from < |net.routers| && (m.pri == 0 || m.pri == net.Pri(m.from))
  }

  ghost predicate SamePriorities(a: Net, b: Net) {
    |a.routers| == |b.routers| && forall i: nat :: i < |a.routers| ==> a.Pri(i) == b.Pri(i)
  }

  lemma StepStaysHonest(rule: Rule, net: Net, e: Event)
    requires Honest(net) && Enabled(net, e)
    ensures Honest(Apply(rule, net, e)) && SamePriorities(net, Apply(rule, net, e))
  {
  }

  lemma {:induction false} RunsStayHonest(rule: Rule, net: Net, es: seq<Event>)
    requires Honest(net) && Legal(rule, net, es)
    ensures Honest(Exec(rule, net, es)) && SamePriorities(net, Exec(rule, net, es))
    decreases es
  {
    if es != [] {
      StepStaysHonest(rule, net, es[0]);
      RunsStayHonest(rule, Apply(rule, net, es[0]), es[1..]);
    }
  }

  ghost predicate TopPriority(net: Net, t: nat) {
    t < |net.routers| && forall i: nat :: i < |net.routers| ==> net.Pri(i) <= net.Pri(t)
  }

  /** One step takes a top-priority master out of MASTER exactly when it is that router's own
      shutdown or destruction. */
  lemma TopMasterLeavesOnlyByItself(rule: Rule, net: Net, e: Event, t: nat)
    requires Honest(net) && Enabled(net, e)
    requires TopPriority(net, t) && net.State(t) == Master
    ensures Apply(rule, net, e).State(t) != Master <==> e == Shutdown(t) || e == Destroy(t)
  {
    if e.Deliver? {
      assert e.m.pri <= net.Pri(t);
    }
  }

  /** ... hence it is MASTER at the end of every run without these two events, whatever the
      interleaving, loss, delay or duplication of messages. */
  lemma {:induction false} TopMasterIsNeverDeposed(rule: Rule, net: Net, es: seq<Event>, t: nat)
    requires Honest(net) && Legal(rule, net, es)
    requires TopPriority(net, t) && net.State(t) == Master
    requires Shutdown(t) !in es && Destroy(t) !in es
    ensures Exec(rule, net, es).State(t) == Master
    decreases es
  {
    if es != [] {
      TopMasterLeavesOnlyByItself(rule, net, es[0], t);
      StepStaysHonest(rule, net, es[0]);
      TopMasterIsNeverDeposed(rule, Apply(rule, net, es[0]), es[1..], t);
    }
  }

  // ----- One round of advertisements -----

  datatype Hop = Hop(from: nat, dst: nat)

  /** Hand over, in the given order, the current advertisement of each hop's sender. */
  function Round(rule: Rule, net: Net, hops: seq<Hop>): (r: Net)
    requires Between(net, hops)
    ensures |r.routers| == |net.routers|
    decreases hops
  {
    if hops == [] then net
    else
      var next := Receive(rule, net, net.Pri(hops[0].from), hops[0].dst);
      Round(rule, next, hops[1..])
  }

  /** Every master reaches every other router, at least once and in any order. */
  ghost predicate FullRound(net: Net, hops: seq<Hop>) {
    && (forall h :: h in hops ==>
          h.from < |net.routers| && h.dst < |net.routers| && h.from != h.dst && net.State(h.from) == Master)
    && (forall f: nat, t: nat :: f < |net.routers| && t < |net.routers| && f != t && net.State(f) == Master
          ==> Hop(f, t) in hops)
  }

  predicate Between(net: Net, hops: seq<Hop>) {
    forall h :: h in hops ==> h.from < |net.routers| && h.dst < |net.routers|
  }

  /** What router i last hears of in a round that moves it: a priority 0, or one above its own. */
  function LastWord(net: Net, hops: seq<Hop>, i: nat): (pri: Option<nat>)
    requires i < |net.routers| && Between(net, hops)
    ensures pri.Some? ==> pri.value == 0 || pri.value > net.Pri(i)
    decreases hops
  {
    if hops == [] then None
    else
      var (later, pri) := (LastWord(net, hops[1..], i), net.Pri(hops[0].from));
      if later.Some? then later
      else if hops[0].dst == i && (pri == 0 || pri > net.Pri(i)) then Some(pri) else None
  }

  lemma {:induction false} SameWord(a: Net, b: Net, hops: seq<Hop>, i: nat)
    requires SamePriorities(a, b) && i < |a.routers| && Between(a, hops)
    ensures LastWord(a, hops, i) == LastWord(b, hops, i)
    decreases hops
  {
    if hops != [] {
      SameWord(a, b, hops[1..], i);
    }
  }

  /** A round, full or not, in any order and of any priorities, leaves a router that is up as the last
      word it hears has it: MASTER after a priority 0, BACKUP after a higher one than its own, and as
      it was without either. */
  lemma {:induction false} RoundIsDecidedByTheLastWord(rule: Rule, net: Net, hops: seq<Hop>, i: nat)
    requires i < |net.routers| && Between(net, hops)
    ensures Round(rule, net, hops).State(i) ==
      match LastWord(net, hops, i)
      case None => net.State(i)
      case Some(pri) => if net.State(i) == Init then Init else if pri == 0 then Master else Backup
    ensures SamePriorities(net, Round(rule, net, hops))
    decreases hops
  {
    if hops != [] {
      var next := Receive(rule, net, net.Pri(hops[0].from), hops[0].dst);
      assert SamePriorities(net, next);
      SameWord(net, next, hops[1..], i);
      RoundIsDecidedByTheLastWord(rule, next, hops[1..], i);
    }
  }

  lemma {:induction false} HeardLast(net: Net, hops: seq<Hop>, last: seq<Hop>, i: nat)
    requires i < |net.routers| && Between(net, hops + last) && Between(net, last)
    ensures LastWord(net, last, i).Some? ==> LastWord(net, hops + last, i) == LastWord(net, last, i)
    decreases hops
  {
    if hops == [] {
      assert hops + last == last;
    } else {
      assert (hops + last)[1..] == hops[1..] + last;
      HeardLast(net, hops[1..], last, i);
    }
  }

  lemma {:induction false} OnlyZeroHeard(net: Net, last: seq<Hop>, z: nat, i: nat)
    requires i < |net.routers| && Between(net, last) && z < |net.routers| && net.Pri(z) == 0
    requires forall h :: h in last ==> h.from == z
    ensures LastWord(net, last, i) == if Hop(z, i) in last then Some(0) else None
    decreases last
  {
    if last != [] {
      assert last == [last[0]] + last[1..] && last[0].from == z;
      OnlyZeroHeard(net, last[1..], z, i);
    }
  }

  /** Whatever a round has decided, a master z of priority 0 undoes it if all the others hear z last:
      everybody else that is up is MASTER then. */
  lemma ZeroPriorityUndoesTheRound(rule: Rule, net: Net, hops: seq<Hop>, last: seq<Hop>, z: nat)
    requires Between(net, hops + last) && z < |net.routers| && net.Pri(z) == 0
    requires forall h :: h in last ==> h.from == z
    requires forall i: nat :: i < |net.routers| && i != z ==> Hop(z, i) in last
    ensures forall i: nat :: i < |net.routers| && i != z ==>
      Round(rule, net, hops + last).State(i) == if net.State(i) == Init then Init else Master
  {
    assert forall h :: h in last ==> h in hops + last;
    forall i: nat | i < |net.routers| && i != z
      ensures Round(rule, net, hops + last).State(i) == if net.State(i) == Init then Init else Master
    {
      OnlyZeroHeard(net, last, z, i);
      HeardLast(net, hops, last, i);
      RoundIsDecidedByTheLastWord(rule, net, hops + last, i);
    }
  }

  ghost predicate PositiveMasters(net: Net) {
    forall i: nat :: i < |net.routers| && net.State(i) == Master ==> 0 < net.Pri(i)
  }

  ghost predicate PositiveSenders(net: Net, hops: seq<Hop>)
    requires Between(net, hops)
  {
    forall h :: h in hops ==> 0 < net.Pri(h.from)
  }

  ghost predicate Outbid(net: Net, hops: seq<Hop>, i: nat)
    requires i < |net.routers|
  {
    exists h :: h in hops && h.dst == i && h.from < |net.routers| && net.Pri(h.from) > net.Pri(i)
  }

  lemma {:induction false} OutbidIsTheWord(net: Net, hops: seq<Hop>, i: nat)
    requires i < |net.routers| && Between(net, hops) && PositiveSenders(net, hops)
    ensures LastWord(net, hops, i).Some? <==> Outbid(net, hops, i)
    ensures LastWord(net, hops, i) != Some(0)
    decreases hops
  {
    if hops != [] {
      var h := hops[0];
      assert hops == [h] + hops[1..];
      OutbidIsTheWord(net, hops[1..], i);
      assert Outbid(net, hops, i) <==> (h.dst == i && net.Pri(h.from) > net.Pri(i)) || Outbid(net, hops[1..], i);
    }
  }

  /** So if no sender has priority 0, the order does not matter: the masters that are outbid step down,
      and nobody else moves. */
  lemma RoundDemotesTheOutbid(rule: Rule, net: Net, hops: seq<Hop>, i: nat)
    requires i < |net.routers| && Between(net, hops) && PositiveSenders(net, hops)
    ensures Round(rule, net, hops).State(i)
         == if net.State(i) == Master && Outbid(net, hops, i) then Backup else net.State(i)
    ensures SamePriorities(net, Round(rule, net, hops))
  {
    RoundIsDecidedByTheLastWord(rule, net, hops, i);
    OutbidIsTheWord(net, hops, i);
  }

  ghost predicate SoleMaster(net: Net, t: nat) {
    t < |net.routers| && forall i: nat :: i < |net.routers| ==> (net.State(i) == Master <==> i == t)
  }

  /** t is a master and every other master has a lower priority. */
  ghost predicate StrictlyBestMaster(net: Net, t: nat) {
    && t < |net.routers| && net.State(t) == Master
    && forall i: nat :: i < |net.routers| && i != t && net.State(i) == Master ==> net.Pri(i) < net.Pri(t)
  }

  /** A full round, in whatever order, leaves t as the only MASTER exactly when t was the strictly
      best master; every other master ends in BACKUP and nobody else moves. */
  lemma RoundElectsTheBest(rule: Rule, net: Net, hops: seq<Hop>, t: nat)
    requires PositiveMasters(net) && FullRound(net, hops)
    requires exists m: nat :: m < |net.routers| && net.State(m) == Master
    ensures SoleMaster(Round(rule, net, hops), t) <==> StrictlyBestMaster(net, t)
    ensures forall i: nat :: i < |net.routers| ==>
      Round(rule, net, hops).State(i) == net.State(i)
      || (net.State(i) == Master && Round(rule, net, hops).State(i) == Backup)
  {
    var after := Round(rule, net, hops);
    forall i: nat | i < |net.routers|
      ensures after.State(i) == if net.State(i) == Master && Outbid(net, hops, i) then Backup else net.State(i)
    {
      RoundDemotesTheOutbid(rule, net, hops, i);
    }
    if StrictlyBestMaster(net, t) {
      forall i: nat | i < |net.routers| && i != t && net.State(i) == Master
        ensures Outbid(net, hops, i)
      {
        assert Hop(t, i) in hops;
      }
    }
    if SoleMaster(after, t) {
      BestMasterIsUnbeaten(net, hops, t, after);
    }
  }

  /** Some master of maximal priority survives the round, so the sole survivor is the best. */
  lemma BestMasterIsUnbeaten(net: Net, hops: seq<Hop>, t: nat, after: Net)
    requires FullRound(net, hops) && |after.routers| == |net.routers|
    requires forall i: nat :: i < |net.routers| ==>
      after.State(i) == if net.State(i) == Master && Outbid(net, hops, i) then Backup else net.State(i)
    requires SoleMaster(after, t)
    ensures StrictlyBestMaster(net, t)
  {
    forall i: nat | i < |net.routers| && i != t && net.State(i) == Master
      ensures net.Pri(i) < net.Pri(t)
    {
      var b := BestAbove(net, i);
      assert !Outbid(net, hops, b);
      assert after.State(b) == Master;
      assert b == t;
      assert Outbid(net, hops, i);
    }
  }

  lemma {:induction false} BestAbove(net: Net, i: nat) returns (b: nat)
    requires i < |net.routers| && net.State(i) == Master
    ensures b < |net.routers| && net.State(b) == Master && net.Pri(i) <= net.Pri(b)
    ensures forall j: nat :: j < |net.routers| && net.State(j) == Master ==> net.Pri(j) <= net.Pri(b)
  {
    b := i;
    for k := 0 to |net.routers|
      invariant b < |net.routers| && net.State(b) == Master && net.Pri(i) <= net.Pri(b)
      invariant forall j: nat :: j < k && net.State(j) == Master ==> net.Pri(j) <= net.Pri(b)
    {
      if net.State(k) == Master && net.Pri(k) > net.Pri(b) {
        b := k;
      }
    }
  }

  // ----- Handover -----

  /** The priority-0 advertisement of a leaving master, delivered to the routers `rs` in order. */
  function Farewell(rule: Rule, net: Net, rs: seq<nat>): (r: Net)
    requires forall k :: 0 <= k < |rs| ==> rs[k] < |net.routers|
    ensures |r.routers| == |net.routers|
    decreases rs
  {
    if rs == [] then net else Farewell(rule, Receive(rule, net, 0, rs[0]), rs[1..])
  }

  lemma {:induction false} FarewellPromotes(rule: Rule, net: Net, rs: seq<nat>, i: nat)
    requires i < |net.routers| && forall k :: 0 <= k < |rs| ==> rs[k] < |net.routers|
    ensures Farewell(rule, net, rs).State(i) == if net.State(i) == Backup && i in rs then Master else net.State(i)
    ensures SamePriorities(net, Farewell(rule, net, rs))
    decreases rs
  {
    if rs != [] {
      FarewellPromotes(rule, Receive(rule, net, 0, rs[0]), rs[1..], i);
      assert rs == [rs[0]] + rs[1..];
    }
  }

  ghost predicate EverybodyBut(x: nat, count: nat, rs: seq<nat>) {
    && (forall k :: 0 <= k < |rs| ==> rs[k] < count && rs[k] != x)
    && (forall i: nat :: i < count && i != x ==> i in rs)
  }

  ghost predicate Live(net: Net, i: nat) {
    i < |net.routers| && net.State(i) != Init
  }

  ghost predicate PositiveHeirs(net: Net, t: nat) {
    forall i: nat :: i != t && Live(net, i) ==> 0 < net.Pri(i)
  }

  /** h is the live router besides t whose priority is above that of every other one. */
  ghost predicate BestHeir(net: Net, t: nat, h: nat) {
    h != t && Live(net, h) && forall i: nat :: i != h && i != t && Live(net, i) ==> net.Pri(i) < net.Pri(h)
  }

  /** The only master shuts down, its farewell reaches all the others, and one full round of the
      then masters' advertisements follows: h is left as the only MASTER exactly when h is the live
      router whose priority is above that of every other live router. */
  lemma HandoverElectsTheBestLive(rule: Rule, net: Net, t: nat, rs: seq<nat>, hops: seq<Hop>, h: nat)
    requires SoleMaster(net, t) && PositiveHeirs(net, t)
    requires EverybodyBut(t, |net.routers|, rs)
    requires exists i: nat :: i != t && Live(net, i)
    requires FullRound(Farewell(rule, Apply(rule, net, Shutdown(t)), rs), hops)
    ensures
      var down := Apply(rule, net, Shutdown(t));
      var end := Round(rule, Farewell(rule, down, rs), hops);
      && Message(t, 0) in down.sent
      && (SoleMaster(end, h) <==> BestHeir(net, t, h))
  {
    var down := Apply(rule, net, Shutdown(t));
    var woken := Farewell(rule, down, rs);
    assert SamePriorities(net, down);
    forall i: nat | i < |net.routers|
      ensures woken.State(i) == if i != t && net.State(i) == Backup then Master else Init
      ensures woken.Pri(i) == net.Pri(i)
    {
      FarewellPromotes(rule, down, rs, i);
    }
    var live: nat :| live != t && Live(net, live);
    assert woken.State(live) == Master;
    RoundElectsTheBest(rule, woken, hops, h);
    assert StrictlyBestMaster(woken, h) <==> BestHeir(net, t, h);
  }

  // ----- What the step-down message does rs convergence -----

  /** As written, the router l that steps down for the master t says farewell as well. Once that
      message has reached everybody, t is the only MASTER exactly when no third router is up. */
  lemma StepDownConvergesExactlyForPairs(net: Net, t: nat, l: nat, rs: seq<nat>)
    requires t < |net.routers| && l < |net.routers| && t != l
    requires net.State(t) == Master && net.State(l) == Master && net.Pri(l) < net.Pri(t)
    requires EverybodyBut(l, |net.routers|, rs)
    ensures
      var down := Receive(AsWritten, net, net.Pri(t), l);
      && Message(l, 0) in down.sent
      && (SoleMaster(Farewell(AsWritten, down, rs), t) <==>
            forall i: nat :: i != t && i != l ==> !Live(net, i))
  {
    var down := Receive(AsWritten, net, net.Pri(t), l);
    var end := Farewell(AsWritten, down, rs);
    forall i: nat | i < |net.routers|
      ensures end.State(i) == if i == l then Backup else if net.State(i) == Backup then Master else net.State(i)
    {
      FarewellPromotes(AsWritten, down, rs, i);
    }
    assert forall i: nat :: i < |net.routers| && i != t && i != l ==> (end.State(i) == Master <==> Live(net, i));
    assert end.State(t) == Master && end.State(l) == Backup;
  }

  predicate Traffic(es: seq<Event>) {
    forall e :: e in es ==> e.Deliver? || e.Advertise?
  }

  /** No priority-0 message is left that a backup other than its sender could still hear. */
  ghost predicate Quiet(net: Net) {
    forall m, i: nat :: m in net.sent && m.pri == 0 && i < |net.routers| && net.State(i) == Backup ==> i == m.from
  }

  /** No message is left that would outbid t. */
  ghost predicate Unrivalled(net: Net, t: nat)
    requires t < |net.routers|
  {
    forall m :: m in net.sent && m.from != t ==> m.pri <= net.Pri(t)
  }

  /** The advertisements of t do not promote anybody. */
  ghost predicate Harmless(net: Net, t: nat)
    requires t < |net.routers|
  {
    0 < net.Pri(t) || forall i: nat :: i < |net.routers| ==> net.State(i) != Backup
  }

  lemma QuietStepMovesNobody(rule: Rule, net: Net, e: Event, t: nat)
    requires SoleMaster(net, t) && Quiet(net) && Unrivalled(net, t) && Harmless(net, t)
    requires Enabled(net, e) && (e.Deliver? || e.Advertise?)
    ensures Apply(rule, net, e).routers == net.routers
    ensures Quiet(Apply(rule, net, e)) && Unrivalled(Apply(rule, net, e), t)
  {
    if e.Deliver? {
      assert net.State(e.dst) == Master ==> e.dst == t && e.m.pri <= net.Pri(t);
      assert Apply(rule, net, e) == net;
    } else {
      var next := Apply(rule, net, e);
      assert forall i: nat :: i < |net.routers| ==> next.State(i) == net.State(i);
      assert e.i == t;
    }
  }

  lemma {:induction false} QuietTrafficKeepsTheMaster(rule: Rule, net: Net, es: seq<Event>, t: nat)
    requires SoleMaster(net, t) && Quiet(net) && Unrivalled(net, t) && Harmless(net, t)
    requires Traffic(es) && Legal(rule, net, es)
    ensures Exec(rule, net, es).routers == net.routers
    decreases es
  {
    if es != [] {
      var next := Apply(rule, net, es[0]);
      assert es[0] in es;
      QuietStepMovesNobody(rule, net, es[0], t);
      assert forall i: nat :: i < |net.routers| ==> next.State(i) == net.State(i) && next.Pri(i) == net.Pri(i);
      QuietTrafficKeepsTheMaster(rule, next, es[1..], t);
    }
  }

  /** t is the only MASTER, and stays it under all further advertising and delivery. */
  ghost predicate StableMaster(rule: Rule, net: Net, t: nat) {
    forall es :: Traffic(es) && Legal(rule, net, es) ==> SoleMaster(Exec(rule, net, es), t)
  }

  lemma OneDelivery(rule: Rule, net: Net, m: Message, dst: nat)
    requires Enabled(net, Deliver(m, dst))
    ensures Traffic([Deliver(m, dst)]) && Legal(rule, net, [Deliver(m, dst)])
    ensures Exec(rule, net, [Deliver(m, dst)]) == Receive(rule, net, m.pri, dst)
  {
    var es := [Deliver(m, dst)];
    var next := Apply(rule, net, es[0]);
    assert es[1..] == [] && Legal(rule, next, es[1..]) && Exec(rule, next, []) == next;
  }

  lemma FarewellUnsettles(rule: Rule, net: Net, m: Message, dst: nat, t: nat)
    requires Enabled(net, Deliver(m, dst)) && m.pri == 0 && net.State(dst) == Backup && dst != t
    ensures !StableMaster(rule, net, t)
  {
    OneDelivery(rule, net, m, dst);
    assert Exec(rule, net, [Deliver(m, dst)]).State(dst) == Master;
  }

  /** A master of priority 0 promotes with its own advertisement. */
  lemma OwnAdvertPromotes(rule: Rule, net: Net, t: nat, i: nat)
    requires SoleMaster(net, t) && net.Pri(t) == 0 && i < |net.routers| && net.State(i) == Backup
    ensures !StableMaster(rule, net, t)
  {
    var es := [Advertise(t), Deliver(Message(t, 0), i)];
    var posted := Apply(rule, net, es[0]);
    OneDelivery(rule, posted, Message(t, 0), i);
    assert es[1..] == [Deliver(Message(t, 0), i)];
    assert Traffic(es) && Legal(rule, net, es);
    assert Exec(rule, net, es) == Exec(rule, posted, es[1..]) == Receive(rule, posted, 0, i);
    assert Exec(rule, net, es).State(i) == Master && i != t;
  }

  /** An elected master is stable exactly when no farewell is left that a backup could hear, no
      advertisement that outbids it, and its own priority is not 0 or nobody is a BACKUP. */
  lemma ElectionIsStableExactly(rule: Rule, net: Net, t: nat)
    requires SoleMaster(net, t)
    ensures StableMaster(rule, net, t) <==> Quiet(net) && Unrivalled(net, t) && Harmless(net, t)
  {
    if Quiet(net) && Unrivalled(net, t) && Harmless(net, t) {
      forall es | Traffic(es) && Legal(rule, net, es)
        ensures SoleMaster(Exec(rule, net, es), t)
      {
        QuietTrafficKeepsTheMaster(rule, net, es, t);
        var end := Exec(rule, net, es);
        assert forall i: nat :: i < |net.routers| ==> end.State(i) == net.State(i);
      }
    } else if !Quiet(net) {
      var m, i: nat :| m in net.sent && m.pri == 0 && i < |net.routers| && net.State(i) == Backup && i != m.from;
      FarewellUnsettles(rule, net, m, i, t);
    } else if !Harmless(net, t) {
      var i: nat :| i < |net.routers| && net.State(i) == Backup;
      OwnAdvertPromotes(rule, net, t, i);
    } else {
      var m :| m in net.sent && m.from != t && m.pri > net.Pri(t);
      OneDelivery(rule, net, m, t);
      assert Exec(rule, net, [Deliver(m, t)]).State(t) == Backup;
    }
  }

  ghost predicate NoFarewells(net: Net) {
    forall m :: m in net.sent ==> m.pri != 0
  }

  lemma {:induction false} RfcRoundIsSilent(net: Net, hops: seq<Hop>)
    requires Between(net, hops)
    ensures Round(Rfc3768, net, hops).sent == net.sent
    decreases hops
  {
    if hops != [] {
      var next := Receive(Rfc3768, net, net.Pri(hops[0].from), hops[0].dst);
      RfcRoundIsSilent(next, hops[1..]);
    }
  }

  /** Under the RFC rule, while no farewell is about, a full round leaves t as a MASTER that is stable
      exactly when t was the strictly best master and no advertisement is left that outbids it. */
  lemma RfcRoundElectsStably(net: Net, hops: seq<Hop>, t: nat)
    requires PositiveMasters(net) && FullRound(net, hops) && NoFarewells(net) && t < |net.routers|
    requires exists m: nat :: m < |net.routers| && net.State(m) == Master
    ensures StableMaster(Rfc3768, Round(Rfc3768, net, hops), t) <==> StrictlyBestMaster(net, t) && Unrivalled(net, t)
  {
    var after := Round(Rfc3768, net, hops);
    RoundElectsTheBest(Rfc3768, net, hops, t);
    RfcRoundIsSilent(net, hops);
    forall i: nat | i < |net.routers|
      ensures after.Pri(i) == net.Pri(i)
    {
      RoundDemotesTheOutbid(Rfc3768, net, hops, i);
    }
    if SoleMaster(after, t) {
      ElectionIsStableExactly(Rfc3768, after, t);
      assert Unrivalled(after, t) <==> Unrivalled(net, t);
    } else {
      assert Traffic([]) && Legal(Rfc3768, after, []) && Exec(Rfc3768, after, []) == after;
    }
  }

  /** Two masters, and the farewell of a router that is down. */
  const RIVALS: Net :=
    Net([Router(200, true, Master), Router(150, true, Master), Router(100, true, Init)], {Message(2, 0)})

  const BOTH_WAYS: seq<Hop> := [Hop(0, 1), Hop(0, 2), Hop(1, 0), Hop(1, 2)]

  lemma BothWaysIsFull()
    ensures FullRound(RIVALS, BOTH_WAYS) && Outbid(RIVALS, BOTH_WAYS, 1)
  {
    var hops := BOTH_WAYS;
    assert hops[0] == Hop(0, 1) && hops[1] == Hop(0, 2) && hops[2] == Hop(1, 0) && hops[3] == Hop(1, 2);
    assert hops[0] in hops && hops[1] in hops && hops[2] in hops && hops[3] in hops;
  }

  lemma RivalsElect()
    ensures Round(Rfc3768, RIVALS, BOTH_WAYS).State(1) == Backup
    ensures Message(2, 0) in Round(Rfc3768, RIVALS, BOTH_WAYS).sent
  {
    BothWaysIsFull();
    RfcRoundIsSilent(RIVALS, BOTH_WAYS);
    RoundDemotesTheOutbid(Rfc3768, RIVALS, BOTH_WAYS, 1);
  }

  /** A farewell from before the election can undo it, under either rule. */
  lemma OldFarewellUnsettles()
    ensures FullRound(RIVALS, BOTH_WAYS) && Quiet(RIVALS)
    ensures StrictlyBestMaster(RIVALS, 0) && Unrivalled(RIVALS, 0)
    ensures !StableMaster(Rfc3768, Round(Rfc3768, RIVALS, BOTH_WAYS), 0)
  {
    BothWaysIsFull();
    RivalsElect();
    FarewellUnsettles(Rfc3768, Round(Rfc3768, RIVALS, BOTH_WAYS), Message(2, 0), 1, 0);
  }

  // ----- Rounds and handovers as runs -----

  function Deliveries(net: Net, hops: seq<Hop>): (es: seq<Event>)
    requires Between(net, hops)
    ensures |es| == |hops|
  {
    seq(|hops|, i requires 0 <= i < |hops| && hops[i] in hops =>
      Deliver(Message(hops[i].from, net.Pri(hops[i].from)), hops[i].dst))
  }

  ghost predicate Sendable(net: Net, hops: seq<Hop>) {
    forall h :: h in hops ==>
      h.from < |net.routers| && h.dst < |net.routers| && h.from != h.dst && Message(h.from, net.Pri(h.from)) in net.sent
  }

  /** A round is a run: the delivery of advertisements that were sent, in this order. */
  lemma {:induction false} RoundIsARun(rule: Rule, net: Net, hops: seq<Hop>)
    requires Sendable(net, hops)
    ensures Legal(rule, net, Deliveries(net, hops))
    ensures Exec(rule, net, Deliveries(net, hops)) == Round(rule, net, hops)
    decreases hops
  {
    if hops != [] {
      var h := hops[0];
      var next := Receive(rule, net, net.Pri(h.from), h.dst);
      assert h in hops && SamePriorities(net, next) && net.sent <= next.sent;
      assert Sendable(next, hops[1..]);
      assert Deliveries(net, hops)[1..] == Deliveries(next, hops[1..]);
      RoundIsARun(rule, next, hops[1..]);
    }
  }

  function Announcements(hops: seq<Hop>): (es: seq<Event>)
    ensures |es| == |hops|
  {
    seq(|hops|, i requires 0 <= i < |hops| => Advertise(hops[i].from))
  }

  lemma {:induction false} AnnouncedIsSent(rule: Rule, net: Net, hops: seq<Hop>)
    requires forall h :: h in hops ==> h.from < |net.routers| && net.State(h.from) == Master
    ensures Legal(rule, net, Announcements(hops))
    ensures var r := Exec(rule, net, Announcements(hops));
      && r.routers == net.routers && net.sent <= r.sent
      && forall h :: h in hops ==> Message(h.from, net.Pri(h.from)) in r.sent
    decreases hops
  {
    if hops != [] {
      var next := net.Post(hops[0].from, net.Pri(hops[0].from));
      assert hops[0] in hops && hops == [hops[0]] + hops[1..];
      assert Announcements(hops)[1..] == Announcements(hops[1..]);
      AnnouncedIsSent(rule, next, hops[1..]);
    }
  }

  lemma {:induction false} RoundOfRouters(rule: Rule, a: Net, b: Net, hops: seq<Hop>)
    requires a.routers == b.routers && Between(a, hops)
    ensures Round(rule, a, hops).routers == Round(rule, b, hops).routers
    decreases hops
  {
    if hops != [] {
      var h := hops[0];
      assert h in hops;
      RoundOfRouters(rule, Receive(rule, a, a.Pri(h.from), h.dst), Receive(rule, b, b.Pri(h.from), h.dst), hops[1..]);
    }
  }

  lemma {:induction false} LegalTogether(rule: Rule, net: Net, es: seq<Event>, fs: seq<Event>)
    requires Legal(rule, net, es) && Legal(rule, Exec(rule, net, es), fs)
    ensures Legal(rule, net, es + fs) && Exec(rule, net, es + fs) == Exec(rule, Exec(rule, net, es), fs)
    decreases es
  {
    if es == [] {
      assert es + fs == fs;
    } else {
      assert (es + fs)[1..] == es[1..] + fs;
      LegalTogether(rule, Apply(rule, net, es[0]), es[1..], fs);
    }
  }

  /** In every run in which the masters advertise and these advertisements then reach all the others,
      in any order, t is left as the only MASTER exactly when it was the strictly best master. */
  lemma AdvertisingElectsTheBest(rule: Rule, net: Net, hops: seq<Hop>, t: nat) returns (es: seq<Event>)
    requires PositiveMasters(net) && FullRound(net, hops)
    requires exists m: nat :: m < |net.routers| && net.State(m) == Master
    ensures es == Announcements(hops) + Deliveries(net, hops) && Legal(rule, net, es)
    ensures SoleMaster(Exec(rule, net, es), t) <==> StrictlyBestMaster(net, t)
  {
    es := Announcements(hops) + Deliveries(net, hops);
    AnnouncedIsSent(rule, net, hops);
    var posted := Exec(rule, net, Announcements(hops));
    assert Deliveries(posted, hops) == Deliveries(net, hops);
    RoundIsARun(rule, posted, hops);
    LegalTogether(rule, net, Announcements(hops), Deliveries(net, hops));
    RoundOfRouters(rule, net, posted, hops);
    RoundElectsTheBest(rule, net, hops, t);
    var (a, b) := (Round(rule, net, hops), Exec(rule, net, es));
    assert a.routers == b.routers;
    assert forall i: nat :: i < |a.routers| ==> a.State(i) == b.State(i);
  }

  function Goodbyes(t: nat, rs: seq<nat>): (es: seq<Event>)
    ensures |es| == |rs|
  {
    seq(|rs|, i requires 0 <= i < |rs| => Deliver(Message(t, 0), rs[i]))
  }

  /** So is the delivery of a farewell that was sent. */
  lemma {:induction false} FarewellIsARun(rule: Rule, net: Net, t: nat, rs: seq<nat>)
    requires Message(t, 0) in net.sent && forall k :: 0 <= k < |rs| ==> rs[k] < |net.routers| && rs[k] != t
    ensures Legal(rule, net, Goodbyes(t, rs))
    ensures Exec(rule, net, Goodbyes(t, rs)) == Farewell(rule, net, rs)
    decreases rs
  {
    if rs != [] {
      assert Goodbyes(t, rs)[1..] == Goodbyes(t, rs[1..]);
      FarewellIsARun(rule, Receive(rule, net, 0, rs[0]), t, rs[1..]);
    }
  }

  /** The handover as a run: the shutdown, the farewell to all the others, their advertisements, and
      the delivery of these. */
  lemma HandoverIsARun(rule: Rule, net: Net, t: nat, rs: seq<nat>, hops: seq<Hop>, h: nat) returns (es: seq<Event>)
    requires SoleMaster(net, t) && PositiveHeirs(net, t)
    requires EverybodyBut(t, |net.routers|, rs)
    requires exists i: nat :: i != t && Live(net, i)
    requires FullRound(Farewell(rule, Apply(rule, net, Shutdown(t)), rs), hops)
    ensures es == [Shutdown(t)] + Goodbyes(t, rs) + (Announcements(hops) +
                  Deliveries(Farewell(rule, Apply(rule, net, Shutdown(t)), rs), hops))
    ensures Legal(rule, net, es)
    ensures SoleMaster(Exec(rule, net, es), h) <==> BestHeir(net, t, h)
  {
    var down := Apply(rule, net, Shutdown(t));
    var woken := Farewell(rule, down, rs);
    FarewellIsARun(rule, down, t, rs);
    var first := [Shutdown(t)] + Goodbyes(t, rs);
    assert first[1..] == Goodbyes(t, rs);
    assert Legal(rule, net, first) && Exec(rule, net, first) == woken;
    WokenMasters(rule, net, t, rs);
    var second := AdvertisingElectsTheBest(rule, woken, hops, h);
    LegalTogether(rule, net, first, second);
    es := first + second;
    RoundElectsTheBest(rule, woken, hops, h);
    HandoverElectsTheBestLive(rule, net, t, rs, hops, h);
  }

  lemma WokenMasters(rule: Rule, net: Net, t: nat, rs: seq<nat>)
    requires SoleMaster(net, t) && PositiveHeirs(net, t)
    requires EverybodyBut(t, |net.routers|, rs)
    requires exists i: nat :: i != t && Live(net, i)
    ensures var woken := Farewell(rule, Apply(rule, net, Shutdown(t)), rs);
      PositiveMasters(woken) && exists m: nat :: m < |woken.routers| && woken.State(m) == Master
  {
    var down := Apply(rule, net, Shutdown(t));
    var woken := Farewell(rule, down, rs);
    forall i: nat | i < |net.routers|
      ensures woken.Pri(i) == net.Pri(i) && (woken.State(i) == Master ==> i != t && Live(net, i))
    {
      FarewellPromotes(rule, down, rs, i);
    }
    var live: nat :| live != t && Live(net, live);
    FarewellPromotes(rule, down, rs, live);
    assert woken.State(live) == Master;
  }

  /** With a third router the step-downs can promote each other for ever. */
  const TRIO: Net :=
    Net([Router(200, true, Master), Router(150, true, Master), Router(100, true, Backup)],
        {Message(0, 200), Message(1, 0), Message(2, 0)})

  const CYCLE: seq<Event> :=
    [Deliver(Message(0, 200), 1), Deliver(Message(1, 0), 0), Deliver(Message(1, 0), 2),
     Deliver(Message(0, 200), 2), Deliver(Message(2, 0), 0), Deliver(Message(2, 0), 1)]

  function Cycles(n: nat): seq<Event> {
    if n == 0 then [] else CYCLE + Cycles(n - 1)
  }

  lemma Unroll(net: Net, e: Event, es: seq<Event>)
    requires Enabled(net, e)
    ensures Legal(AsWritten, net, [e] + es) <==> Legal(AsWritten, Apply(AsWritten, net, e), es)
    ensures Legal(AsWritten, net, [e] + es) ==>
              Exec(AsWritten, net, [e] + es) == Exec(AsWritten, Apply(AsWritten, net, e), es)
  {
    assert ([e] + es)[1..] == es;
  }

  lemma CycleReturns(es: seq<Event>)
    requires Legal(AsWritten, TRIO, es)
    ensures Legal(AsWritten, TRIO, CYCLE + es)
    ensures Exec(AsWritten, TRIO, CYCLE + es) == Exec(AsWritten, TRIO, es)
  {
    var at1 := Apply(AsWritten, TRIO, CYCLE[0]);
    var at2 := Apply(AsWritten, at1, CYCLE[1]);
    var at3 := Apply(AsWritten, at2, CYCLE[2]);
    var at4 := Apply(AsWritten, at3, CYCLE[3]);
    var at5 := Apply(AsWritten, at4, CYCLE[4]);
    assert Apply(AsWritten, at5, CYCLE[5]) == TRIO;
    Unroll(at5, CYCLE[5], es);
    Unroll(at4, CYCLE[4], [CYCLE[5]] + es);
    Unroll(at3, CYCLE[3], [CYCLE[4]] + ([CYCLE[5]] + es));
    Unroll(at2, CYCLE[2], [CYCLE[3]] + ([CYCLE[4]] + ([CYCLE[5]] + es)));
    Unroll(at1, CYCLE[1], [CYCLE[2]] + ([CYCLE[3]] + ([CYCLE[4]] + ([CYCLE[5]] + es))));
    Unroll(TRIO, CYCLE[0], [CYCLE[1]] + ([CYCLE[2]] + ([CYCLE[3]] + ([CYCLE[4]] + ([CYCLE[5]] + es)))));
    assert CYCLE + es == [CYCLE[0]] + ([CYCLE[1]] + ([CYCLE[2]] + ([CYCLE[3]] + ([CYCLE[4]] + ([CYCLE[5]] + es)))));
  }

  /** The as-written rule has runs of every length, in which every message sent is delivered to
      every router it can reach, that end with two masters again. */
  lemma {:induction false} ThreeRoutersMayNeverConverge(n: nat)
    ensures Legal(AsWritten, TRIO, Cycles(n)) && Exec(AsWritten, TRIO, Cycles(n)) == TRIO
    ensures |Cycles(n)| == 6 * n
    ensures Honest(TRIO) && forall t: nat :: !SoleMaster(TRIO, t)
  {
    assert TRIO.State(0) == TRIO.State(1) == Master;
    if n > 0 {
      ThreeRoutersMayNeverConverge(n - 1);
      CycleReturns(Cycles(n - 1));
    }
  }
}
