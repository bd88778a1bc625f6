/** The datagrams vrrpadm sends to the daemon: how a command is laid out in the buffer and how the
    daemon takes it apart. */
module CommandCodec {
  import opened Protocol
  import opened Lists

  type Int32 = x: int | -0x8000_0000 <= x < 0x8000_0000

  datatype Verb = Remove | Startup | Shutdown | GetInstx

  /** An `unsigned` address, kept as the four bytes that are copied. */
  type Address = a: seq<Byte> | |a| == 4 witness [0, 0, 0, 0]

  type NameField = f: seq<Byte> | |f| == 32 witness seq(32, _ => 0)

  /** The instance description of the create command. */
  datatype Inst = Inst(
    pri: Byte, delay: Int32, preempt: Int32, accept: Int32,
    id: Byte, af: Int32, primary: Address, ipnum: Byte, ifname: NameField,
    state: Byte, active: Int32)

  datatype Command =
    | Create(inst: Inst, addrs: seq<Byte>)
    | Target(verb: Verb, id: Byte, ifname: seq<Byte>, af: Int32)
    | Modify(id: Byte, ifname: seq<Byte>, af: Int32,
             pri: Int32, delay: Int32, preempt: Int32, accept: Int32)
    | ShowAll

  /** What the callers of the encoder hold: a C string, and as many addresses as announced. */
  predicate WellFormed(c: Command) {
    match c
    case Create(inst, addrs) => |addrs| == 4 * inst.ipnum
    case Target(_, _, ifname, _) => 0 !in ifname
    case Modify(_, ifname, _, _, _, _, _) => 0 !in ifname
    case ShowAll => true
  }

  /** Parsing reads past the received bytes, or copies a name over the end of its 32-byte
      buffer, without noticing; both are kept apart here from a parsed command. */
  datatype Parsed = Parsed(c: Command, consumed: nat) | Overread | NameOverflow | OtherCode

  const NAME_SIZE: int := 32
  const INST_SIZE: int := 76

  // ----- Layout -----

  function Code(c: Command): Int32 {
    match c
    case Create(_, _) => 1
    case Target(Remove, _, _, _) => 2
    case Target(Startup, _, _, _) => 3
    case Target(Shutdown, _, _, _) => 4
    case Modify(_, _, _, _, _, _, _) => 5
    case ShowAll => 6
    case Target(GetInstx, _, _, _) => 7
  }

  function IntBytes(x: Int32): (b: seq<Byte>)
    ensures |b| == 4
  {
    var u := x % 0x1_0000_0000;
    var u1 := u / 0x100;
    var u2 := u1 / 0x100;
    [u % 0x100, u1 % 0x100, u2 % 0x100, u2 / 0x100]
  }

  function IntAt(b: seq<Byte>, at: nat): Int32
    requires at + 4 <= |b|
  {
    var u: int := Join(b[at], b[at + 1], b[at + 2], b[at + 3]);
    if u >= 0x8000_0000 then u - 0x1_0000_0000 else u
  }

  function Join(b0: int, b1: int, b2: int, b3: int): int {
    b0 + 0x100 * (b1 + 0x100 * (b2 + 0x100 * b3))
  }

  function NameBytes(name: seq<Byte>): seq<Byte> {
    name + [0]
  }

  /** The C struct with 4-byte alignment; padding and the address pointer are sent as zeros. */
  function InstBytes(i: Inst): (b: seq<Byte>)
    ensures |b| == INST_SIZE
  {
    [i.pri, 0, 0, 0] + IntBytes(i.delay) + IntBytes(i.preempt) + IntBytes(i.accept)
    + [i.id, 0, 0, 0] + IntBytes(i.af) + i.primary + [i.ipnum, 0, 0, 0] + [0, 0, 0, 0] + i.ifname
    + [i.state, 0, 0, 0] + IntBytes(i.active)
  }

  function InstOf(b: seq<Byte>): Inst
    requires |b| >= INST_SIZE
  {
    Inst(b[0], IntAt(b, 4), IntAt(b, 8), IntAt(b, 12), b[16], IntAt(b, 20), b[24..28], b[28], b[36..68],
         b[68], IntAt(b, 72))
  }

  function NamedBytes(id: Byte, ifname: seq<Byte>, af: Int32): seq<Byte> {
    [id] + NameBytes(ifname) + IntBytes(af)
  }

  function SettingBytes(pri: Int32, delay: Int32, preempt: Int32, accept: Int32): (b: seq<Byte>)
    ensures |b| == 16
  {
    IntBytes(pri) + IntBytes(delay) + IntBytes(preempt) + IntBytes(accept)
  }

  function Body(c: Command): seq<Byte> {
    match c
    case Create(inst, addrs) => InstBytes(inst) + addrs
    case Target(_, id, ifname, af) => NamedBytes(id, ifname, af)
    case Modify(id, ifname, af, pri, delay, preempt, accept) =>
      NamedBytes(id, ifname, af) + SettingBytes(pri, delay, preempt, accept)
    case ShowAll => []
  }

  function Encode(c: Command): seq<Byte> {
    IntBytes(Code(c)) + Body(c)
  }

  /** The length of the C string at the start of b; None when no NUL follows. */
  function StrLen(b: seq<Byte>): (r: Option<nat>)
    ensures r.Some? ==> r.value < |b| && b[r.value] == 0 && 0 !in b[..r.value]
    ensures r.None? ==> 0 !in b
  {
    if b == [] then None
    else if b[0] == 0 then Some(0)
    else
      var rest := StrLen(b[1..]);
      assert b == [b[0]] + b[1..];
      if rest.None? then None
      else
        assert b[..rest.value + 1] == [b[0]] + b[1..][..rest.value];
        Some(rest.value + 1)
  }

  function VerbOf(code: Int32): Verb
    requires code == 2 || code == 3 || code == 4 || code == 7
  {
    if code == 2 then Remove else if code == 3 then Startup else if code == 4 then Shutdown else GetInstx
  }

  /** What the bytes mean to the daemon. */
  function Decode(b: seq<Byte>): Parsed {
    if |b| < 4 then Overread
    else
      var code := IntAt(b, 0);
      if code == 1 then
        if |b| < 4 + INST_SIZE then Overread
        else
          var inst := InstOf(b[4..]);
          if |b| < 4 + INST_SIZE + 4 * inst.ipnum then Overread
          else Parsed(Create(inst, b[4 + INST_SIZE..4 + INST_SIZE + 4 * inst.ipnum]),
                      4 + INST_SIZE + 4 * inst.ipnum)
      else if code == 2 || code == 3 || code == 4 || code == 7 || code == 5 then
        if |b| < 5 || StrLen(b[5..]).None? then Overread
        else
          var n := StrLen(b[5..]).value;
          if n >= NAME_SIZE then NameOverflow
          else if |b| < 5 + n + 5 then Overread
          else
            var name, af := b[5..5 + n], IntAt(b, 6 + n);
            if code != 5 then Parsed(Target(VerbOf(code), b[4], name, af), 10 + n)
            else if |b| < 10 + n + 16 then Overread
            else Parsed(Modify(b[4], name, af, IntAt(b, 10 + n), IntAt(b, 14 + n), IntAt(b, 18 + n), IntAt(b, 22 + n)),
                        26 + n)
      else if code == 6 then Parsed(ShowAll, 4)
      else OtherCode
  }

  // ----- Round trip -----

  lemma IntRoundTrip(b: seq<Byte>, at: nat, x: Int32)
    requires at + 4 <= |b| && b[at..at + 4] == IntBytes(x)
    ensures IntAt(b, at) == x
  {
    var w := b[at..at + 4];
    assert b[at] == w[0] && b[at + 1] == w[1] && b[at + 2] == w[2] && b[at + 3] == w[3];
  }

  /** An `int` is four bytes, the lowest first, in two's complement. */
  lemma IntLayout(b: seq<Byte>, at: nat)
    requires at + 4 <= |b|
    ensures var u := (b[at] as int) + 0x100 * (b[at + 1] as int) + 0x1_0000 * (b[at + 2] as int)
                     + 0x100_0000 * (b[at + 3] as int);
      IntAt(b, at) == if b[at + 3] < 0x80 then u else u - 0x1_0000_0000
  {
  }

  lemma InstInts(i: Inst, rest: seq<Byte>)
    ensures var b := InstBytes(i) + rest;
      && IntAt(b, 4) == i.delay && IntAt(b, 8) == i.preempt && IntAt(b, 12) == i.accept
      && IntAt(b, 20) == i.af && IntAt(b, 72) == i.active
  {
    var b := InstBytes(i) + rest;
    assert b[4..8] == IntBytes(i.delay);
    assert b[8..12] == IntBytes(i.preempt);
    assert b[12..16] == IntBytes(i.accept);
    assert b[20..24] == IntBytes(i.af);
    assert b[72..76] == IntBytes(i.active);
    IntRoundTrip(b, 4, i.delay);
    IntRoundTrip(b, 8, i.preempt);
    IntRoundTrip(b, 12, i.accept);
    IntRoundTrip(b, 20, i.af);
    IntRoundTrip(b, 72, i.active);
  }

  /** The offsets of the fields of a create's instance description. */
  lemma InstLayout(i: Inst)
    ensures var b := InstBytes(i);
      && b[0] == i.pri && IntAt(b, 4) == i.delay && IntAt(b, 8) == i.preempt && IntAt(b, 12) == i.accept
      && b[16] == i.id && IntAt(b, 20) == i.af && b[24..28] == i.primary && b[28] == i.ipnum
      && b[36..68] == i.ifname && b[68] == i.state && IntAt(b, 72) == i.active
      && forall k :: k in {1, 2, 3, 17, 18, 19, 29, 30, 31, 32, 33, 34, 35, 69, 70, 71} ==> b[k] == 0
  {
    InstInts(i, []);
    assert InstBytes(i) + [] == InstBytes(i);
  }

  lemma InstRoundTrip(i: Inst, rest: seq<Byte>)
    ensures InstOf(InstBytes(i) + rest) == i
  {
    InstInts(i, rest);
  }

  lemma {:induction false} StrLenOfName(name: seq<Byte>, rest: seq<Byte>)
    requires 0 !in name
    ensures StrLen(NameBytes(name) + rest) == Some(|name|)
    decreases name
  {
    var b := NameBytes(name) + rest;
    if name != [] {
      assert b[1..] == NameBytes(name[1..]) + rest;
      StrLenOfName(name[1..], rest);
    }
  }

  predicate NameFits(c: Command) {
    match c
    case Target(_, _, ifname, _) => |ifname| < NAME_SIZE
    case Modify(_, ifname, _, _, _, _, _) => |ifname| < NAME_SIZE
    case _ => true
  }

  lemma Shifted(b: seq<Byte>, k: nat, i: nat, j: nat)
    requires k <= |b| && i <= j <= |b| - k
    ensures b[k..][i..j] == b[k + i..k + j]
  {
  }

  lemma NamedRoundTrip(b: seq<Byte>, id: Byte, name: seq<Byte>, af: Int32, rest: seq<Byte>)
    requires 0 !in name && |b| >= 4
    requires b[4..] == NamedBytes(id, name, af) + rest
    ensures |b| == 10 + |name| + |rest| && b[4] == id
    ensures StrLen(b[5..]) == Some(|name|) && b[5..5 + |name|] == name
    ensures IntAt(b, 6 + |name|) == af
  {
    var t := b[4..];
    assert b[4] == t[0] && b[5..] == t[1..] == NameBytes(name) + (IntBytes(af) + rest);
    StrLenOfName(name, IntBytes(af) + rest);
    Shifted(b, 4, 1, 1 + |name|);
    assert b[5..5 + |name|] == t[1..1 + |name|] == name;
    Shifted(b, 4, 2 + |name|, 6 + |name|);
    assert b[6 + |name|..10 + |name|] == t[2 + |name|..6 + |name|] == IntBytes(af);
    IntRoundTrip(b, 6 + |name|, af);
  }

  lemma BodySlices(code: seq<Byte>, front: seq<Byte>, back: seq<Byte>, stale: seq<Byte>)
    requires |code| == 4
    ensures var b := code + (front + back) + stale;
      && b[0..4] == code && b[4..] == front + (back + stale)
      && b[4 + |front|..4 + |front| + |back|] == back && b[4 + |front|..] == back + stale
  {
    var b, t := code + (front + back) + stale, front + (back + stale);
    assert b[4..] == t && t[|front|..|front| + |back|] == back;
    Shifted(b, 4, |front|, |front| + |back|);
  }

  lemma CreateDecodes(b: seq<Byte>, inst: Inst, addrs: seq<Byte>)
    requires |b| >= 4 + INST_SIZE + |addrs| && |addrs| == 4 * inst.ipnum
    requires IntAt(b, 0) == 1 && InstOf(b[4..]) == inst && b[4 + INST_SIZE..4 + INST_SIZE + |addrs|] == addrs
    ensures Decode(b) == Parsed(Create(inst, addrs), 4 + INST_SIZE + |addrs|)
  {
  }

  lemma CreateRoundTrip(inst: Inst, addrs: seq<Byte>, stale: seq<Byte>)
    requires |addrs| == 4 * inst.ipnum
    ensures var c := Create(inst, addrs); Decode(Encode(c) + stale) == Parsed(c, |Encode(c)|)
  {
    var b := IntBytes(1) + (InstBytes(inst) + addrs) + stale;
    BodySlices(IntBytes(1), InstBytes(inst), addrs, stale);
    IntRoundTrip(b, 0, 1);
    InstRoundTrip(inst, addrs + stale);
    CreateDecodes(b, inst, addrs);
  }

  lemma TargetRoundTrip(c: Command, stale: seq<Byte>)
    requires c.Target? && WellFormed(c)
    ensures Decode(Encode(c) + stale) == if NameFits(c) then Parsed(c, |Encode(c)|) else NameOverflow
  {
    var b := Encode(c) + stale;
    assert b[0..4] == IntBytes(Code(c));
    IntRoundTrip(b, 0, Code(c));
    assert b[4..] == NamedBytes(c.id, c.ifname, c.af) + stale;
    NamedRoundTrip(b, c.id, c.ifname, c.af, stale);
  }

  lemma ModifyRoundTrip(c: Command, stale: seq<Byte>)
    requires c.Modify? && WellFormed(c)
    ensures Decode(Encode(c) + stale) == if NameFits(c) then Parsed(c, |Encode(c)|) else NameOverflow
  {
    var b, named := Encode(c) + stale, NamedBytes(c.id, c.ifname, c.af);
    var settings := SettingBytes(c.pri, c.delay, c.preempt, c.accept);
    BodySlices(IntBytes(5), named, settings, stale);
    IntRoundTrip(b, 0, 5);
    NamedRoundTrip(b, c.id, c.ifname, c.af, settings + stale);
    SettingsRoundTrip(b, 10 + |c.ifname|, c.pri, c.delay, c.preempt, c.accept, stale);
    ModifyDecodes(b, c, stale);
  }

  lemma ModifyDecodes(b: seq<Byte>, c: Command, stale: seq<Byte>)
    requires c.Modify? && |b| == 26 + |c.ifname| + |stale| && IntAt(b, 0) == 5 && b[4] == c.id
    requires StrLen(b[5..]) == Some(|c.ifname|) && b[5..5 + |c.ifname|] == c.ifname
    requires var at := 10 + |c.ifname|;
      && IntAt(b, at - 4) == c.af && IntAt(b, at) == c.pri && IntAt(b, at + 4) == c.delay
      && IntAt(b, at + 8) == c.preempt && IntAt(b, at + 12) == c.accept
    ensures Decode(b) == if NameFits(c) then Parsed(c, 26 + |c.ifname|) else NameOverflow
  {
  }

  lemma SettingsRoundTrip(b: seq<Byte>, at: nat, w: Int32, x: Int32, y: Int32, z: Int32, rest: seq<Byte>)
    requires at <= |b| && b[at..] == SettingBytes(w, x, y, z) + rest
    ensures |b| == at + 16 + |rest|
    ensures IntAt(b, at) == w && IntAt(b, at + 4) == x && IntAt(b, at + 8) == y && IntAt(b, at + 12) == z
  {
    var t := b[at..];
    Shifted(b, at, 0, 4);
    Shifted(b, at, 4, 8);
    Shifted(b, at, 8, 12);
    Shifted(b, at, 12, 16);
    assert b[at..at + 4] == t[0..4] == IntBytes(w);
    assert b[at + 4..at + 8] == t[4..8] == IntBytes(x);
    assert b[at + 8..at + 12] == t[8..12] == IntBytes(y);
    assert b[at + 12..at + 16] == t[12..16] == IntBytes(z);
    IntRoundTrip(b, at, w);
    IntRoundTrip(b, at + 4, x);
    IntRoundTrip(b, at + 8, y);
    IntRoundTrip(b, at + 12, z);
  }

  /** The byte offsets of a VRID, a name with its terminator and an address family in a command. */
  ghost predicate NamedAt(b: seq<Byte>, id: Byte, ifname: seq<Byte>, af: Int32) {
    var n := |ifname|;
    |b| >= 10 + n && b[4] == id && b[5..5 + n] == ifname && b[5 + n] == 0 && IntAt(b, 6 + n) == af
  }

  lemma NamedLayout(b: seq<Byte>, id: Byte, ifname: seq<Byte>, af: Int32, rest: seq<Byte>)
    requires 0 !in ifname && |b| >= 4 && b[4..] == NamedBytes(id, ifname, af) + rest
    ensures NamedAt(b, id, ifname, af) && |b| == 10 + |ifname| + |rest|
  {
    NamedRoundTrip(b, id, ifname, af, rest);
    assert b[5..][|ifname|] == 0;
  }

  /** Where each part of a command is in the buffer. */
  lemma EncodedLayout(c: Command)
    requires WellFormed(c)
    ensures var b := Encode(c);
      |b| >= 4 && match c
      case Create(inst, addrs) =>
        IntAt(b, 0) == 1 && |b| == 80 + 4 * inst.ipnum && b[4..80] == InstBytes(inst) && b[80..] == addrs
      case Target(verb, id, ifname, af) =>
        && IntAt(b, 0) == (match verb case Remove => 2 case Startup => 3 case Shutdown => 4 case GetInstx => 7)
        && |b| == 10 + |ifname| && NamedAt(b, id, ifname, af)
      case Modify(id, ifname, af, pri, delay, preempt, accept) =>
        var at := 10 + |ifname|;
        && IntAt(b, 0) == 5 && |b| == at + 16 && NamedAt(b, id, ifname, af)
        && IntAt(b, at) == pri && IntAt(b, at + 4) == delay
        && IntAt(b, at + 8) == preempt && IntAt(b, at + 12) == accept
      case ShowAll => IntAt(b, 0) == 6 && |b| == 4
  {
    var b := Encode(c);
    assert b[0..4] == IntBytes(Code(c)) && b[4..] == Body(c);
    IntRoundTrip(b, 0, Code(c));
    match c
    case Create(inst, addrs) => BodySlices(IntBytes(1), InstBytes(inst), addrs, []);
    case Target(_, id, ifname, af) =>
      assert Body(c) + [] == Body(c);
      NamedLayout(b, id, ifname, af, []);
    case Modify(id, ifname, af, pri, delay, preempt, accept) =>
      var settings := SettingBytes(pri, delay, preempt, accept);
      NamedLayout(b, id, ifname, af, settings);
      assert b[10 + |ifname|..] == settings + [];
      SettingsRoundTrip(b, 10 + |ifname|, pri, delay, preempt, accept, []);
    case ShowAll =>
  }

  /** Whatever stale bytes follow it in the buffer, an encoded command is read back unchanged and
      to its last byte, exactly when its name fits the daemon's buffer with its terminator. */
  lemma RoundTrip(c: Command, stale: seq<Byte>)
    requires WellFormed(c)
    ensures Decode(Encode(c) + stale) == if NameFits(c) then Parsed(c, |Encode(c)|) else NameOverflow
  {
    match c
    case Create(inst, addrs) => CreateRoundTrip(inst, addrs, stale);
    case Target(_, _, _, _) => TargetRoundTrip(c, stale);
    case Modify(_, _, _, _, _, _, _) => ModifyRoundTrip(c, stale);
    case ShowAll =>
      var b := Encode(c) + stale;
      assert b[0..4] == IntBytes(6);
      IntRoundTrip(b, 0, 6);
  }

  // ----- The buffer code -----

  /** `memcpy` and `strcpy` into the buffer, returning the advanced pointer. */
  method Put(buf: array<Byte>, ptr: nat, bytes: seq<Byte>) returns (next: nat)
    requires ptr + |bytes| <= buf.Length
    modifies buf
    ensures next == ptr + |bytes|
    ensures buf[..next] == old(buf[..ptr]) + bytes
    ensures forall k :: next <= k < buf.Length ==> buf[k] == old(buf[k])
  {
    next := ptr;
    while next < ptr + |bytes|
      invariant ptr <= next <= ptr + |bytes|
      invariant buf[..next] == old(buf[..ptr]) + bytes[..next - ptr]
      invariant forall k :: next <= k < buf.Length ==> buf[k] == old(buf[k])
    {
      buf[next] := bytes[next - ptr];
      next := next + 1;
    }
    assert bytes[..next - ptr] == bytes;
  }

  method PutBoth(buf: array<Byte>, ptr: nat, first: seq<Byte>, second: seq<Byte>) returns (next: nat)
    requires ptr + |first| + |second| <= buf.Length
    modifies buf
    ensures next == ptr + |first| + |second|
    ensures buf[..next] == old(buf[..ptr]) + (first + second)
    ensures forall k :: next <= k < buf.Length ==> buf[k] == old(buf[k])
  {
    next := Put(buf, ptr, first);
    next := Put(buf, next, second);
  }

  method PutNamed(buf: array<Byte>, ptr: nat, id: Byte, ifname: seq<Byte>, af: Int32) returns (next: nat)
    requires ptr + |NamedBytes(id, ifname, af)| <= buf.Length
    modifies buf
    ensures next == ptr + |NamedBytes(id, ifname, af)|
    ensures buf[..next] == old(buf[..ptr]) + NamedBytes(id, ifname, af)
    ensures forall k :: next <= k < buf.Length ==> buf[k] == old(buf[k])
  {
    next := Put(buf, ptr, [id]);
    next := Put(buf, next, NameBytes(ifname));
    next := Put(buf, next, IntBytes(af));
  }

  method PutSettings(buf: array<Byte>, ptr: nat, pri: Int32, delay: Int32, preempt: Int32, accept: Int32)
    returns (next: nat)
    requires ptr + 16 <= buf.Length
    modifies buf
    ensures next == ptr + 16
    ensures buf[..next] == old(buf[..ptr]) + SettingBytes(pri, delay, preempt, accept)
    ensures forall k :: next <= k < buf.Length ==> buf[k] == old(buf[k])
  {
    next := Put(buf, ptr, IntBytes(pri));
    next := Put(buf, next, IntBytes(delay));
    next := Put(buf, next, IntBytes(preempt));
    next := Put(buf, next, IntBytes(accept));
  }

  method PutModify(buf: array<Byte>, ptr: nat, c: Command) returns (next: nat)
    requires c.Modify? && ptr + |Body(c)| <= buf.Length
    modifies buf
    ensures next == ptr + |Body(c)|
    ensures buf[..next] == old(buf[..ptr]) + Body(c)
    ensures forall k :: next <= k < buf.Length ==> buf[k] == old(buf[k])
  {
    next := PutNamed(buf, ptr, c.id, c.ifname, c.af);
    next := PutSettings(buf, next, c.pri, c.delay, c.preempt, c.accept);
  }

  /** Writes the command at the start of the buffer and touches nothing behind it. */
  method BuildCommand(buf: array<Byte>, c: Command) returns (length: nat)
    requires WellFormed(c) && |Encode(c)| <= buf.Length
    modifies buf
    ensures length == |Encode(c)| && buf[..length] == Encode(c)
    ensures forall k :: length <= k < buf.Length ==> buf[k] == old(buf[k])
  {
    var ptr := Put(buf, 0, IntBytes(Code(c)));
    assert buf[..ptr] == IntBytes(Code(c));
    if c.Create? {
      ptr := PutBoth(buf, ptr, InstBytes(c.inst), c.addrs);
    } else if c.Target? {
      ptr := PutNamed(buf, ptr, c.id, c.ifname, c.af);
    } else if c.Modify? {
      ptr := PutModify(buf, ptr, c);
    }
    length := ptr;
  }

  /** `strlen`, bounded by the received bytes. */
  method ScanName(buf: array<Byte>, ptr: nat) returns (r: Option<nat>)
    requires ptr <= buf.Length
    ensures r == StrLen(buf[ptr..])
  {
    var i := ptr;
    while i < buf.Length && buf[i] != 0
      invariant ptr <= i <= buf.Length
      invariant var rest := StrLen(buf[i..]);
        StrLen(buf[ptr..]) == if rest.None? then None else Some(rest.value + (i - ptr))
    {
      assert buf[i..][1..] == buf[i + 1..];
      i := i + 1;
    }
    r := if i < buf.Length then Some(i - ptr) else None;
  }

  /** Taking a received buffer apart, field after field. */
  method ParseCommand(buf: array<Byte>) returns (r: Parsed)
    ensures r == Decode(buf[..])
  {
    ghost var b := buf[..];
    if buf.Length < 4 { return Overread; }
    var code := IntAt(buf[..], 0);
    var ptr := 4;
    var id: Byte, name: seq<Byte>, af: Int32 := 0, [], 0;
    if code == 2 || code == 3 || code == 4 || code == 5 || code == 7 {
      if ptr >= buf.Length { return Overread; }
      id := buf[ptr];
      ptr := ptr + 1;
      var n := ScanName(buf, ptr);
      assert buf[ptr..] == b[5..];
      if n.None? { return Overread; }
      if n.value >= NAME_SIZE { return NameOverflow; }
      name := buf[ptr..ptr + n.value];
      ptr := ptr + n.value + 1;
      if buf.Length < ptr + 4 { return Overread; }
      af := IntAt(buf[..], ptr);
      ptr := ptr + 4;
    }
    if code == 1 {
      if buf.Length < ptr + INST_SIZE { return Overread; }
      var inst := InstOf(buf[ptr..]);
      assert buf[ptr..] == b[4..];
      ptr := ptr + INST_SIZE;
      if buf.Length < ptr + 4 * inst.ipnum { return Overread; }
      return Parsed(Create(inst, buf[ptr..ptr + 4 * inst.ipnum]), ptr + 4 * inst.ipnum);
    } else if code == 5 {
      if buf.Length < ptr + 16 { return Overread; }
      return Parsed(Modify(id, name, af, IntAt(buf[..], ptr), IntAt(buf[..], ptr + 4), IntAt(buf[..], ptr + 8),
                           IntAt(buf[..], ptr + 12)), ptr + 16);
    } else if code == 6 {
      return Parsed(ShowAll, ptr);
    } else if code == 2 || code == 3 || code == 4 || code == 7 {
      return Parsed(Target(VerbOf(code), id, name, af), ptr);
    } else {
      return OtherCode;
    }
  }
}
