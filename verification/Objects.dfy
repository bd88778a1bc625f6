/** The records the daemon links into its lists. */
module Objects {
  import opened Protocol

  const AF_UNSPEC: int := 0
  const AF_INET: int := 2
  const AF_INET6: int := 10

  /** What identifies a virtual router. In a query the zero id, the empty name and AF_UNSPEC are
      wildcards; a null interface name is the empty one. */
  datatype Key = Key(id: Byte, ifname: string, af: int)

  const NULL_KEY: Key := Key(0, "", AF_UNSPEC)

  predicate Complete(k: Key) {
    k.id != 0 && k.ifname != "" && k.af != AF_UNSPEC
  }

  predicate Matches(k: Key, query: Key) {
    && (query.id == 0 || k.id == query.id)
    && (query.af == AF_UNSPEC || k.af == query.af)
    && (query.ifname == "" || k.ifname == query.ifname)
  }

  /** `useconds_t`, the type of every timeout. */
  newtype Useconds = x: int | 0 <= x < 0x1_0000_0000

  /** A virtual router: its attributes, and its place in the advertisement queue. */
  class Vr {
    const key: Key
    var pri: Byte
    var delay: int
    var preempt: bool
    var accept: bool
    var timeout: Useconds
    var parent: Instance?
    var qnext: Vr?
    var qprev: Vr?

    constructor (key: Key, pri: Byte, delay: int, preempt: bool, accept: bool)
      ensures this.key == key && this.pri == pri && this.delay == delay
      ensures this.preempt == preempt && this.accept == accept
      ensures parent == null && qnext == null && qprev == null
    {
      this.key, this.pri, this.delay, this.preempt, this.accept := key, pri, delay, preempt, accept;
      timeout, parent, qnext, qprev := 0, null, null, null;
    }
  }

  /** A registered instance and its place in the registry. The list head is one without a VR. */
  class Instance {
    const vr: Vr?
    var state: State
    var next: Instance?
    var prev: Instance?

    constructor (vr: Vr?)
      ensures this.vr == vr && state == Init && next == null && prev == null
    {
      this.vr, state, next, prev := vr, Init, null, null;
    }
  }
}
