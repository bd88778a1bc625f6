/** What one virtual router does: its states, its timers and its answer to an
    advertisement. The daemon (Daemon.dfy) and the network of routers
    (Election.dfy) are both built on these definitions. */
module Protocol {

  type Byte = x: int | 0 <= x < 256

  datatype State = Init | Master | Backup

  /** How an instance answers an advertisement it is handed. */
  datatype Reaction = Ignored | Retimed | SteppedDown | Promoted

  /** `heard` is the priority in the advertisement, `pri` the instance's own. Priority 0
      announces that a master is leaving and is treated before the election. */
  function React(state: State, pri: int, preempt: bool, heard: int): Reaction {
    if heard == 0 then
      if state == Backup then Promoted else Ignored
    else
      match state
      case Backup => if !preempt || heard >= pri then Retimed else Ignored
      case Master => if heard > pri then SteppedDown else Ignored
      case Init => Ignored
  }

  // ----- Timers, in microseconds -----

  const SECOND: int := 1_000_000
  const INT_MAX: int := 0x7fff_ffff

  function Micros(seconds: int): int {
    seconds * SECOND
  }

  /** The conversion to the unsigned 32-bit type of the timeouts. */
  function Usecs(x: int): nat {
    x % 0x1_0000_0000
  }

  /** The skew as the code computes it: the quotient is truncated before it is scaled. */
  function WrittenSkew(pri: Byte): int {
    Micros((256 - pri) / 256)
  }

  /** Skew_Time of section 6.1 of RFC 3768, scaled before it is truncated. */
  function RfcSkew(pri: Byte): int {
    Micros(256 - pri) / 256
  }

  function WrittenMasterDown(delay: int, pri: Byte): int {
    3 * Micros(delay) + WrittenSkew(pri)
  }

  function RfcMasterDown(delay: int, pri: Byte): int {
    3 * Micros(delay) + RfcSkew(pri)
  }

  lemma RfcSkewOrdersBackups(delay: int, p: Byte, q: Byte)
    requires p < q
    ensures RfcMasterDown(delay, q) < RfcMasterDown(delay, p)
    ensures 3 * Micros(delay) < RfcMasterDown(delay, q)
    ensures RfcMasterDown(delay, p) <= 3 * Micros(delay) + SECOND
  {
  }

  /** As written the skew separates two backups of the same interval only when one of them
      has priority 0, so all real backups time out together. */
  lemma WrittenSkewSeparatesExactly(delay: int, p: Byte, q: Byte)
    requires p < q
    ensures WrittenMasterDown(delay, q) < WrittenMasterDown(delay, p) <==> p == 0
    ensures p != 0 ==> WrittenMasterDown(delay, q) == WrittenMasterDown(delay, p) == 3 * Micros(delay)
  {
  }

  /** The C expressions are computed in `int`: they stay in range for intervals of at most 715 s,
      whatever the priority, and overflow for every longer one. */
  lemma MasterDownFitsInt(delay: int, p: Byte)
    requires delay > 0
    ensures WrittenMasterDown(delay, p) <= INT_MAX <==> delay <= 715
    ensures RfcMasterDown(delay, p) <= INT_MAX <==> delay <= 715
  {
  }
}
