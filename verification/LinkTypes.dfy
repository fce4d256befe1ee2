/** What both ends of the AsconSecure link share. */
module LinkTypes {
  import opened Bytes

  const COUNTER_BYTES: nat := 4
  const OVERHEAD: nat := 20
  const MAX_PAYLOAD: nat := 200

  /** The number of values of a 32-bit counter. */
  const COUNTER_VALUES: nat := 0x1_0000_0000

  type Key = k: seq<byte> | |k| == 16 witness Zeros(16)

  type Prefix = p: seq<byte> | |p| == 12 witness Zeros(12)

  datatype Status =
    | OK | ERR_NOT_READY | ERR_BUFFER | ERR_AUTH | ERR_REPLAY | ERR_NVS | ERR_RNG
    | ERR_EXHAUSTED | ERR_PEER | ERR_FULL | ERR_NOT_PROVISIONED

  /** What a write to non-volatile storage may do: succeed, report failure, or be cut short by a
      power loss; in the last two cases the value may have been stored or not. */
  datatype Outcome = Works | Fails(stored: bool) | Crashes(stored: bool)

  predicate TakesEffect(o: Outcome) {
    o.Works? || o.stored
  }
}
