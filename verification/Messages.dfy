/** The message that publishers and subscribers exchange, and the split of a
    64-bit clock reading over its two 32-bit timestamp fields. */
module Messages {
  import opened Machine

  /** Payload sizes that mark a message as control rather than data. */
  const INITIALIZE_SIZE: int := 1234
  const FINISHED_SIZE: int := 1235

  /** What a message adds to its payload. */
  const OVERHEAD_BYTES: nat := 28

  datatype Message = Message(
    entityId: int,
    size: int,
    seqNum: nat,
    timestampSec: int,
    timestampUsec: nat,
    latencyPing: int)

  predicate IsControl(size: int) {
    size == INITIALIZE_SIZE || size == FINISHED_SIZE
  }

  /** The sender's half: high word as a signed int, low word unsigned. */
  function Stamp(m: Message, now: nat): (r: Message) {
    m.(timestampSec := Int32(now / TWO32 % TWO32), timestampUsec := now % TWO32)
  }

  /** The receiver's half: the signed high word is widened, shifted and joined. */
  function SentTime(m: Message): (t: nat) {
    UInt64(m.timestampSec * TWO32) + m.timestampUsec
  }

  /** The fields are the two halves of one number, with a negative high word read as unsigned. */
  lemma JoinedFields(m: Message)
    requires 0 - TWO31 <= m.timestampSec < TWO31
    ensures SentTime(m)
         == (if m.timestampSec >= 0 then m.timestampSec else m.timestampSec + 0x1_0000_0000) * 0x1_0000_0000
            + m.timestampUsec
  {
  }

  /** No clock reading is damaged by the split, even with the sign bit in use. */
  lemma StampRoundTrip(m: Message, now: nat)
    requires now < TWO64
    ensures SentTime(Stamp(m, now)) == now
  {
    var high := now / TWO32;
    assert high < TWO32;
    if high < TWO31 {
      assert UInt64(high * TWO32) == high * TWO32;
    } else {
      assert Int32(high) * TWO32 == high * TWO32 - TWO64;
      assert UInt64(high * TWO32 - TWO64) == high * TWO32;
    }
  }
}
