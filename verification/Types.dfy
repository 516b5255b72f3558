/** Value types shared by every component (crates/bitchat-core/src/types.rs). */
module Types {

  datatype Option<+T> = None | Some(value: T)

  type Byte = x: int | 0 <= x < 256

  /** A peer id is eight bytes; it is read here as one big-endian number. */
  newtype PeerId = x: int | 0 <= x < 0x1_0000_0000_0000_0000

  /** The reserved id of eight 0xFF bytes. */
  const BROADCAST: PeerId := 0xFFFF_FFFF_FFFF_FFFF

  /** The all-zero id to which the ingress task charges every command. */
  const ZERO_PEER: PeerId := 0

  /** A reading of the monotone clock, in nanoseconds. */
  type Instant = nat

  const NANOS_PER_SECOND := 1_000_000_000

  function Seconds(s: nat): nat {
    s * NANOS_PER_SECOND
  }

  /** Rust's `duration_since`, which saturates at zero. */
  function Elapsed(since: Instant, now: Instant): nat {
    if now >= since then now - since else 0
  }

  /** Rust's truncating `as u32`. */
  function AsU32(n: nat): nat {
    n % 0x1_0000_0000
  }

  lemma AsU32Small(n: nat)
    requires n < 0x1_0000_0000
    ensures AsU32(n) == n
  {
  }
}
