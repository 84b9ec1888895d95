/** Machine integers, byte strings and failure types shared by every component.
    Shifts and masks of the source are written with `/` and `%`; the subset types
    keep every intermediate value inside its machine width. */
module Core {

  type Byte = x: int | 0 <= x < 0x100
  type U16 = x: int | 0 <= x < 0x1_0000
  type U32 = x: int | 0 <= x < 0x1_0000_0000
  type U64 = x: int | 0 <= x < 0x1_0000_0000_0000_0000

  type Bytes = seq<Byte>

  /** Nanoseconds since an arbitrary origin (`std::time::Instant`). */
  type Instant = nat
  const SECOND: nat := 1_000_000_000

  /** `wrapping_add(1)`. */
  function Next64(x: U64): (r: U64) {
    if x == 0xFFFF_FFFF_FFFF_FFFF then 0 else x + 1
  }

  datatype Option<+T> = None | Some(value: T)

  datatype Result<+T, +E> = Ok(value: T) | Err(error: E)

  /** `u16::from_be_bytes`. */
  function Be16(high: Byte, low: Byte): (r: U16) {
    high * 256 + low
  }

  /** `u16::to_be_bytes`. */
  function Octets16(x: U16): (r: Bytes)
    ensures |r| == 2 && Be16(r[0], r[1]) == x
  {
    [x / 256, x % 256]
  }

  /** `slice[at..at + |bytes|].copy_from_slice(bytes)`. */
  function Splice(s: Bytes, at: nat, bytes: Bytes): (r: Bytes)
    requires at + |bytes| <= |s|
    ensures |r| == |s|
    ensures forall i :: 0 <= i < |s| ==> r[i] == if at <= i < at + |bytes| then bytes[i - at] else s[i]
  {
    s[..at] + bytes + s[at + |bytes|..]
  }

  /** The big-endian word at an offset. */
  function WordAt(s: Bytes, at: nat): (r: U16)
    requires at + 2 <= |s|
  {
    Be16(s[at], s[at + 1])
  }

  lemma Scales(a: nat, b: nat, n: nat)
    requires a <= b
    ensures a * n <= b * n
  {
  }

  function Fnv1aFrom(hash: bv64, bytes: Bytes): (r: bv64)
    decreases |bytes|
  {
    if |bytes| == 0 then hash
    else Fnv1aFrom((hash ^ (bytes[0] as bv64)) * 0x100000001b3, bytes[1..])
  }

  /** The 64-bit FNV-1a hash. */
  function Fnv1a(bytes: Bytes): (r: U64) {
    Fnv1aFrom(0xcbf29ce484222325, bytes) as int
  }
}
