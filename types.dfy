/**
 * Basic types shared by the whole kernel model: the 8-bit characters the C code
 * works on, an Option for values that may be absent (a NULL pointer, a failed
 * lookup), and the integer conversions the C code performs implicitly.
 */
module Types {

  /** An 8-bit byte (the kernel's `uint8_t`/`int8_t` characters). */
  newtype byte = b: int | 0 <= b < 256

  datatype Option<T> = None | Some(value: T)

  const NUL: byte := 0
  const SPACE: byte := 32
  const NEWLINE: byte := 10

  /** The value a C `int32_t` takes when it is converted to `uint32_t`. */
  function U32(x: int): (u: nat)
    ensures u < 0x1_0000_0000
    ensures 0 <= x < 0x1_0000_0000 ==> u == x
    ensures -0x8000_0000 <= x < 0 ==> u == x + 0x1_0000_0000
  {
    x % 0x1_0000_0000
  }

  /** The value a byte has as a (signed) C `int8_t`. */
  function Signed(b: byte): (v: int)
    ensures -128 <= v < 128
    ensures v % 256 == b as int
  {
    if b < 128 then b as int else b as int - 256
  }

  /** The bytes of an ASCII string literal. */
  function Str(s: string): (r: seq<byte>)
    requires forall i :: 0 <= i < |s| ==> s[i] as int < 256
    ensures |r| == |s|
    ensures forall i :: 0 <= i < |s| ==> r[i] as int == s[i] as int
  {
    seq(|s|, i requires 0 <= i < |s| => s[i] as int as byte)
  }

  /** `k` copies of `x`. */
  function Repeat<T>(x: T, k: nat): (r: seq<T>)
    ensures |r| == k && forall i :: 0 <= i < k ==> r[i] == x
  {
    seq(k, _ => x)
  }

  /** `k` NUL bytes. */
  function Zeros(k: nat): (r: seq<byte>)
    ensures |r| == k
    ensures forall i :: 0 <= i < k ==> r[i] == NUL
  {
    seq(k, _ => NUL)
  }

  function Min(a: int, b: int): int { if a <= b then a else b }
  function Max(a: int, b: int): int { if a >= b then a else b }
}
