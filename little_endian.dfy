/** Bytes and the little-endian integer layouts used by struct formats
    '<H', '<h' and '<L'. */
module LittleEndian {

  type byte = x: int | 0 <= x < 0x100

  const U16Limit: int := 0x1_0000
  const U32Limit: int := 0x1_0000_0000

  /** '<H': unsigned 16-bit little-endian value of bytes s[k], s[k+1]. */
  function U16At(s: seq<byte>, k: nat): (v: nat)
    requires k + 2 <= |s|
    ensures v < U16Limit
  {
    s[k] as int + 0x100 * s[k + 1] as int
  }

  /** '<L': unsigned 32-bit little-endian value of bytes s[k..k+4]. */
  function U32At(s: seq<byte>, k: nat): (v: nat)
    requires k + 4 <= |s|
    ensures v < U32Limit
  {
    s[k] as int + 0x100 * (s[k + 1] as int + 0x100 * (s[k + 2] as int + 0x100 * s[k + 3] as int))
  }

  /** '<h': two's-complement signed 16-bit little-endian value. */
  function I16At(s: seq<byte>, k: nat): (v: int)
    requires k + 2 <= |s|
    ensures -0x8000 <= v < 0x8000
  {
    var u := U16At(s, k);
    if u < 0x8000 then u else u - U16Limit
  }

  function PackU16(x: nat): (r: seq<byte>)
    requires x < U16Limit
    ensures |r| == 2 && U16At(r, 0) == x
  {
    [x % 0x100, x / 0x100]
  }

  function PackU32(x: nat): (r: seq<byte>)
    requires x < U32Limit
    ensures |r| == 4 && U32At(r, 0) == x
  {
    PackU32Digits(x);
    [x % 0x100, x / 0x100 % 0x100, x / 0x1_0000 % 0x100, x / 0x100_0000]
  }

  /** The four base-256 digits of x recombine to x. */
  lemma PackU32Digits(x: nat)
    requires x < U32Limit
    ensures x / 0x100_0000 < 0x100
    ensures x % 0x100 + 0x100 * (x / 0x100 % 0x100 + 0x100 * (x / 0x1_0000 % 0x100 + 0x100 * (x / 0x100_0000))) == x
  {
    var q0 := x / 0x100;
    var q1 := q0 / 0x100;
    var q2 := q1 / 0x100;
    assert x == x % 0x100 + 0x100 * q0;
    assert q0 == q0 % 0x100 + 0x100 * q1;
    assert q1 == q1 % 0x100 + 0x100 * q2;
    DivDiv(x, q0, q1);
  }

  function PackI16(x: int): (r: seq<byte>)
    requires -0x8000 <= x < 0x8000
    ensures |r| == 2 && I16At(r, 0) == x
  {
    PackU16(if x < 0 then x + U16Limit else x)
  }

  /** Unpacking a '<L' field and packing it again gives back the same four bytes. */
  lemma PackU32OfU32At(s: seq<byte>, k: nat)
    requires k + 4 <= |s|
    ensures PackU32(U32At(s, k)) == s[k..k + 4]
  {
    var b0, b1, b2, b3 := s[k] as int, s[k + 1] as int, s[k + 2] as int, s[k + 3] as int;
    var hi := b2 + 0x100 * b3;
    var mid := b1 + 0x100 * hi;
    var x := b0 + 0x100 * mid;
    DivModByte(b0, mid);
    DivModByte(b1, hi);
    DivModByte(b2, b3);
    assert x / 0x1_0000 == hi by { DivDiv(x, mid, hi); }
    assert x / 0x100_0000 == b3 by { DivDiv(x, mid, hi); DivModByte(b2, b3); assert x / 0x100_0000 == hi / 0x100; }
  }

  lemma DivModByte(lo: int, hi: int)
    requires 0 <= lo < 0x100 && 0 <= hi
    ensures (lo + 0x100 * hi) % 0x100 == lo && (lo + 0x100 * hi) / 0x100 == hi
  {
  }

  lemma DivDiv(x: int, mid: int, hi: int)
    requires 0 <= x && x / 0x100 == mid && mid / 0x100 == hi
    ensures x / 0x1_0000 == hi && x / 0x100_0000 == hi / 0x100
  {
  }

  /** Unpacking a '<h' field and packing it again gives back the same two bytes. */
  lemma PackI16OfI16At(s: seq<byte>, k: nat)
    requires k + 2 <= |s|
    ensures PackI16(I16At(s, k)) == s[k..k + 2]
  {
  }

  /** A field's value depends only on the bytes it occupies. */
  lemma U32AtSlice(s: seq<byte>, t: seq<byte>, k: nat, j: nat)
    requires k + 4 <= |s| && j + 4 <= |t| && s[k..k + 4] == t[j..j + 4]
    ensures U32At(s, k) == U32At(t, j)
  {
    assert s[k] == s[k..k + 4][0] && s[k + 1] == s[k..k + 4][1];
    assert s[k + 2] == s[k..k + 4][2] && s[k + 3] == s[k..k + 4][3];
  }

  lemma U16AtSlice(s: seq<byte>, t: seq<byte>, k: nat, j: nat)
    requires k + 2 <= |s| && j + 2 <= |t| && s[k..k + 2] == t[j..j + 2]
    ensures U16At(s, k) == U16At(t, j) && I16At(s, k) == I16At(t, j)
  {
    assert s[k] == s[k..k + 2][0] && s[k + 1] == s[k..k + 2][1];
  }

  /** Python's file read after a seek: at most n bytes from offset off, fewer at end of file. */
  function Read(file: seq<byte>, off: nat, n: nat): (r: seq<byte>)
    ensures |r| == if off >= |file| then 0 else if off + n <= |file| then n else |file| - off
    ensures forall k :: 0 <= k < |r| ==> r[k] == file[off + k]
    ensures off + n <= |file| ==> r == file[off..off + n]
  {
    if off >= |file| then [] else if off + n <= |file| then file[off..off + n] else file[off..]
  }

  /** Python's file write after a seek: bytes past the old end that are
      skipped read as zero, and writing nothing changes nothing, even past
      the end. */
  function WriteAt(file: seq<byte>, off: nat, d: seq<byte>): (r: seq<byte>)
    ensures |r| == if |d| == 0 || off + |d| <= |file| then |file| else off + |d|
    ensures forall k :: off <= k < off + |d| ==> r[k] == d[k - off]
    ensures forall k :: 0 <= k < |r| && !(off <= k < off + |d|) ==> r[k] == if k < |file| then file[k] else 0
  {
    if |d| == 0 then file
    else if off <= |file| then
      file[..off] + d + (if off + |d| < |file| then file[off + |d|..] else [])
    else
      file + Zeros(off - |file|) + d
  }

  function Zeros(n: nat): (r: seq<byte>)
    ensures |r| == n && forall k :: 0 <= k < n ==> r[k] == 0
  {
    if n == 0 then [] else Zeros(n - 1) + [0]
  }

  /** Appending at the end of a file is concatenation. */
  lemma WriteAtEnd(file: seq<byte>, d: seq<byte>)
    ensures WriteAt(file, |file|, d) == file + d
  {
  }
}
