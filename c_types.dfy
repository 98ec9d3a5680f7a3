/**
 * The C integer widths, error numbers, mode bits and the bounded string copy
 * that the adapter relies on, written out on unbounded Dafny integers
 * (Linux on x86_64: size_t is 64-bit unsigned, off_t 64-bit signed, int 32-bit).
 */
module CTypes {

  const SIZE_T_MODULUS: int := 0x1_0000_0000_0000_0000
  const OFF_T_LIMIT: int := 0x8000_0000_0000_0000
  const INT_MODULUS: int := 0x1_0000_0000
  const INT_LIMIT: int := 0x8000_0000

  /** An unsigned 64-bit value (size_t, hsize_t). */
  type SizeT = x: int | 0 <= x < SIZE_T_MODULUS

  /** A signed 64-bit value (off_t). */
  type OffT = x: int | -OFF_T_LIMIT <= x < OFF_T_LIMIT

  /** A signed 32-bit value (int). */
  type CInt = x: int | -INT_LIMIT <= x < INT_LIMIT

  // errno values
  const ENOENT: int := 2
  const EACCES: int := 13

  // open(2) access modes
  const O_ACCMODE: bv32 := 3
  const O_RDONLY: bv32 := 0
  const O_WRONLY: bv32 := 1
  const O_RDWR: bv32 := 2

  // st_mode file-type bits and permission bits (octal 0170000, 0040000, ...)
  const S_IFMT: bv32 := 0xF000
  const S_IFDIR: bv32 := 0x4000
  const S_IFREG: bv32 := 0x8000
  const S_IFCHR: bv32 := 0x2000
  /** Octal 0777: all permission bits. */
  const PERM_MASK: bv32 := 0x1FF
  /** Octal 0222: the write bits of owner, group and other. */
  const PERM_WRITE: bv32 := 0x92
  /** Octal 0555. */
  const PERM_R_X: bv32 := 0x16D
  /** Octal 0444. */
  const PERM_R: bv32 := 0x124

  /** The conversion of a size_t to off_t: the same 64 bits read as two's complement. */
  function SizeToOff(x: SizeT): (r: OffT)
    ensures r % SIZE_T_MODULUS == x
    ensures x < OFF_T_LIMIT <==> r == x
    ensures r < 0 <==> x >= OFF_T_LIMIT
  {
    if x < OFF_T_LIMIT then x else x - SIZE_T_MODULUS
  }

  /** The conversion of a size_t to int: its low 32 bits read as two's complement. */
  function SizeToCInt(x: SizeT): (r: CInt)
    ensures r % INT_MODULUS == x % INT_MODULUS
    ensures x < INT_LIMIT ==> r == x
  {
    var low := x % INT_MODULUS;
    if low < INT_LIMIT then low else low - INT_MODULUS
  }

  /**
   * `a - b` for a size_t `a` and an off_t `b`: the usual arithmetic conversions
   * turn `b` into a size_t, and the unsigned subtraction wraps modulo 2^64.
   */
  function SubSizeOff(a: SizeT, b: OffT): (r: SizeT)
    ensures (r + b) % SIZE_T_MODULUS == a
    ensures 0 <= b <= a ==> r == a - b
  {
    (a - b) % SIZE_T_MODULUS
  }

  /** The first `n` characters of `s`, or all of `s` when it is shorter. */
  function Take(s: string, n: nat): (r: string)
    ensures |r| <= n && r <= s
    ensures |s| <= n ==> r == s
    ensures |s| > n ==> |r| == n
  {
    if |s| <= n then s else s[..n]
  }

  /**
   * The string a caller reads back from a NUL-terminated copy of `s` into a
   * buffer of `capacity` bytes: at most `capacity - 1` characters followed by NUL.
   */
  function BoundedCopy(s: string, capacity: nat): (r: string)
    requires capacity >= 1
    ensures r <= s && |r| < capacity
    ensures |s| < capacity <==> r == s
  {
    Take(s, capacity - 1)
  }
}
