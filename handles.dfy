/** Machine-level values shared by the modules that model the C layer:
    pointers and function pointers are compared by identity only, 0 being
    NULL, and the fixed-width integers the C and Rust code use. */
module Handles {
  /** An opaque data pointer (`void*`, a window, a browser, ...); 0 is NULL. */
  type Ptr = nat

  /** A C function pointer, known by its identity; 0 is NULL. */
  type FuncPtr = nat

  const NULL: nat := 0

  const TwoTo31: int := 0x8000_0000
  const TwoTo32: int := 0x1_0000_0000

  newtype uint32 = x: int | 0 <= x < 0x1_0000_0000
  newtype int32 = x: int | -0x8000_0000 <= x < 0x8000_0000

  /** `bw_CStrSlice`: a length and the characters it points at. */
  datatype CStrSlice = CStrSlice(len: nat, data: string)

  /** The slice of a whole string, as `{ s.length(), s.c_str() }`. */
  function SliceOf(s: string): (sl: CStrSlice)
    ensures sl.len == |s| && sl.data == s
  {
    CStrSlice(|s|, s)
  }

  /** The text a slice stands for: its first `len` characters. */
  function SliceText(sl: CStrSlice): string
    requires sl.len <= |sl.data|
  {
    sl.data[..sl.len]
  }

  /** C's conversion of any integer to `unsigned int`: reduction modulo 2^32. */
  function ToUint32(x: int): (r: uint32)
    ensures (r as int - x) % TwoTo32 == 0
    ensures 0 <= x < TwoTo32 ==> r as int == x
  {
    (x % TwoTo32) as uint32
  }

  /** Rust's `as i32` (and C's conversion to `int`) on an unsigned value:
      the low 32 bits read as two's complement. */
  function ToInt32(x: nat): (r: int32)
    ensures (r as int - x) % TwoTo32 == 0
    ensures x < TwoTo31 ==> r as int == x
    ensures TwoTo31 <= x < TwoTo32 ==> r < 0
  {
    var low := x % TwoTo32;
    if low < TwoTo31 then low as int32 else (low - TwoTo32) as int32
  }

  /** Adding to a reduced value and reducing again is reducing the sum:
      an `unsigned int` counter moved by `d` stays the count modulo 2^32. */
  lemma ToUint32Shift(x: int, d: int)
    ensures ToUint32(ToUint32(x) as int + d) == ToUint32(x + d)
  {
    var q := x / TwoTo32;
    assert x == q * TwoTo32 + x % TwoTo32;
    assert ToUint32(x) as int + d == (x + d) - q * TwoTo32;
  }
}
