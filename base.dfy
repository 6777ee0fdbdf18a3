/** C++ value conventions the renderer relies on: optional values, 32-bit
    signed integers, and the conversions `int` -> `size_t` and
    `size_t` -> `GLsizei` that its range checks and casts perform. */
module Base {

  datatype Option<+T> = None | Some(value: T)

  const TWO_32: int := 0x1_0000_0000
  const TWO_64: int := 0x1_0000_0000_0000_0000

  /** The largest size a `std::vector` can have (PTRDIFF_MAX on a 64-bit target). */
  const MAX_VECTOR_SIZE: int := 0x7FFF_FFFF_FFFF_FFFF

  /** C++ `int`, `GLint` and `GLsizei`: 32-bit two's complement. */
  newtype int32 = x: int | -0x8000_0000 <= x < 0x8000_0000

  /** `static_cast<GLsizei>(n)` for a `size_t` n: the low 32 bits of n read
      as a two's-complement value. */
  function ToInt32(n: nat): (r: int32)
    ensures n < 0x8000_0000 ==> r as int == n
    ensures 0x8000_0000 <= n % TWO_32 ==> r < 0
    ensures (n - r as int) % TWO_32 == 0
  {
    var low := n % TWO_32;
    if low < 0x8000_0000 then low as int32 else (low - TWO_32) as int32
  }

  /** The value an `int` takes when C++ converts it to `size_t`, as it does
      in `vector.size() <= i`: a negative value wraps to a huge one. */
  function ToSize(x: int32): (r: nat)
    ensures r < TWO_64
    ensures 0 <= x ==> r == x as int
    ensures x < 0 ==> r == x as int + TWO_64 && r >= TWO_64 - 0x8000_0000
  {
    (x as int) % TWO_64
  }

  /** The source's range check `size <= i` with `size` a `size_t` and `i` an
      `int`: true when `i` does NOT index the container. */
  predicate OutOfRange(size: nat, i: int32) {
    size <= ToSize(i)
  }

  /** Because the comparison is unsigned, a negative index fails the check
      just as an index at or beyond the end does. */
  lemma OutOfRangeExactly(size: nat, i: int32)
    requires size <= MAX_VECTOR_SIZE
    ensures OutOfRange(size, i) <==> !(0 <= i as int < size)
    ensures !OutOfRange(size, i) ==> ToSize(i) == i as int
  {
  }
}
