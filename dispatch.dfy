/**
 * Integer helpers around the GPU work: the compute dispatch size and the
 * `Align` macro that rounds a byte width up to a power-of-two boundary.
 */
module Dispatch {

  /** Threads per compute tile along each axis. */
  const THREAD_COUNT: nat := 8

  /**
   * Tiles needed along one axis. The program adds `THREAD_COUNT - 1` to the
   * extent and divides in floating point, then converts the quotient to an
   * unsigned integer, which truncates.
   */
  function ThreadGroupCount(extent: nat): (groups: nat)
    ensures groups * THREAD_COUNT >= extent
    ensures (groups - 1) * THREAD_COUNT < extent
  {
    var quotient := (extent as real + (THREAD_COUNT - 1) as real) / THREAD_COUNT as real;
    quotient.Floor
  }

  /** No smaller tile count covers the extent. */
  lemma ThreadGroupCountIsLeast(extent: nat, groups: nat)
    requires groups * THREAD_COUNT >= extent
    ensures groups >= ThreadGroupCount(extent)
  {
  }

  /**
   * Unsigned 32-bit widths: the result of the macro is stored in a 32-bit
   * `ByteWidth` field.
   */
  type Width = bv32

  /** `(size + (alignment - 1)) & ~(alignment - 1)`, wrapping at 2^32: the bits below the boundary are cleared. */
  function Align(size: Width, alignment: Width): (r: Width)
    ensures IsAlignedTo(r, alignment)
  {
    (size + (alignment - 1)) & !(alignment - 1)
  }

  predicate IsPowerOfTwo(a: Width) {
    a != 0 && a & (a - 1) == 0
  }

  /** The bits of `x` below the boundary `alignment` are all clear. */
  predicate IsAlignedTo(x: Width, alignment: Width) {
    x & (alignment - 1) == 0
  }

  predicate IsMultipleOf(x: Width, a: Width) {
    a != 0 && x % a == 0
  }

  /** A 32-bit power of two is one of the 32 single-bit words. */
  lemma PowerOfTwoCases(a: Width)
    requires IsPowerOfTwo(a)
    ensures a == 0x1 || a == 0x2 || a == 0x4 || a == 0x8
      || a == 0x10 || a == 0x20 || a == 0x40 || a == 0x80
      || a == 0x100 || a == 0x200 || a == 0x400 || a == 0x800
      || a == 0x1000 || a == 0x2000 || a == 0x4000 || a == 0x8000
      || a == 0x10000 || a == 0x20000 || a == 0x40000 || a == 0x80000
      || a == 0x100000 || a == 0x200000 || a == 0x400000 || a == 0x800000
      || a == 0x1000000 || a == 0x2000000 || a == 0x4000000 || a == 0x8000000
      || a == 0x10000000 || a == 0x20000000 || a == 0x40000000 || a == 0x80000000
  {
  }

  /** For a power-of-two boundary, clear low bits make a multiple (one case per boundary). */
  lemma MaskMeansMultiple(x: Width, a: Width)
    requires IsPowerOfTwo(a) && IsAlignedTo(x, a)
    ensures IsMultipleOf(x, a)
  {
    PowerOfTwoCases(a);
    if a == 0x1 { assert IsMultipleOf(x, 0x1); }
    else if a == 0x2 { assert IsMultipleOf(x, 0x2); }
    else if a == 0x4 { assert IsMultipleOf(x, 0x4); }
    else if a == 0x8 { assert IsMultipleOf(x, 0x8); }
    else if a == 0x10 { assert IsMultipleOf(x, 0x10); }
    else if a == 0x20 { assert IsMultipleOf(x, 0x20); }
    else if a == 0x40 { assert IsMultipleOf(x, 0x40); }
    else if a == 0x80 { assert IsMultipleOf(x, 0x80); }
    else if a == 0x100 { assert IsMultipleOf(x, 0x100); }
    else if a == 0x200 { assert IsMultipleOf(x, 0x200); }
    else if a == 0x400 { assert IsMultipleOf(x, 0x400); }
    else if a == 0x800 { assert IsMultipleOf(x, 0x800); }
    else if a == 0x1000 { assert IsMultipleOf(x, 0x1000); }
    else if a == 0x2000 { assert IsMultipleOf(x, 0x2000); }
    else if a == 0x4000 { assert IsMultipleOf(x, 0x4000); }
    else if a == 0x8000 { assert IsMultipleOf(x, 0x8000); }
    else if a == 0x10000 { assert IsMultipleOf(x, 0x10000); }
    else if a == 0x20000 { assert IsMultipleOf(x, 0x20000); }
    else if a == 0x40000 { assert IsMultipleOf(x, 0x40000); }
    else if a == 0x80000 { assert IsMultipleOf(x, 0x80000); }
    else if a == 0x100000 { assert IsMultipleOf(x, 0x100000); }
    else if a == 0x200000 { assert IsMultipleOf(x, 0x200000); }
    else if a == 0x400000 { assert IsMultipleOf(x, 0x400000); }
    else if a == 0x800000 { assert IsMultipleOf(x, 0x800000); }
    else if a == 0x1000000 { assert IsMultipleOf(x, 0x1000000); }
    else if a == 0x2000000 { assert IsMultipleOf(x, 0x2000000); }
    else if a == 0x4000000 { assert IsMultipleOf(x, 0x4000000); }
    else if a == 0x8000000 { assert IsMultipleOf(x, 0x8000000); }
    else if a == 0x10000000 { assert IsMultipleOf(x, 0x10000000); }
    else if a == 0x20000000 { assert IsMultipleOf(x, 0x20000000); }
    else if a == 0x40000000 { assert IsMultipleOf(x, 0x40000000); }
    else if a == 0x80000000 { assert IsMultipleOf(x, 0x80000000); }
  }

  /** Conversely, a multiple of a power-of-two boundary has its low bits clear. */
  lemma MultipleMeansMask(x: Width, a: Width)
    requires IsPowerOfTwo(a) && IsMultipleOf(x, a)
    ensures IsAlignedTo(x, a)
  {
    PowerOfTwoCases(a);
    if a == 0x1 { assert IsAlignedTo(x, 0x1); }
    else if a == 0x2 { assert IsAlignedTo(x, 0x2); }
    else if a == 0x4 { assert IsAlignedTo(x, 0x4); }
    else if a == 0x8 { assert IsAlignedTo(x, 0x8); }
    else if a == 0x10 { assert IsAlignedTo(x, 0x10); }
    else if a == 0x20 { assert IsAlignedTo(x, 0x20); }
    else if a == 0x40 { assert IsAlignedTo(x, 0x40); }
    else if a == 0x80 { assert IsAlignedTo(x, 0x80); }
    else if a == 0x100 { assert IsAlignedTo(x, 0x100); }
    else if a == 0x200 { assert IsAlignedTo(x, 0x200); }
    else if a == 0x400 { assert IsAlignedTo(x, 0x400); }
    else if a == 0x800 { assert IsAlignedTo(x, 0x800); }
    else if a == 0x1000 { assert IsAlignedTo(x, 0x1000); }
    else if a == 0x2000 { assert IsAlignedTo(x, 0x2000); }
    else if a == 0x4000 { assert IsAlignedTo(x, 0x4000); }
    else if a == 0x8000 { assert IsAlignedTo(x, 0x8000); }
    else if a == 0x10000 { assert IsAlignedTo(x, 0x10000); }
    else if a == 0x20000 { assert IsAlignedTo(x, 0x20000); }
    else if a == 0x40000 { assert IsAlignedTo(x, 0x40000); }
    else if a == 0x80000 { assert IsAlignedTo(x, 0x80000); }
    else if a == 0x100000 { assert IsAlignedTo(x, 0x100000); }
    else if a == 0x200000 { assert IsAlignedTo(x, 0x200000); }
    else if a == 0x400000 { assert IsAlignedTo(x, 0x400000); }
    else if a == 0x800000 { assert IsAlignedTo(x, 0x800000); }
    else if a == 0x1000000 { assert IsAlignedTo(x, 0x1000000); }
    else if a == 0x2000000 { assert IsAlignedTo(x, 0x2000000); }
    else if a == 0x4000000 { assert IsAlignedTo(x, 0x4000000); }
    else if a == 0x8000000 { assert IsAlignedTo(x, 0x8000000); }
    else if a == 0x10000000 { assert IsAlignedTo(x, 0x10000000); }
    else if a == 0x20000000 { assert IsAlignedTo(x, 0x20000000); }
    else if a == 0x40000000 { assert IsAlignedTo(x, 0x40000000); }
    else if a == 0x80000000 { assert IsAlignedTo(x, 0x80000000); }
  }

  /** For a power-of-two alignment the result is a multiple of it. */
  lemma AlignIsAligned(size: Width, alignment: Width)
    requires IsPowerOfTwo(alignment)
    ensures IsMultipleOf(Align(size, alignment), alignment)
  {
    MaskMeansMultiple(Align(size, alignment), alignment);
  }

  /** Without wrap-around the result rounds up by less than one alignment step. */
  lemma AlignRoundsUp(size: Width, alignment: Width)
    requires IsPowerOfTwo(alignment)
    requires size <= 0xFFFF_FFFF - (alignment - 1)
    ensures Align(size, alignment) >= size
    ensures Align(size, alignment) - size < alignment
  {
  }

  /** A size whose low bits are clear is returned unchanged, so aligning twice is aligning once. */
  lemma AlignIdempotent(size: Width, alignment: Width)
    requires IsPowerOfTwo(alignment)
    ensures IsAlignedTo(size, alignment) ==> Align(size, alignment) == size
    ensures Align(Align(size, alignment), alignment) == Align(size, alignment)
  {
  }

  /** A size that is already a multiple of a power-of-two alignment is returned unchanged. */
  lemma AlignKeepsMultiple(size: Width, alignment: Width)
    requires IsPowerOfTwo(alignment) && IsMultipleOf(size, alignment)
    ensures Align(size, alignment) == size
  {
    MultipleMeansMask(size, alignment);
    AlignIdempotent(size, alignment);
  }

  /**
   * sizeof(BezierCurveShaderConstants): two vec3 colours (12 bytes each), two
   * float thicknesses, three ints, one float T1 and one more int, packed
   * without padding.
   */
  const SHADER_CONSTANTS_SIZE: Width := 12 + 4 + 12 + 4 + 4 + 4 + 4 + 4 + 4

  /** Byte width of the constant buffer: a 16-byte multiple that holds the record. */
  function ConstantBufferByteWidth(): (width: Width)
    ensures width % 16 == 0
    ensures width >= SHADER_CONSTANTS_SIZE && width - SHADER_CONSTANTS_SIZE < 16
  {
    AlignRoundsUp(SHADER_CONSTANTS_SIZE, 16);
    Align(SHADER_CONSTANTS_SIZE, 16)
  }
}
