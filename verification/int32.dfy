/**
 * Fixed-width integer helpers of the QOA codec (src/QOA.cs).
 *
 * C# `int` arithmetic is unchecked: a sum or product that leaves the signed
 * 32-bit range wraps around. Dafny integers are unbounded, so every place
 * where the codec can overflow applies `Wrap32` explicitly. C#'s `>>` on a
 * signed integer is an arithmetic shift, which is floor division by a power
 * of two; Dafny's `/` with a positive divisor floors as well.
 */
module QoaInt {

  const TWO_32: int := 0x1_0000_0000
  const TWO_64: int := 0x1_0000_0000_0000_0000
  const MIN_I32: int := -0x8000_0000
  const MAX_I32: int := 0x7fff_ffff
  const MAX_U64: int := 0xffff_ffff_ffff_ffff

  /** A C# `uint` value. */
  type U32 = x: int | 0 <= x < 0x1_0000_0000

  /** A C# `short` value. */
  type Int16 = x: int | -0x8000 <= x < 0x8000

  predicate IsI32(x: int) {
    MIN_I32 <= x <= MAX_I32
  }

  predicate IsI16(x: int) {
    -0x8000 <= x < 0x8000
  }

  /** The value of `x` after C#'s unchecked conversion to `int`. */
  function Wrap32(x: int): (r: int)
    ensures IsI32(r)
    ensures (r - x) % TWO_32 == 0
    ensures IsI32(x) ==> r == x
  {
    (x + 0x8000_0000) % TWO_32 - 0x8000_0000
  }

  /** Unchecked addition on already wrapped operands gives the wrapped exact sum. */
  lemma Wrap32Add(a: int, b: int)
    ensures Wrap32(Wrap32(a) + b) == Wrap32(a + b)
  {
    var q := (a + 0x8000_0000) / TWO_32;
    assert Wrap32(a) == a - q * TWO_32;
    assert (a + b + 0x8000_0000 - q * TWO_32) % TWO_32 == (a + b + 0x8000_0000) % TWO_32;
  }

  /** The value of `x` after C#'s conversion to `short` (keeps the low 16 bits). */
  function Wrap16(x: int): (r: int)
    ensures IsI16(r)
    ensures (r - x) % 0x1_0000 == 0
    ensures IsI16(x) ==> r == x
  {
    (x + 0x8000) % 0x1_0000 - 0x8000
  }

  /** `Sign` (src/QOA.cs:122-133). */
  function Sign(value: int): (r: int)
    ensures r == -1 <==> value < 0
    ensures r == 1 <==> value > 0
    ensures r == 0 <==> value == 0
  {
    if value < 0 then -1
    else if value > 0 then 1
    else 0
  }

  /** `qoa_clamp` (src/QOA.cs:135-140). */
  function Clamp(v: int, min: int, max: int): (r: int)
    ensures min <= max ==> min <= r <= max
    ensures min <= v <= max ==> r == v
    ensures v < min ==> r == min
    ensures min <= v && max < v ==> r == max
  {
    if v < min then min
    else if v > max then max
    else v
  }

  /**
   * `qoa_clamp_s16` (src/QOA.cs:143-151): the range test is done on the
   * unsigned reinterpretation of the wrapped sum `v + 32768`.
   */
  function ClampS16(v: int): (r: int)
    requires IsI32(v)
    ensures IsI16(r)
    ensures IsI16(v) ==> r == v
    ensures v < -0x8000 ==> r == -0x8000
    ensures v >= 0x8000 ==> r == 0x7fff
  {
    if Wrap32(v + 32768) % TWO_32 > 65535 then
      if v < -32768 then -32768
      else if v > 32767 then 32767
      else v
    else v
  }

  function Mul(a: int, b: int): int
  {
    a * b
  }

  lemma MulIsProduct(a: int, b: int)
    ensures Mul(a, b) == a * b
  {
  }

  lemma MulHalves(a: int, b: int, h: int)
    requires b == 2 * h || b == 2 * h + 1
    ensures a * b == 2 * (a * h) + (if b == 2 * h then 0 else a)
  {
  }

  /** |e| <= m implies e * e <= m * m. */
  lemma SquareBound(e: int, m: int)
    requires 0 <= m && -m <= e <= m
    ensures 0 <= Mul(e, e) <= m * m
  {
    MulIsProduct(e, e);
    var a := if e < 0 then -e else e;
    assert e * e == a * a;
    MulMono(a, m, a);
    MulMono(a, m, m);
    MulMono(0, a, a);
  }

  /** Multiplying by a non-negative factor preserves order. */
  lemma MulMono(a: int, b: int, c: int)
    requires 0 <= c && a <= b
    ensures a * c <= b * c
  {
    assert b * c - a * c == (b - a) * c;
  }
}
