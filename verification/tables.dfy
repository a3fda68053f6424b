/**
 * The fixed tables of the QOA codec, the scaled division `qoa_div` and the
 * frame-size formula (src/QOA.cs:32-83, 114-120, 359-362).
 */
module QoaTables {
  import opened QoaInt

  const MAX_CHANNELS: int := 8
  const SLICE_LEN: int := 20
  const SLICES_PER_FRAME: int := 256
  const FRAME_LEN: int := SLICES_PER_FRAME * SLICE_LEN
  const LMS_LEN: int := 4
  const MAGIC: int := 0x716f6166

  /** Maps a clamped quotient in -8..8 (index + 8) to a 3-bit code. */
  const QUANT_TAB: seq<int> := [
    7, 7, 7, 5, 5, 3, 3, 1,
    0,
    0, 2, 2, 4, 4, 6, 6, 6
  ]

  const SCALEFACTOR_TAB: seq<int> := [
    1, 7, 21, 45, 84, 138, 211, 304, 421, 562, 731, 928, 1157, 1419, 1715, 2048
  ]

  const RECIPROCAL_TAB: seq<int> := [
    65536, 9363, 3121, 1457, 781, 475, 311, 216, 156, 117, 90, 71, 57, 47, 39, 32
  ]

  const DEQUANT_TAB: seq<seq<int>> := [
    [   1,    -1,    3,    -3,    5,    -5,     7,     -7],
    [   5,    -5,   18,   -18,   32,   -32,    49,    -49],
    [  16,   -16,   53,   -53,   95,   -95,   147,   -147],
    [  34,   -34,  113,  -113,  203,  -203,   315,   -315],
    [  63,   -63,  210,  -210,  378,  -378,   588,   -588],
    [ 104,  -104,  345,  -345,  621,  -621,   966,   -966],
    [ 158,  -158,  528,  -528,  950,  -950,  1477,  -1477],
    [ 228,  -228,  760,  -760, 1368, -1368,  2128,  -2128],
    [ 316,  -316, 1053, -1053, 1895, -1895,  2947,  -2947],
    [ 422,  -422, 1405, -1405, 2529, -2529,  3934,  -3934],
    [ 548,  -548, 1828, -1828, 3290, -3290,  5117,  -5117],
    [ 696,  -696, 2320, -2320, 4176, -4176,  6496,  -6496],
    [ 868,  -868, 2893, -2893, 5207, -5207,  8099,  -8099],
    [1064, -1064, 3548, -3548, 6386, -6386,  9933,  -9933],
    [1286, -1286, 4288, -4288, 7718, -7718, 12005, -12005],
    [1536, -1536, 5120, -5120, 9216, -9216, 14336, -14336]
  ]

  /** The 3-bit code for a quotient already clamped to -8..8. */
  function Quantize(clamped: int): (q: int)
    requires -8 <= clamped <= 8
    ensures 0 <= q < 8
    ensures q % 2 == 1 <==> clamped < 0
  {
    QUANT_TAB[clamped + 8]
  }

  /**
   * The reconstructed residual for a code under a scalefactor: entry
   * `[scalefactor][quantized]` of `DEQUANT_TAB` (see `DequantizeIsTable`).
   * Even codes are positive, odd codes the negated magnitude of the same row.
   */
  function Dequantize(scalefactor: int, quantized: int): (r: int)
    requires 0 <= scalefactor < 16 && 0 <= quantized < 8
    ensures -14336 <= r <= 14336
    ensures r < 0 <==> quantized % 2 == 1
  {
    var m := DequantMagnitude(scalefactor, quantized / 2);
    if quantized % 2 == 1 then -m else m
  }

  /** Column `2 * level` of row `scalefactor` of the dequant table. */
  function DequantMagnitude(scalefactor: int, level: int): (m: int)
    requires 0 <= scalefactor < 16 && 0 <= level < 4
    ensures 1 <= m <= 14336
  {
    if scalefactor == 0 then Pick(level, 1, 3, 5, 7)
    else if scalefactor == 1 then Pick(level, 5, 18, 32, 49)
    else if scalefactor == 2 then Pick(level, 16, 53, 95, 147)
    else if scalefactor == 3 then Pick(level, 34, 113, 203, 315)
    else if scalefactor == 4 then Pick(level, 63, 210, 378, 588)
    else if scalefactor == 5 then Pick(level, 104, 345, 621, 966)
    else if scalefactor == 6 then Pick(level, 158, 528, 950, 1477)
    else if scalefactor == 7 then Pick(level, 228, 760, 1368, 2128)
    else if scalefactor == 8 then Pick(level, 316, 1053, 1895, 2947)
    else if scalefactor == 9 then Pick(level, 422, 1405, 2529, 3934)
    else if scalefactor == 10 then Pick(level, 548, 1828, 3290, 5117)
    else if scalefactor == 11 then Pick(level, 696, 2320, 4176, 6496)
    else if scalefactor == 12 then Pick(level, 868, 2893, 5207, 8099)
    else if scalefactor == 13 then Pick(level, 1064, 3548, 6386, 9933)
    else if scalefactor == 14 then Pick(level, 1286, 4288, 7718, 12005)
    else Pick(level, 1536, 5120, 9216, 14336)
  }

  function Pick(i: int, a: int, b: int, c: int, d: int): int {
    if i == 0 then a else if i == 1 then b else if i == 2 then c else d
  }

  /** `Dequantize` is the table lookup `qoa_dequant_tab[scalefactor, quantized]` (src/QOA.cs:64-83). */
  lemma DequantizeIsTable(scalefactor: int, quantized: int)
    requires 0 <= scalefactor < 16 && 0 <= quantized < 8
    ensures |DEQUANT_TAB| == 16 && |DEQUANT_TAB[scalefactor]| == 8
    ensures Dequantize(scalefactor, quantized) == DEQUANT_TAB[scalefactor][quantized]
  {
  }

  /**
   * `qoa_div` (src/QOA.cs:114-120): multiply by the reciprocal with a rounding
   * constant of 1 << 15, shift right by 16, then correct. Both the product and
   * the rounding addition are unchecked `int` operations. As written, line 118
   * adds and subtracts `Sign(v)` and subtracts `Sign(n)` twice, so the result
   * is `n - 2 * Sign(n)`: the rounded quotient moved two steps toward zero,
   * which flips the sign of a rounded quotient of magnitude 1. It is not the
   * round-away-from-zero correction the source's comment describes.
   */
  function Div(v: int, scalefactor: int): (r: int)
    requires 0 <= scalefactor < 16
    ensures var n := RoundedQuotient(v, scalefactor); r == n - 2 * Sign(n)
  {
    var n := RoundedQuotient(v, scalefactor);
    n + Sign(v) - Sign(v) - Sign(n) - Sign(n)
  }

  /** What `Div` gives for each rounded quotient `n`: `n - 2 * Sign(n)`. */
  lemma DivCases(v: int, scalefactor: int)
    requires 0 <= scalefactor < 16
    ensures var n := RoundedQuotient(v, scalefactor); var r := Div(v, scalefactor);
      (n >= 2 ==> r == n - 2) && (n <= -2 ==> r == n + 2) &&
      (n == 1 ==> r == -1) && (n == -1 ==> r == 1) && (n == 0 ==> r == 0)
  {
  }

  /** `(v * reciprocal + (1 << 15)) >> 16` with C#'s wrapping. */
  function RoundedQuotient(v: int, scalefactor: int): (n: int)
    requires 0 <= scalefactor < 16
    ensures -0x8000 <= n < 0x8000
  {
    Wrap32(Mul(v, RECIPROCAL_TAB[scalefactor]) + 0x8000) / 0x1_0000
  }

  /** The product and the rounding addition wrap one after the other, as `int` operations do. */
  lemma RoundedQuotientWraps(v: int, scalefactor: int)
    requires 0 <= scalefactor < 16
    ensures RoundedQuotient(v, scalefactor) ==
      Wrap32(Wrap32(v * RECIPROCAL_TAB[scalefactor]) + 0x8000) / 0x1_0000
  {
    MulIsProduct(v, RECIPROCAL_TAB[scalefactor]);
    Wrap32Add(v * RECIPROCAL_TAB[scalefactor], 0x8000);
  }

  /** The correction at line 118 does not round away from zero: 1 / 1 gives -1. */
  lemma DivFlipsUnitQuotient()
    ensures Div(1, 0) == -1
  {
    MulIsProduct(1, RECIPROCAL_TAB[0]);
    assert RoundedQuotient(1, 0) == 1;
  }

  /** A positive `v` can produce a negative `Div` result, unlike a rounded division. */
  lemma DivNotSignPreserving()
    ensures exists v :: v > 0 && Div(v, 0) < 0
  {
    DivFlipsUnitQuotient();
  }

  /**
   * `QOA_FRAME_SIZE` (src/QOA.cs:42-45): header, per-channel LMS state and
   * slices, in bytes, computed in `uint` arithmetic.
   */
  function FrameSize(channels: nat, slices: nat): (r: nat)
    ensures r < TWO_32
    ensures channels <= 255 && slices <= 256 ==>
      r == 8 + 16 * channels + 8 * slices * channels && r < 0x1_0000 * 9
    ensures channels <= 8 && slices <= 256 ==> r <= 16520
  {
    (8 + LMS_LEN * 4 * channels + 8 * slices * channels) % TWO_32
  }

  /** `qoa_max_frame_size` (src/QOA.cs:359-362). */
  function MaxFrameSize(channels: nat): (r: nat)
    ensures 1 <= channels <= MAX_CHANNELS ==> r == 8 + 2064 * channels && r < 0x1_0000
  {
    FrameSize(channels, SLICES_PER_FRAME)
  }
}
