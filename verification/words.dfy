/**
 * Big-endian 64-bit words and the bit layouts packed into them
 * (src/QOA.cs:153-181, 192-216, 249, 288, 308, 413-417, 437-470).
 *
 * A `ulong` is a `U64` (an integer in [0, 2^64)). A left shift by `k` is a
 * multiplication by 2^k taken modulo 2^64, a right shift a floor division by
 * 2^k and a mask `& (2^k - 1)` a remainder modulo 2^k. Where the source ORs
 * fields that occupy disjoint bit ranges, the model adds them, which gives
 * the same word.
 */
module QoaWords {
  import opened QoaInt
  import opened QoaTables

  type Byte = x: int | 0 <= x < 0x100
  type U64 = x: int | 0 <= x < 0x1_0000_0000_0000_0000

  const TWO_16: int := 0x1_0000
  const TWO_48: int := 0x1_0000_0000_0000
  const TWO_56: int := 0x100_0000_0000_0000
  const TWO_60: int := 0x1000_0000_0000_0000
  const TWO_61: int := 0x2000_0000_0000_0000

  /** A `ulong` is written and read as 8 bytes. */
  const WORD_BYTES: nat := 8

  /** 256^n. */
  function Pow256(n: nat): (p: nat)
    ensures p >= 1
  {
    if n == 0 then 1 else 256 * Pow256(n - 1)
  }

  /**
   * The low `n` bytes of `v`, most significant first: byte `i` is
   * `(v >> 8 * (n - 1 - i)) & 0xff`.
   */
  function BytesBE(v: nat, n: nat): (b: seq<Byte>)
    ensures |b| == n
  {
    if n == 0 then [] else BytesBE(v / 256, n - 1) + [v % 256]
  }

  /** The value of bytes read most significant first: the OR of each byte shifted into place. */
  function ValueBE(b: seq<Byte>): (v: nat)
    ensures v < Pow256(|b|)
  {
    if b == [] then 0 else ValueBE(b[..|b| - 1]) * 256 + b[|b| - 1]
  }

  /** The 8 bytes `qoa_write_u64` (src/QOA.cs:164-176) writes for `v`. */
  function BytesOf(v: U64): (b: seq<Byte>)
    ensures |b| == 8
  {
    BytesBE(v, WORD_BYTES)
  }

  /** The word `qoa_read_u64` (src/QOA.cs:153-162) assembles from 8 bytes. */
  function WordOf(b: seq<Byte>): (v: U64)
    requires |b| == 8
  {
    assert Pow256(8) == TWO_64;
    ValueBE(b)
  }

  lemma {:induction false} BytesValueBE(v: nat, n: nat)
    requires v < Pow256(n)
    ensures ValueBE(BytesBE(v, n)) == v
  {
    if n > 0 {
      BytesValueBE(v / 256, n - 1);
      var b := BytesBE(v, n);
      assert b[..n - 1] == BytesBE(v / 256, n - 1);
    }
  }

  lemma {:induction false} ValueBytesBE(b: seq<Byte>)
    ensures BytesBE(ValueBE(b), |b|) == b
  {
    if b != [] {
      var p := b[..|b| - 1];
      ValueBytesBE(p);
      assert b == p + [b[|b| - 1]];
    }
  }

  /** Reading back the 8 bytes `qoa_write_u64` wrote for a word gives the word. */
  lemma ReadWriteRoundTrip(v: U64)
    ensures WordOf(BytesOf(v)) == v
  {
    assert Pow256(8) == TWO_64;
    BytesValueBE(v, WORD_BYTES);
  }

  /** Writing the word read from 8 bytes gives the bytes back. */
  lemma WriteReadRoundTrip(b: seq<Byte>)
    requires |b| == 8
    ensures BytesOf(WordOf(b)) == b
  {
    ValueBytesBE(b);
  }

  /** The bytes of words written one after another with `qoa_write_u64`. */
  function WordBytes(ws: seq<U64>): (b: seq<Byte>)
    ensures |b| == 8 * |ws|
  {
    if ws == [] then [] else BytesOf(ws[0]) + WordBytes(ws[1..])
  }

  lemma SeqAssoc<T>(a: seq<T>, b: seq<T>, c: seq<T>)
    ensures a + (b + c) == a + b + c
  {
  }

  /** Writing one word after `d`: the bytes still to come lose that word's eight bytes at the front. */
  lemma EmitWord(d: seq<Byte>, w: U64, rest: seq<U64>)
    ensures d + WordBytes([w] + rest) == (d + BytesOf(w)) + WordBytes(rest)
  {
    assert ([w] + rest)[1..] == rest;
    SeqAssoc(d, BytesOf(w), WordBytes(rest));
  }

  /** The bytes of two word sequences written one after the other. */
  lemma {:induction false} WordBytesAppend(a: seq<U64>, b: seq<U64>)
    ensures WordBytes(a + b) == WordBytes(a) + WordBytes(b)
  {
    if a == [] {
      assert a + b == b;
    } else {
      assert (a + b)[0] == a[0] && (a + b)[1..] == a[1..] + b;
      WordBytesAppend(a[1..], b);
      SeqAssoc(BytesOf(a[0]), WordBytes(a[1..]), WordBytes(b));
    }
  }

  // ----- Stream header -----

  /** The stream header (src/QOA.cs:180): magic in the high half, sample count in the low half. */
  function FileHeader(samples: nat): (h: U64)
    requires samples < TWO_32
    ensures h / TWO_32 == MAGIC && h % TWO_32 == samples
  {
    MAGIC * TWO_32 + samples
  }

  // ----- Frame header -----

  /**
   * The frame header (src/QOA.cs:192-197): channels in bits 63-56, samplerate
   * in 55-32, frame sample count in 31-16, frame byte size in 15-0.
   */
  function FrameHeader(channels: nat, samplerate: nat, frameLen: nat, frameSize: nat): U64
    requires channels < 0x100 && samplerate < 0x100_0000
    requires frameLen < TWO_16 && frameSize < TWO_16
  {
    channels * TWO_56 + samplerate * TWO_32 + frameLen * TWO_16 + frameSize
  }

  /** The fields the decoder extracts from a frame header (src/QOA.cs:414-417). */
  datatype FrameFields = FrameFields(channels: nat, samplerate: nat, samples: nat, frameSize: nat)

  function UnpackFrameHeader(h: U64): (f: FrameFields)
    ensures f.channels < 0x100 && f.samplerate < 0x100_0000
    ensures f.samples < TWO_16 && f.frameSize < TWO_16
  {
    FrameFields(h / TWO_56 % 0x100, h / TWO_32 % 0x100_0000, h / TWO_16 % TWO_16, h % TWO_16)
  }

  /** A frame header whose fields fit their widths unpacks to the same fields. */
  lemma FrameHeaderRoundTrip(channels: nat, samplerate: nat, frameLen: nat, frameSize: nat)
    requires channels < 0x100 && samplerate < 0x100_0000
    requires frameLen < TWO_16 && frameSize < TWO_16
    ensures UnpackFrameHeader(FrameHeader(channels, samplerate, frameLen, frameSize)) ==
      FrameFields(channels, samplerate, frameLen, frameSize)
  {
    var h := FrameHeader(channels, samplerate, frameLen, frameSize);
    var low := frameLen * TWO_16 + frameSize;
    assert low < TWO_32;
    var mid := channels * 0x100_0000 + samplerate;
    assert h == mid * TWO_32 + low;
    assert h / TWO_32 == mid;
    assert h / TWO_56 == channels by {
      assert h == channels * TWO_56 + (samplerate * TWO_32 + low);
    }
    assert h / TWO_16 == mid * TWO_16 + frameLen;
  }

  // ----- Per-channel LMS snapshot -----

  /** `(ushort)(x & 0xffff)`: the low 16 bits of a two's complement `int`. */
  function Low16(x: int): (r: nat)
    ensures r < TWO_16
    ensures (r - x) % TWO_16 == 0
  {
    x % TWO_16
  }

  /** The word after packing the first `n` values, 16 bits each, first value highest (src/QOA.cs:205-214). */
  function Pack16(vals: seq<int>, n: nat): (w: U64)
    requires n <= |vals| && n <= 4
    ensures n <= 1 ==> w < TWO_16
    ensures n <= 2 ==> w < TWO_32
    ensures n <= 3 ==> w < TWO_48
  {
    if n == 0 then 0
    else
      var prefix := Pack16(vals, n - 1);
      (prefix * TWO_16) % TWO_64 + Low16(vals[n - 1])
  }

  /** The values the decoder reads back from a packed word: `(short)(w >> 48)`, then `w <<= 16` (src/QOA.cs:441-447). */
  function Unpack16(w: U64, n: nat): (vals: seq<int>)
    ensures |vals| == n
    ensures forall i :: 0 <= i < n ==> IsI16(vals[i])
    decreases n
  {
    if n == 0 then []
    else [Wrap16(w / 0x1_0000_0000_0000)] + Unpack16(Shl16(w), n - 1)
  }

  /** `w <<= 16` on a `ulong`: the bits shifted past bit 63 are lost. */
  function Shl16(w: U64): U64 {
    (w * 0x1_0000) % 0x1_0000_0000_0000_0000
  }

  /** The four 16-bit fields of a packed snapshot word come back as the `short` of each value. */
  lemma SnapshotRoundTrip(vals: seq<int>)
    requires |vals| == 4
    ensures Unpack16(Pack16(vals, LMS_LEN), LMS_LEN) == seq(4, i requires 0 <= i < 4 => Wrap16(vals[i]))
  {
    var l0, l1, l2, l3 := Low16(vals[0]), Low16(vals[1]), Low16(vals[2]), Low16(vals[3]);
    var w := Pack16(vals, LMS_LEN);
    PackFour(vals, w);
    UnpackFour(l0, l1, l2, l3, w);
    Wrap16Low16(vals[0]);
    Wrap16Low16(vals[1]);
    Wrap16Low16(vals[2]);
    Wrap16Low16(vals[3]);
  }

  lemma PackFour(vals: seq<int>, w: int)
    requires |vals| == 4 && w == Pack16(vals, LMS_LEN)
    ensures w == Low16(vals[0]) * 0x1_0000_0000_0000 + Low16(vals[1]) * 0x1_0000_0000
      + Low16(vals[2]) * 0x1_0000 + Low16(vals[3])
  {
    PackNext(vals, 1);
    PackNext(vals, 2);
    PackNext(vals, 3);
    PackNext(vals, 4);
  }

  /** Packing one more value shifts the word up by 16 bits; nothing reaches bit 64. */
  lemma PackNext(vals: seq<int>, n: nat)
    requires 1 <= n <= |vals| && n <= 4
    ensures Pack16(vals, n) == Pack16(vals, n - 1) * TWO_16 + Low16(vals[n - 1])
  {
    var p := Pack16(vals, n - 1);
    assert 0 <= p * TWO_16 < TWO_64;
  }

  lemma UnpackFour(l0: int, l1: int, l2: int, l3: int, w0: U64)
    requires 0 <= l0 < TWO_16 && 0 <= l1 < TWO_16 && 0 <= l2 < TWO_16 && 0 <= l3 < TWO_16
    requires w0 == l0 * 0x1_0000_0000_0000 + l1 * 0x1_0000_0000 + l2 * 0x1_0000 + l3
    ensures Unpack16(w0, LMS_LEN) == [Wrap16(l0), Wrap16(l1), Wrap16(l2), Wrap16(l3)]
  {
    var w1 := l1 * 0x1_0000_0000_0000 + l2 * 0x1_0000_0000 + l3 * 0x1_0000;
    var w2 := l2 * 0x1_0000_0000_0000 + l3 * 0x1_0000_0000;
    var w3 := l3 * 0x1_0000_0000_0000;
    UnpackStep(w3, l3, 0, 0, 0);
    UnpackStep(w2, l2, l3 * 0x1_0000_0000, w3, 1);
    UnpackStep(w1, l1, l2 * 0x1_0000_0000 + l3 * 0x1_0000, w2, 2);
    UnpackStep(w0, l0, l1 * 0x1_0000_0000 + l2 * 0x1_0000 + l3, w1, 3);
  }

  /** Every value in the signed 16-bit range survives the snapshot unchanged. */
  lemma SnapshotRoundTrip16(vals: seq<int>)
    requires |vals| == 4
    requires forall i :: 0 <= i < 4 ==> IsI16(vals[i])
    ensures Unpack16(Pack16(vals, LMS_LEN), LMS_LEN) == vals
  {
    SnapshotRoundTrip(vals);
  }

  /** Reading the top field of a word whose fields below it are `rest`. */
  lemma UnpackStep(w: int, top: int, rest: int, next: int, n: nat)
    requires 0 <= top < 0x1_0000 && 0 <= rest < 0x1_0000_0000_0000
    requires w == top * 0x1_0000_0000_0000 + rest && next == rest * 0x1_0000
    ensures 0 <= w < TWO_64 && 0 <= next < TWO_64
    ensures Unpack16(w, n + 1) == [Wrap16(top)] + Unpack16(next, n)
  {
    var s := rest * 0x1_0000;
    assert w * 0x1_0000 == top * 0x1_0000_0000_0000_0000 + s;
    ModAbove(top, s, 0x1_0000_0000_0000_0000);
    ModAbove(top, rest, 0x1_0000_0000_0000);
    assert (w * 0x1_0000) % 0x1_0000_0000_0000_0000 == s;
    assert w / 0x1_0000_0000_0000 == top;
  }

  /** `(q * m + r) / m == q` and `(q * m + r) % m == r` for `0 <= r < m`. */
  lemma ModAbove(q: int, r: int, m: int)
    requires 0 <= r < m
    ensures (q * m + r) / m == q && (q * m + r) % m == r
  {
    var d, k := (q * m + r) / m, (q * m + r) % m;
    assert (q - d) * m == k - r;
    if q - d >= 1 {
      MulMono(1, q - d, m);
      assert false;
    } else if q - d <= -1 {
      MulMono(q - d, -1, m);
      assert false;
    }
  }

  lemma Wrap16Low16(x: int)
    ensures Wrap16(Low16(x)) == Wrap16(x)
  {
  }

  // ----- Slice word -----

  /** `v << (3 * k)` without the 64-bit truncation: `v` times 8^k. */
  function Scale(v: int, k: nat): int {
    if k == 0 then v else 8 * Scale(v, k - 1)
  }

  lemma {:induction false} ScaleAdd(a: int, b: int, k: nat)
    ensures Scale(a + b, k) == Scale(a, k) + Scale(b, k)
  {
    if k > 0 { ScaleAdd(a, b, k - 1); }
  }

  lemma {:induction false} ScaleCompose(v: int, j: nat, k: nat, n: nat)
    requires j + k == n
    ensures Scale(Scale(v, j), k) == Scale(v, n)
  {
    if k > 0 { ScaleCompose(v, j, k - 1, n - 1); }
  }

  lemma {:induction false} ScaleMono(a: int, b: int, k: nat)
    requires a <= b
    ensures Scale(a, k) <= Scale(b, k)
  {
    if k > 0 { ScaleMono(a, b, k - 1); }
  }

  lemma {:induction false} ScaleNonNeg(a: int, k: nat)
    requires a >= 0
    ensures Scale(a, k) >= 0
  {
    if k > 0 { ScaleNonNeg(a, k - 1); }
  }

  lemma {:induction false} ScaleStrict(a: int, b: int, k: nat)
    requires a < b
    ensures Scale(a, k) < Scale(b, k)
  {
    if k > 0 { ScaleStrict(a, b, k - 1); }
  }

  /** Scale(v, 19) == v * 2^57 and Scale(v, 20) == v * 2^60. */
  lemma ScaleTop(v: int)
    ensures Scale(v, 19) == v * 0x200_0000_0000_0000
    ensures Scale(v, 20) == v * 0x1000_0000_0000_0000
  {
    assert Scale(v, 1) == 8 * v;
    assert Scale(v, 2) == 64 * v;
    assert Scale(v, 3) == 512 * v;
    assert Scale(v, 4) == 4096 * v;
    assert Scale(v, 5) == 32768 * v;
    assert Scale(v, 6) == 0x4_0000 * v;
    assert Scale(v, 7) == 0x20_0000 * v;
    assert Scale(v, 8) == 0x100_0000 * v;
    assert Scale(v, 9) == 0x800_0000 * v;
    assert Scale(v, 10) == 0x4000_0000 * v;
    assert Scale(v, 11) == 0x2_0000_0000 * v;
    assert Scale(v, 12) == 0x10_0000_0000 * v;
    assert Scale(v, 13) == 0x80_0000_0000 * v;
    assert Scale(v, 14) == 0x400_0000_0000 * v;
    assert Scale(v, 15) == 0x2000_0000_0000 * v;
    assert Scale(v, 16) == 0x1_0000_0000_0000 * v;
    assert Scale(v, 17) == 0x8_0000_0000_0000 * v;
    assert Scale(v, 18) == 0x40_0000_0000_0000 * v;
  }

  predicate IsCodes(codes: seq<int>) {
    forall i :: 0 <= i < |codes| ==> 0 <= codes[i] < 8
  }

  /** The codes read as a base-8 number, first code most significant. */
  function CodesValue(codes: seq<int>): (v: nat)
    requires IsCodes(codes)
    ensures v < Scale(1, |codes|)
  {
    if codes == [] then 0
    else
      var m := |codes| - 1;
      var rest := CodesValue(codes[1..]);
      ScaleNonNeg(codes[0], m);
      ScaleMono(codes[0], 7, m);
      ScaleAdd(7, 1, m);
      ScaleCompose(1, 1, m, m + 1);
      Scale(codes[0], m) + rest
  }

  lemma {:induction false} CodesValueSnoc(codes: seq<int>, c: int)
    requires IsCodes(codes) && 0 <= c < 8
    ensures IsCodes(codes + [c])
    ensures CodesValue(codes + [c]) == 8 * CodesValue(codes) + c
  {
    var cs := codes + [c];
    if codes != [] {
      assert cs[1..] == codes[1..] + [c];
      CodesValueSnoc(codes[1..], c);
    }
  }

  /**
   * The running slice accumulator of the encoder: it starts as the
   * scalefactor (src/QOA.cs:249) and every code is appended with
   * `slice = (slice << 3) | quantized` (src/QOA.cs:288).
   */
  function SliceAcc(scalefactor: int, codes: seq<int>): (acc: U64)
    requires 0 <= scalefactor < 16 && IsCodes(codes) && |codes| <= 20
    ensures acc == Scale(scalefactor, |codes|) + CodesValue(codes)
    ensures acc < Scale(16, |codes|)
    decreases |codes|
  {
    if codes == [] then scalefactor
    else
      var p := SliceAcc(scalefactor, codes[..|codes| - 1]);
      SliceAccNext(scalefactor, codes, p);
      (p * 8) % 0x1_0000_0000_0000_0000 + codes[|codes| - 1]
  }

  /** One append step of `SliceAcc` keeps its two postconditions. */
  lemma SliceAccNext(scalefactor: int, codes: seq<int>, p: int)
    requires 0 <= scalefactor < 16 && IsCodes(codes) && 0 < |codes| <= 20
    requires IsCodes(codes[..|codes| - 1])
    requires p == Scale(scalefactor, |codes| - 1) + CodesValue(codes[..|codes| - 1])
    requires 0 <= p < Scale(16, |codes| - 1)
    ensures var acc := (p * 8) % 0x1_0000_0000_0000_0000 + codes[|codes| - 1];
      acc == Scale(scalefactor, |codes|) + CodesValue(codes) && 0 <= acc < Scale(16, |codes|) &&
      acc < 0x1_0000_0000_0000_0000
  {
    CodesValueLast(codes);
    AccStep(p, |codes| - 1, |codes|, codes[|codes| - 1]);
    ScaleNext(scalefactor, |codes| - 1, |codes|);
  }

  lemma CodesValueLast(codes: seq<int>)
    requires IsCodes(codes) && |codes| > 0
    ensures IsCodes(codes[..|codes| - 1])
    ensures CodesValue(codes) == 8 * CodesValue(codes[..|codes| - 1]) + codes[|codes| - 1]
  {
    var prefix := codes[..|codes| - 1];
    assert codes == prefix + [codes[|codes| - 1]];
    CodesValueSnoc(prefix, codes[|codes| - 1]);
  }

  lemma ScaleNext(v: int, k: nat, n: nat)
    requires n == k + 1
    ensures Scale(v, n) == 8 * Scale(v, k)
  {
  }

  /** Appending a code to an accumulator of `k < 20` codes neither overflows nor leaves the bound. */
  lemma AccStep(p: int, k: nat, n: nat, last: int)
    requires n == k + 1 && n <= 20 && 0 <= p < Scale(16, k) && 0 <= last < 8
    ensures (p * 8) % 0x1_0000_0000_0000_0000 == p * 8
    ensures 0 <= p * 8 + last < Scale(16, n) <= 0x1_0000_0000_0000_0000
  {
    ScaleNext(16, k, n);
    ScaleGrows(16, n, 20);
    ScaleTop(16);
    assert Scale(16, n) <= 0x1_0000_0000_0000_0000;
  }

  lemma {:induction false} ScaleAtLeast(v: int, k: nat)
    requires v >= 0
    ensures Scale(v, k) >= v
  {
    if k > 0 { ScaleAtLeast(v, k - 1); }
  }

  lemma ScaleGrows(v: int, j: nat, k: nat)
    requires v >= 0 && j <= k
    ensures Scale(v, j) <= Scale(v, k)
  {
    ScaleCompose(v, j, k - j, k);
    ScaleNonNeg(v, j);
    ScaleAtLeast(Scale(v, j), k - j);
  }

  /**
   * The slice word the encoder writes (src/QOA.cs:249, 288, 308): the
   * accumulator shifted left by 3 bits per missing code so that a short
   * slice keeps its codes in the top bits.
   */
  function SliceWord(scalefactor: int, codes: seq<int>): U64
    requires 0 <= scalefactor < 16 && IsCodes(codes) && |codes| <= 20
  {
    Scale(SliceAcc(scalefactor, codes), 20 - |codes|) % 0x1_0000_0000_0000_0000
  }

  /** `(slice >> 60) & 0xf` (src/QOA.cs:456). */
  function SliceScalefactor(w: U64): (sf: nat)
    ensures sf < 16
  {
    w / 0x1000_0000_0000_0000 % 16
  }

  /**
   * The codes the decoder reads (src/QOA.cs:457-470): after `slice <<= 4`,
   * each code is `(slice >> 61) & 0x7` followed by `slice <<= 3`.
   */
  function SliceCodes(w: U64, n: nat): (codes: seq<int>)
    ensures |codes| == n && IsCodes(codes)
  {
    TopCodes(Shl4(w), n)
  }

  function TopCodes(s: U64, n: nat): (codes: seq<int>)
    ensures |codes| == n && IsCodes(codes)
    decreases n
  {
    if n == 0 then [] else [s / 0x2000_0000_0000_0000 % 8] + TopCodes(Shl3(s), n - 1)
  }

  /** `slice <<= 4` on a `ulong`. */
  function Shl4(w: U64): U64 {
    (w * 16) % 0x1_0000_0000_0000_0000
  }

  /** `slice <<= 3` on a `ulong`. */
  function Shl3(w: U64): U64 {
    (w * 8) % 0x1_0000_0000_0000_0000
  }

  /**
   * Layout of a slice word: the scalefactor in bits 60-63, then the codes
   * from the top, 3 bits each, and zero bits below the last code. Nothing is
   * lost to the 64-bit truncation.
   */
  lemma SliceWordLayout(scalefactor: int, codes: seq<int>)
    requires 0 <= scalefactor < 16 && IsCodes(codes) && |codes| <= 20
    ensures var x := Scale(CodesValue(codes), 20 - |codes|);
      0 <= x < 0x1000_0000_0000_0000 &&
      SliceWord(scalefactor, codes) == scalefactor * 0x1000_0000_0000_0000 + x
  {
    var m := |codes|;
    var v := CodesValue(codes);
    ShiftedAcc(scalefactor, m, v, SliceAcc(scalefactor, codes));
  }

  lemma ShiftedAcc(sf: int, m: nat, v: int, acc: int)
    requires 0 <= sf < 16 && m <= 20 && 0 <= v < Scale(1, m) && acc == Scale(sf, m) + v
    ensures var x := Scale(v, 20 - m);
      0 <= x < 0x1000_0000_0000_0000 &&
      Scale(acc, 20 - m) == sf * 0x1000_0000_0000_0000 + x &&
      Scale(acc, 20 - m) % 0x1_0000_0000_0000_0000 == sf * 0x1000_0000_0000_0000 + x
  {
    ScaleAdd(Scale(sf, m), v, 20 - m);
    ScaleCompose(sf, m, 20 - m, 20);
    ScaleTop(sf);
    ScaleNonNeg(v, 20 - m);
    ScaleStrict(v, Scale(1, m), 20 - m);
    ScaleCompose(1, m, 20 - m, 20);
    ScaleTop(1);
  }

  /** The first of `n > 0` top codes is the top three bits; the rest are the top codes of the shifted word. */
  lemma TopCodesSplit(s: U64, n: nat)
    requires n > 0
    ensures TopCodes(s, n)[0] == s / 0x2000_0000_0000_0000 % 8
    ensures TopCodes(s, n)[1..] == TopCodes(Shl3(s), n - 1)
  {
    var codes := TopCodes(s, n);
    assert codes == [s / 0x2000_0000_0000_0000 % 8] + TopCodes(Shl3(s), n - 1);
  }

  /** The decoder's code reader recovers every code placed from the top. */
  lemma {:induction false} TopCodesPlaced(codes: seq<int>)
    requires IsCodes(codes) && |codes| <= 20
    ensures var x := Scale(CodesValue(codes), 20 - |codes|);
      0 <= 16 * x < 0x1_0000_0000_0000_0000 && TopCodes(16 * x, |codes|) == codes
  {
    if codes == [] {
      CodesBelowTop(0, 0);
    } else {
      var rest := codes[1..];
      TopCodesPlaced(rest);
      assert CodesValue(codes) == Scale(codes[0], |rest|) + CodesValue(rest);
      TopCodesCons(codes[0], rest, CodesValue(codes), CodesValue(rest));
      assert codes == [codes[0]] + rest;
    }
  }

  /** One more code in front of codes that are already read back from the top. */
  lemma TopCodesCons(c: int, rest: seq<int>, v: int, r: int)
    requires 0 <= c < 8 && IsCodes(rest) && |rest| < 20 && 0 <= r < Scale(1, |rest|) && v == Scale(c, |rest|) + r
    requires 0 <= 16 * Scale(r, 20 - |rest|) < 0x1_0000_0000_0000_0000
    requires TopCodes(16 * Scale(r, 20 - |rest|), |rest|) == rest
    ensures 0 <= 16 * Scale(v, 19 - |rest|) < 0x1_0000_0000_0000_0000
    ensures TopCodes(16 * Scale(v, 19 - |rest|), |rest| + 1) == [c] + rest
  {
    TopCodeStep(c, |rest| + 1, r, v);
  }

  lemma CodesBelowTop(m: nat, v: int)
    requires m <= 20 && 0 <= v < Scale(1, m)
    ensures 0 <= Scale(v, 20 - m) < 0x1000_0000_0000_0000
  {
    ScaleNonNeg(v, 20 - m);
    ScaleStrict(v, Scale(1, m), 20 - m);
    ScaleCompose(1, m, 20 - m, 20);
    ScaleTop(1);
  }

  /** Reading one code off the top leaves the remaining codes in place. */
  lemma TopCodeStep(c: int, m: nat, r: int, v: int)
    requires 0 <= c < 8 && 1 <= m <= 20 && 0 <= r < Scale(1, m - 1) && v == Scale(c, m - 1) + r
    ensures var x := Scale(v, 20 - m);
      var y := Scale(r, 20 - (m - 1));
      0 <= 16 * x < 0x1_0000_0000_0000_0000 && 0 <= 16 * y < 0x1_0000_0000_0000_0000 &&
      TopCodes(16 * x, m) == [c] + TopCodes(16 * y, m - 1)
  {
    ScaleAdd(Scale(c, m - 1), r, 20 - m);
    ScaleCompose(c, m - 1, 20 - m, 19);
    ScaleTop(c);
    CodesBelowTop(m - 1, r);
    var z := Scale(r, 20 - m);
    ScaleNonNeg(r, 20 - m);
    ScaleNext(r, 20 - m, 20 - (m - 1));
    var x := Scale(v, 20 - m);
    TopSplit(x, c, z);
    assert 16 * x * 8 == (16 * x) * 8;
  }

  lemma TopSplit(x: int, c: int, z: int)
    requires 0 <= c < 8 && 0 <= 16 * z < 0x2000_0000_0000_0000
    requires x == c * 0x200_0000_0000_0000 + z
    ensures (16 * x) / 0x2000_0000_0000_0000 % 8 == c
    ensures (16 * x * 8) % 0x1_0000_0000_0000_0000 == 128 * z
  {
    assert 16 * x == c * 0x2000_0000_0000_0000 + 16 * z;
    assert 16 * x * 8 == c * 0x1_0000_0000_0000_0000 + 128 * z;
  }

  /** Decoding a slice word gives back the scalefactor and the codes. */
  lemma SliceRoundTrip(scalefactor: int, codes: seq<int>)
    requires 0 <= scalefactor < 16 && IsCodes(codes) && |codes| <= 20
    ensures SliceScalefactor(SliceWord(scalefactor, codes)) == scalefactor
    ensures SliceCodes(SliceWord(scalefactor, codes), |codes|) == codes
  {
    SliceWordLayout(scalefactor, codes);
    TopCodesPlaced(codes);
    var x := Scale(CodesValue(codes), 20 - |codes|);
    var w := SliceWord(scalefactor, codes);
    SplitTop(w, scalefactor, x);
    assert SliceCodes(w, |codes|) == TopCodes(16 * x, |codes|);
  }

  lemma SplitTop(w: int, sf: int, x: int)
    requires 0 <= sf < 16 && 0 <= x < 0x1000_0000_0000_0000
    requires w == sf * 0x1000_0000_0000_0000 + x
    ensures w / 0x1000_0000_0000_0000 % 16 == sf
    ensures (w * 16) % 0x1_0000_0000_0000_0000 == 16 * x
  {
    assert w * 16 == sf * 0x1_0000_0000_0000_0000 + 16 * x;
  }
}
