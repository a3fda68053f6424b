/**
 * What `qoa_decode_header`, `qoa_decode_frame` and `qoa_decode` compute
 * (src/QOA.cs:364-503), stated on values.
 *
 * The input stream is a byte sequence and a read position. `qoa_read_u64`
 * reads into a zeroed 8-byte buffer and ignores the count `Stream.Read`
 * returns, so past the end of the data the missing bytes read as zero and
 * the position stops at the end. Every exception the decoder can raise is an
 * `Error` value.
 */
module QoaDecodeSpec {
  import opened QoaInt
  import opened QoaTables
  import opened QoaLms
  import opened QoaWords
  import opened QoaEncodeSpec
  import opened QoaStream

  /** The exceptions of the decoder. */
  datatype Error =
    | BadMagic            // src/QOA.cs:375-378
    | NoSamples           // src/QOA.cs:383-386
    | BadStreamInfo       // src/QOA.cs:395-398: zero channels or samplerate in the first frame header
    | SeekBeforeBegin     // `Seek(-8)` to a negative position (src/QOA.cs:391)
    | ChannelMismatch     // src/QOA.cs:423-426
    | SamplerateMismatch  // src/QOA.cs:427-430
    | TooManySamples      // src/QOA.cs:431-434
    | IndexOutOfRange     // `qoa.lms[c]` with c >= 8, or a write past the end of the output span
    | NegativeLength      // `new short[total_samples]` with a negative length (src/QOA.cs:485)
    | SpanOutOfRange      // `new Span<short>(...)` longer than the sample buffer (src/QOA.cs:494)

  datatype Result<T> = Ok(value: T) | Fail(error: Error)

  // ----- Stream header -----

  /** `QOA_Desc` without its predictors: what the stream header describes. */
  datatype Desc = Desc(channels: nat, samplerate: nat, samples: nat)

  /** The outcome of `qoa_decode_header`: the description and the position it leaves the stream at. */
  datatype Header = Header(desc: Desc, pos: nat)

  /**
   * `qoa_decode_header` (src/QOA.cs:364-401): read the file header and check
   * the magic and the sample count, peek the first frame header for the
   * channel count and samplerate, and seek back 8 bytes.
   */
  function DecodeHeader(data: seq<Byte>, pos: nat): (r: Result<Header>)
    requires pos <= |data|
    ensures r.Ok? ==> r.value.pos <= |data|
    ensures r.Ok? ==> 1 <= r.value.desc.channels < 0x100 && 1 <= r.value.desc.samplerate < 0x100_0000
    ensures r.Ok? ==> 1 <= r.value.desc.samples < TWO_32
  {
    var fileHeader := ReadWord(data, pos);
    var p1 := AfterRead(data, pos);
    if fileHeader / TWO_32 != MAGIC then Fail(BadMagic)
    else
      var samples := fileHeader % TWO_32;
      if samples == 0 then Fail(NoSamples)
      else
        var frameHeader := ReadWord(data, p1);
        var p2 := AfterRead(data, p1);
        if p2 < 8 then Fail(SeekBeforeBegin)
        else
          var channels := frameHeader / TWO_56 % 0x100;
          var samplerate := frameHeader / TWO_32 % 0x100_0000;
          if channels == 0 || samples == 0 || samplerate == 0 then Fail(BadStreamInfo)
          else Ok(Header(Desc(channels, samplerate, samples), p2 - 8))
  }

  /**
   * The header is accepted exactly when the magic matches, the sample count
   * is not zero and the first frame header names a channel count and a
   * samplerate other than zero. With the 16 bytes available, the stream is
   * left just after the file header, at the first frame header.
   */
  lemma DecodeHeaderChecks(data: seq<Byte>, pos: nat)
    requires pos + 16 <= |data|
    ensures var fileHeader := ReadWord(data, pos);
      var frameHeader := ReadWord(data, pos + 8);
      var r := DecodeHeader(data, pos);
      (r.Ok? <==>
        fileHeader / TWO_32 == MAGIC && fileHeader % TWO_32 != 0 &&
        frameHeader / TWO_56 % 0x100 != 0 && frameHeader / TWO_32 % 0x100_0000 != 0) &&
      (r.Ok? ==>
        r.value.pos == pos + 8 &&
        r.value.desc == Desc(frameHeader / TWO_56 % 0x100, frameHeader / TWO_32 % 0x100_0000, fileHeader % TWO_32))
  {
  }

  /** The decoder reads back the stream header and first frame header the encoder writes. */
  lemma DecodeEncodedHeader(channels: nat, samplerate: nat, samples: nat, frameLen: nat, frameSize: nat, rest: seq<Byte>)
    requires 1 <= channels < 0x100 && 1 <= samplerate < 0x100_0000 && 1 <= samples < TWO_32
    requires frameLen < TWO_16 && frameSize < TWO_16
    ensures var data := BytesOf(FileHeader(samples)) + BytesOf(FrameHeader(channels, samplerate, frameLen, frameSize)) + rest;
      DecodeHeader(data, 0) == Ok(Header(Desc(channels, samplerate, samples), 8))
  {
    var h0 := FileHeader(samples);
    var h1 := FrameHeader(channels, samplerate, frameLen, frameSize);
    var data := BytesOf(h0) + BytesOf(h1) + rest;
    assert data[0..8] == BytesOf(h0);
    assert data[8..16] == BytesOf(h1);
    ReadWriteRoundTrip(h0);
    ReadWriteRoundTrip(h1);
    FrameHeaderRoundTrip(channels, samplerate, frameLen, frameSize);
    FrameHeaderFields(h1);
  }

  /** The channel and samplerate fields of a frame header, as `qoa_decode_header` extracts them. */
  lemma FrameHeaderFields(h: U64)
    ensures h / TWO_56 % 0x100 == UnpackFrameHeader(h).channels
    ensures h / TWO_32 % 0x100_0000 == UnpackFrameHeader(h).samplerate
  {
  }

  // ----- One frame -----

  /** The decoder's frame state: stream position, the predictors `qoa.lms`, and the output span. */
  datatype FrameState = FrameState(pos: nat, states: seq<LmsState>, out: seq<int>)

  /**
   * The capacity check values of `qoa_decode_frame` (src/QOA.cs:419-421):
   * `data_size`, `num_slices` and `max_total_samples`, in `uint` arithmetic.
   */
  function MaxTotalSamples(channels: nat, frameSize: nat): (m: nat)
    ensures m < TWO_32
  {
    var dataSize := (frameSize - 8 - LMS_LEN * 4 * channels) % TWO_32;
    var numSlices := dataSize / 8;
    (numSlices * SLICE_LEN) % TWO_32
  }

  /**
   * The LMS snapshots of channels `c` and up (src/QOA.cs:437-449): a history
   * word and a weights word per channel, each four sign-extended 16-bit
   * fields. Channel 8 and up does not exist in `qoa.lms`.
   */
  function ReadSnapshots(data: seq<Byte>, pos: nat, states: seq<LmsState>, c: nat, channels: nat): (r: Result<FrameState>)
    requires pos <= |data| && StatesOk(states) && c <= channels && c <= MAX_CHANNELS
    ensures r.Ok? ==> channels <= MAX_CHANNELS && r.value.pos <= |data| && StatesOk(r.value.states)
    decreases channels - c
  {
    if c == channels then Ok(FrameState(pos, states, []))
    else
      var history := ReadWord(data, pos);
      var p1 := AfterRead(data, pos);
      var weights := ReadWord(data, p1);
      var p2 := AfterRead(data, p1);
      if c >= MAX_CHANNELS then Fail(IndexOutOfRange)
      else ReadSnapshots(data, p2, states[c := LmsState(Unpack16(history, LMS_LEN), Unpack16(weights, LMS_LEN))], c + 1, channels)
  }

  /**
   * The samples of one slice (src/QOA.cs:464-476): each code is turned into
   * a sample with the channel's predictor, written at `si` of the output
   * span, and fed back into the predictor. The positions of one channel are
   * `channels` apart; a write past the end of the span fails.
   */
  function DecodeCodes(out: seq<int>, s: LmsState, scalefactor: int, codes: seq<int>, si: nat, channels: nat): (r: Result<(seq<int>, LmsState)>)
    requires s.Wf() && 0 <= scalefactor < 16 && IsCodes(codes)
    ensures r.Ok? ==> |r.value.0| == |out| && r.value.1.Wf()
    decreases |codes|
  {
    if codes == [] then Ok((out, s))
    else
      var predicted := Prediction(s);
      var dequantized := Dequantize(scalefactor, codes[0]);
      var reconstructed := ClampS16(predicted + dequantized);
      if si >= |out| then Fail(IndexOutOfRange)
      else DecodeCodes(out[si := reconstructed], Updated(s, reconstructed, dequantized), scalefactor,
        codes[1..], si + channels, channels)
  }

  /**
   * The sample loop of a slice has `left` codes of `s` still to decode at
   * `si`, from span `out` and predictor state `st`, and the whole loop
   * comes to `spec`.
   */
  ghost predicate CodesRemain(out: seq<int>, st: LmsState, scalefactor: int, s: U64, left: nat, si: nat, channels: nat,
                              spec: Result<(seq<int>, LmsState)>)
  {
    st.Wf() && 0 <= scalefactor < 16 && DecodeCodes(out, st, scalefactor, TopCodes(s, left), si, channels) == spec
  }

  /**
   * Reference: the samples the codes of a slice decode to from predictor
   * state `s`, and the predictor state afterwards.
   */
  function Reconstruct(s: LmsState, scalefactor: int, codes: seq<int>): (r: (seq<int>, LmsState))
    requires s.Wf() && 0 <= scalefactor < 16 && IsCodes(codes)
    ensures |r.0| == |codes| && r.1.Wf()
    ensures forall k :: 0 <= k < |r.0| ==> IsI16(r.0[k])
    decreases |codes|
  {
    if codes == [] then ([], s)
    else
      var dequantized := Dequantize(scalefactor, codes[0]);
      var reconstructed := ClampS16(Prediction(s) + dequantized);
      var rest := Reconstruct(Updated(s, reconstructed, dequantized), scalefactor, codes[1..]);
      ([reconstructed] + rest.0, rest.1)
  }

  /** Reference: `vals` written at `si`, `si + step`, … of `out`; a position past the end fails. */
  function Scatter(out: seq<int>, si: nat, step: nat, vals: seq<int>): (r: Result<seq<int>>)
    ensures r.Ok? ==> |r.value| == |out|
    decreases |vals|
  {
    if vals == [] then Ok(out)
    else if si >= |out| then Fail(IndexOutOfRange)
    else Scatter(out[si := vals[0]], si + step, step, vals[1..])
  }

  /** The entries of `out` at `si`, `si + step`, `si + 2 * step`, …: the first `n` of them that lie inside `out`. */
  function Strided(out: seq<int>, si: nat, step: nat, n: nat): (r: seq<int>)
    ensures |r| <= n
    decreases n
  {
    if n == 0 || si >= |out| then [] else [out[si]] + Strided(out, si + step, step, n - 1)
  }

  /**
   * `DecodeCodes` is the reconstructed samples scattered over the span, with
   * the reconstructed predictor state.
   */
  lemma {:induction false} DecodeCodesScatters(out: seq<int>, s: LmsState, scalefactor: int, codes: seq<int>, si: nat, channels: nat)
    requires s.Wf() && 0 <= scalefactor < 16 && IsCodes(codes)
    ensures var d := Reconstruct(s, scalefactor, codes);
      DecodeCodes(out, s, scalefactor, codes, si, channels) ==
        match Scatter(out, si, channels, d.0)
        case Ok(o) => Ok((o, d.1))
        case Fail(e) => Fail(e)
    decreases |codes|
  {
    if codes != [] {
      var dequantized := Dequantize(scalefactor, codes[0]);
      var reconstructed := ClampS16(Prediction(s) + dequantized);
      var s' := Updated(s, reconstructed, dequantized);
      var rest := Reconstruct(s', scalefactor, codes[1..]);
      ReconstructFront(s, scalefactor, codes[0], codes[1..], dequantized, reconstructed, rest.0, rest.1);
      assert [codes[0]] + codes[1..] == codes;
      var d := Reconstruct(s, scalefactor, codes);
      assert d == ([reconstructed] + rest.0, rest.1);
      if si < |out| {
        DecodeCodesScatters(out[si := reconstructed], s', scalefactor, codes[1..], si + channels, channels);
        DecodeCodesStep(out, s, scalefactor, codes, si, channels, dequantized, reconstructed);
        ScatterFront(out, si, channels, reconstructed, rest.0);
      } else {
        assert Scatter(out, si, channels, d.0) == Fail(IndexOutOfRange);
      }
    }
  }

  /** One code of `DecodeCodes` written out. */
  lemma DecodeCodesStep(out: seq<int>, s: LmsState, scalefactor: int, codes: seq<int>, si: nat, channels: nat,
                        dequantized: int, reconstructed: int)
    requires s.Wf() && 0 <= scalefactor < 16 && IsCodes(codes) && codes != [] && si < |out|
    requires dequantized == Dequantize(scalefactor, codes[0]) && reconstructed == ClampS16(Prediction(s) + dequantized)
    ensures DecodeCodes(out, s, scalefactor, codes, si, channels) ==
      DecodeCodes(out[si := reconstructed], Updated(s, reconstructed, dequantized), scalefactor, codes[1..],
        si + channels, channels)
  {
  }

  /** `DecodeCodesStep` with the first code and the rest named. */
  lemma DecodeCodesNext(out: seq<int>, s: LmsState, scalefactor: int, codes: seq<int>, code: int, rest: seq<int>,
                        si: nat, channels: nat, dequantized: int, reconstructed: int)
    requires s.Wf() && 0 <= scalefactor < 16 && IsCodes(codes) && codes != [] && si < |out|
    requires codes[0] == code && codes[1..] == rest
    requires dequantized == Dequantize(scalefactor, code) && reconstructed == ClampS16(Prediction(s) + dequantized)
    ensures DecodeCodes(out, s, scalefactor, codes, si, channels) ==
      DecodeCodes(out[si := reconstructed], Updated(s, reconstructed, dequantized), scalefactor, rest,
        si + channels, channels)
  {
    DecodeCodesStep(out, s, scalefactor, codes, si, channels, dequantized, reconstructed);
  }

  /** Reconstructing one more code in front. */
  lemma ReconstructFront(s: LmsState, scalefactor: int, q: int, codes: seq<int>, dequantized: int, reconstructed: int,
                         samples: seq<int>, state: LmsState)
    requires s.Wf() && 0 <= scalefactor < 16 && 0 <= q < 8 && IsCodes(codes)
    requires dequantized == Dequantize(scalefactor, q) && reconstructed == ClampS16(Prediction(s) + dequantized)
    requires Reconstruct(Updated(s, reconstructed, dequantized), scalefactor, codes) == (samples, state)
    ensures Reconstruct(s, scalefactor, [q] + codes) == ([reconstructed] + samples, state)
  {
    var all := [q] + codes;
    assert all[0] == q && all[1..] == codes;
  }

  /** Scattering one more value in front. */
  lemma ScatterFront(out: seq<int>, si: nat, step: nat, v: int, vals: seq<int>)
    requires si < |out|
    ensures Scatter(out, si, step, [v] + vals) == Scatter(out[si := v], si + step, step, vals)
  {
    var all := [v] + vals;
    assert all[0] == v && all[1..] == vals;
  }

  /** A scatter succeeds exactly when all its positions lie inside `out`. */
  lemma {:induction false} ScatterInRange(out: seq<int>, si: nat, step: nat, vals: seq<int>)
    ensures Scatter(out, si, step, vals).Ok? <==> |Strided(out, si, step, |vals|)| == |vals|
    decreases |vals|
  {
    if vals != [] && si < |out| {
      ScatterInRange(out[si := vals[0]], si + step, step, vals[1..]);
      StridedSameLength(out, out[si := vals[0]], si + step, step, |vals| - 1);
    }
  }

  /** Only the length of `out` decides how many positions lie inside it. */
  lemma {:induction false} StridedSameLength(a: seq<int>, b: seq<int>, si: nat, step: nat, n: nat)
    requires |a| == |b|
    ensures |Strided(a, si, step, n)| == |Strided(b, si, step, n)|
    decreases n
  {
    if n > 0 && si < |a| {
      StridedSameLength(a, b, si + step, step, n - 1);
    }
  }

  /** All `n` positions lie inside `out` exactly when the last one does. */
  lemma {:induction false} StridedLength(out: seq<int>, si: nat, step: nat, n: nat)
    requires step >= 1
    ensures |Strided(out, si, step, n)| == n <==> n == 0 || si + (n - 1) * step < |out|
    decreases n
  {
    if n > 0 && si < |out| {
      StridedLength(out, si + step, step, n - 1);
      StrideStep(si, step, n - 2);
      MulNatural(n - 1, step);
    } else if n > 0 {
      MulNatural(n - 1, step);
    }
  }

  /** Position `k + 1` of a stride starting at `si` is position `k` of the stride starting at `si + step`. */
  lemma StrideStep(si: int, step: int, k: int)
    ensures si + step + k * step == si + (k + 1) * step
  {
  }

  /** Position `k` of the stride `si`, `si + step`, `si + 2 * step`, … */
  function StridePos(si: int, step: int, k: int): int
  {
    si + k * step
  }

  /** Position `i` is none of the first `n` positions of the stride from `si`: another channel's sample. */
  ghost predicate OffStride(i: int, si: int, step: int, n: nat)
  {
    forall k: nat :: k < n ==> i != StridePos(si, step, k)
  }

  /**
   * A successful scatter puts `vals` at `si`, `si + step`, … and leaves
   * every other position alone: those before `si` and those between or
   * after the strided ones.
   */
  lemma {:induction false} ScatterWrites(out: seq<int>, si: nat, step: nat, vals: seq<int>)
    requires step >= 1
    ensures var r := Scatter(out, si, step, vals);
      r.Ok? ==>
        Strided(r.value, si, step, |vals|) == vals &&
        (forall i :: 0 <= i < si && i < |out| ==> r.value[i] == out[i]) &&
        (forall i :: 0 <= i < |out| && OffStride(i, si, step, |vals|) ==> r.value[i] == out[i])
    decreases |vals|
  {
    if vals != [] && si < |out| {
      var out' := out[si := vals[0]];
      ScatterWrites(out', si + step, step, vals[1..]);
      var r := Scatter(out', si + step, step, vals[1..]);
      if r.Ok? {
        assert r.value[si] == vals[0];
        assert Strided(r.value, si, step, |vals|) == [vals[0]] + Strided(r.value, si + step, step, |vals| - 1);
        assert vals == [vals[0]] + vals[1..];
        forall i | 0 <= i < |out| && OffStride(i, si, step, |vals|)
          ensures r.value[i] == out[i]
        {
          assert i != StridePos(si, step, 0);
          var next := si + step;
          forall k: nat | k < |vals| - 1
            ensures i != StridePos(next, step, k)
          {
            assert i != StridePos(si, step, k + 1);
            StrideStep(si, step, k);
          }
        }
      }
    }
  }

  /**
   * The codes of an unpruned encoder trial decode, from the state the trial
   * started in, to the samples the encoder reconstructed and to the state
   * the encoder's predictor ended in.
   */
  lemma {:induction false} ReconstructInvertsEncoder(s: LmsState, scalefactor: int, xs: seq<Int16>)
    requires s.Wf() && 0 <= scalefactor < 16
    ensures var f := FullRun(s, scalefactor, xs);
      Reconstruct(s, scalefactor, f.codes) == (f.output, f.state)
    decreases |xs|
  {
    if xs != [] {
      var st := SampleStep(s, xs[0], scalefactor);
      var f' := FullRun(After(s, st), scalefactor, xs[1..]);
      ReconstructInvertsEncoder(After(s, st), scalefactor, xs[1..]);
      assert After(s, st) == Updated(s, st.reconstructed, st.dequantized);
      SampleStepOutput(s, xs[0], scalefactor);
      FullRunFront(s, scalefactor, xs);
      ReconstructFront(s, scalefactor, st.quantized, f'.codes, st.dequantized, st.reconstructed, f'.output, f'.state);
    }
  }

  /**
   * Decoding the codes of an unpruned encoder trial from the state the trial
   * started in reproduces the trial: the decode succeeds exactly when the
   * last position `si + (|xs| - 1) * channels` lies in the span, and then
   * the samples at `si`, `si + channels`, … are the ones the encoder
   * reconstructed, the positions before `si` and those of the other
   * channels are untouched, and the predictor ends in the encoder's final
   * state.
   */
  lemma DecodeCodesReproduces(out: seq<int>, s: LmsState, scalefactor: int, xs: seq<Int16>, si: nat, channels: nat)
    requires s.Wf() && 0 <= scalefactor < 16 && channels >= 1
    ensures var f := FullRun(s, scalefactor, xs);
      var r := DecodeCodes(out, s, scalefactor, f.codes, si, channels);
      (r.Ok? <==> xs == [] || si + (|xs| - 1) * channels < |out|) &&
      (r.Ok? ==>
        r.value.1 == f.state && Strided(r.value.0, si, channels, |xs|) == f.output &&
        (forall i :: 0 <= i < si && i < |out| ==> r.value.0[i] == out[i]) &&
        (forall i :: 0 <= i < |out| && OffStride(i, si, channels, |xs|) ==> r.value.0[i] == out[i]))
  {
    var f := FullRun(s, scalefactor, xs);
    ReconstructInvertsEncoder(s, scalefactor, xs);
    DecodeCodesScatters(out, s, scalefactor, f.codes, si, channels);
    ScatterInRange(out, si, channels, f.output);
    ScatterWrites(out, si, channels, f.output);
    StridedLength(out, si, channels, |xs|);
  }

  /** The number of samples in the slice at `sampleIndex` (src/QOA.cs:462). */
  function SliceSampleCount(samples: nat, sampleIndex: nat): (n: nat)
    requires sampleIndex < samples
    ensures 1 <= n <= SLICE_LEN
  {
    Clamp(sampleIndex + SLICE_LEN, 0, samples) - sampleIndex
  }

  /**
   * One slice of channel `c` at position `sampleIndex` (src/QOA.cs:454-477):
   * the slice word holds the scalefactor in its top 4 bits and the codes
   * below, which are decoded into the output span.
   */
  function DecodeSlice(data: seq<Byte>, st: FrameState, samples: nat, channels: nat, sampleIndex: nat, c: nat): (r: Result<FrameState>)
    requires st.pos <= |data| && StatesOk(st.states) && c < channels <= MAX_CHANNELS && sampleIndex < samples
    ensures r.Ok? ==> r.value.pos <= |data| && StatesOk(r.value.states) && |r.value.out| == |st.out|
  {
    var slice := ReadWord(data, st.pos);
    var codes := SliceCodes(slice, SliceSampleCount(samples, sampleIndex));
    SliceOutcome(DecodeCodes(st.out, st.states[c], SliceScalefactor(slice), codes, SliceStart(sampleIndex, channels, c), channels),
      st.states, c, AfterRead(data, st.pos))
  }

  /** `slice_start` (src/QOA.cs:459): the first position of channel `c` in the slice at `sampleIndex`. */
  function SliceStart(sampleIndex: nat, channels: nat, c: nat): nat
  {
    MulNatural(sampleIndex, channels);
    sampleIndex * channels + c
  }

  /**
   * In the interleaved span, `slice_start` is sample `sampleIndex` of
   * channel `c`: dividing by `channels` gives the sample index back, and the
   * remainder is the channel.
   */
  lemma SliceStartSplits(sampleIndex: nat, channels: nat, c: nat)
    requires c < channels
    ensures SliceStart(sampleIndex, channels, c) / channels == sampleIndex
    ensures SliceStart(sampleIndex, channels, c) % channels == c
  {
    InterleavedSplit(sampleIndex, channels, c);
  }

  /** Position `a * channels + c` of an interleaved span is sample `a` of channel `c`. */
  lemma InterleavedSplit(a: nat, channels: nat, c: nat)
    ensures c < channels ==> (a * channels + c) / channels == a && (a * channels + c) % channels == c
  {
    if c < channels {
      var x := a * channels + c;
      var q, m := x / channels, x % channels;
      assert (q - a) * channels == c - m;
      if q > a {
        MulMono(1, q - a, channels);
      } else if q < a {
        MulMono(1, a - q, channels);
      }
    }
  }

  /** The frame state after a slice of channel `c` decoded to `res` and the stream moved on to `pos`. */
  function SliceOutcome(res: Result<(seq<int>, LmsState)>, states: seq<LmsState>, c: nat, pos: nat): (r: Result<FrameState>)
    requires c < |states|
    ensures r.Ok? <==> res.Ok?
    ensures r.Fail? ==> r.error == res.error
  {
    match res
    case Fail(e) => Fail(e)
    case Ok(v) => Ok(FrameState(pos, states[c := v.1], v.0))
  }

  /**
   * A decoded slice of channel `c` replaces that channel's predictor state
   * and the span, moves the stream on, and leaves the predictors of the
   * other channels as they were.
   */
  lemma SliceOutcomeUpdates(res: Result<(seq<int>, LmsState)>, states: seq<LmsState>, c: nat, pos: nat)
    requires c < |states|
    ensures var r := SliceOutcome(res, states, c, pos);
      r.Ok? ==>
        r.value.pos == pos && r.value.out == res.value.0 &&
        |r.value.states| == |states| && r.value.states[c] == res.value.1 &&
        forall d :: 0 <= d < |states| && d != c ==> r.value.states[d] == states[d]
  {
  }

  /**
   * `DecodeSlice` in the terms the decoder computes it: the slice word, its
   * scalefactor, the word shifted past the scalefactor, the sample count,
   * the first position and the stream position after the word.
   */
  lemma DecodeSliceFrom(data: seq<Byte>, st: FrameState, samples: nat, channels: nat, sampleIndex: nat, c: nat,
                        slice: U64, scalefactor: int, s: U64, n: nat, start: nat, pos: nat)
    requires st.pos <= |data| && StatesOk(st.states) && c < channels <= MAX_CHANNELS && sampleIndex < samples
    requires slice == ReadWord(data, st.pos) && pos == AfterRead(data, st.pos)
    requires scalefactor == SliceScalefactor(slice) && s == Shl4(slice)
    requires n == SliceSampleCount(samples, sampleIndex) && start == SliceStart(sampleIndex, channels, c)
    ensures DecodeSlice(data, st, samples, channels, sampleIndex, c) ==
      SliceOutcome(DecodeCodes(st.out, st.states[c], scalefactor, TopCodes(s, n), start, channels), st.states, c, pos)
  {
  }

  /**
   * `slice_end` (src/QOA.cs:460): the position of channel `c` in the slice
   * after this one, or past the last sample of the frame.
   */
  function SliceEnd(samples: nat, channels: nat, sampleIndex: nat, c: nat): nat
  {
    MulNatural(Clamp(sampleIndex + SLICE_LEN, 0, samples), channels);
    Clamp(sampleIndex + SLICE_LEN, 0, samples) * channels + c
  }

  /**
   * In the interleaved span, `slice_end` is channel `c`'s sample at the end
   * of the slice, which is 1 to 20 samples past `sampleIndex` and never past
   * `samples`.
   */
  lemma SliceEndSplits(samples: nat, channels: nat, sampleIndex: nat, c: nat)
    requires c < channels && sampleIndex < samples
    ensures var r := SliceEnd(samples, channels, sampleIndex, c);
      r % channels == c && sampleIndex < r / channels <= samples && r / channels <= sampleIndex + SLICE_LEN
  {
    InterleavedSplit(Clamp(sampleIndex + SLICE_LEN, 0, samples), channels, c);
  }

  lemma MulNatural(a: nat, b: nat)
    ensures a * b >= 0
  {
  }

  /** The slice loops of `qoa_decode_frame` from position `sampleIndex`, channel `c` on (src/QOA.cs:452-478). */
  function DecodeSlices(data: seq<Byte>, st: FrameState, samples: nat, channels: nat, sampleIndex: nat, c: nat): (r: Result<FrameState>)
    requires st.pos <= |data| && StatesOk(st.states) && channels <= MAX_CHANNELS && c <= channels
    ensures r.Ok? ==> r.value.pos <= |data| && StatesOk(r.value.states) && |r.value.out| == |st.out|
    decreases samples - sampleIndex, channels - c
  {
    if sampleIndex >= samples then Ok(st)
    else if c == channels then DecodeSlices(data, st, samples, channels, sampleIndex + SLICE_LEN, 0)
    else
      match DecodeSlice(data, st, samples, channels, sampleIndex, c)
      case Fail(e) => Fail(e)
      case Ok(st') => DecodeSlices(data, st', samples, channels, sampleIndex, c + 1)
  }

  /**
   * The slice loops of a frame continue at slice position `sampleIndex`,
   * channel `c`, from frame state `st`, and come to `spec`.
   */
  ghost predicate SlicesRemain(data: seq<Byte>, st: FrameState, samples: nat, channels: nat, sampleIndex: nat, c: nat,
                               spec: Result<FrameState>)
  {
    st.pos <= |data| && StatesOk(st.states) && channels <= MAX_CHANNELS && c <= channels &&
    DecodeSlices(data, st, samples, channels, sampleIndex, c) == spec
  }

  /** One slice more: a failing slice is the outcome of the loops; otherwise they go on with the next channel. */
  lemma SlicesNextChannel(data: seq<Byte>, st: FrameState, samples: nat, channels: nat, sampleIndex: nat, c: nat,
                          spec: Result<FrameState>, slice: Result<FrameState>)
    requires SlicesRemain(data, st, samples, channels, sampleIndex, c, spec)
    requires sampleIndex < samples && c < channels
    requires slice == DecodeSlice(data, st, samples, channels, sampleIndex, c)
    ensures slice.Fail? ==> spec == Fail(slice.error)
    ensures slice.Ok? ==> SlicesRemain(data, slice.value, samples, channels, sampleIndex, c + 1, spec)
  {
  }

  /** After the last channel of a row of slices, the loops go on at the next slice position. */
  lemma SlicesNextRow(data: seq<Byte>, st: FrameState, samples: nat, channels: nat, sampleIndex: nat,
                      spec: Result<FrameState>)
    requires SlicesRemain(data, st, samples, channels, sampleIndex, channels, spec) && sampleIndex < samples
    ensures SlicesRemain(data, st, samples, channels, sampleIndex + SLICE_LEN, 0, spec)
  {
  }

  /** Past the last slice position the loops have come to their outcome. */
  lemma SlicesDone(data: seq<Byte>, st: FrameState, samples: nat, channels: nat, sampleIndex: nat, c: nat,
                   spec: Result<FrameState>)
    requires SlicesRemain(data, st, samples, channels, sampleIndex, c, spec) && sampleIndex >= samples
    ensures spec == Ok(st)
  {
  }

  /** The outcome of `qoa_decode_frame`: the frame state and `frame_len`. */
  datatype Frame = Frame(st: FrameState, frameLen: nat)

  /**
   * `qoa_decode_frame` (src/QOA.cs:403-478): read and check the frame
   * header, read the predictor snapshots, then decode the slices into `out`.
   */
  function DecodeFrame(data: seq<Byte>, pos: nat, desc: Desc, states: seq<LmsState>, out: seq<int>): (r: Result<Frame>)
    requires pos <= |data| && StatesOk(states)
    ensures r.Ok? ==> r.value.st.pos <= |data| && StatesOk(r.value.st.states) && |r.value.st.out| == |out|
    ensures r.Ok? ==> r.value.frameLen < TWO_16
  {
    var f := UnpackFrameHeader(ReadWord(data, pos));
    var p := AfterRead(data, pos);
    if f.channels != desc.channels then Fail(ChannelMismatch)
    else if f.samplerate != desc.samplerate then Fail(SamplerateMismatch)
    else if f.samples * f.channels > MaxTotalSamples(f.channels, f.frameSize) then Fail(TooManySamples)
    else
      match ReadSnapshots(data, p, states, 0, f.channels)
      case Fail(e) => Fail(e)
      case Ok(snap) =>
        match DecodeSlices(data, FrameState(snap.pos, snap.states, out), f.samples, f.channels, 0, 0)
        case Fail(e) => Fail(e)
        case Ok(st) => Ok(Frame(st, f.samples))
  }

  /**
   * The checks of `qoa_decode_frame` in the order the source makes them: a
   * channel count or samplerate other than the stream's, then a sample count
   * above the capacity the frame size allows.
   */
  lemma DecodeFrameChecks(data: seq<Byte>, pos: nat, desc: Desc, states: seq<LmsState>, out: seq<int>)
    requires pos <= |data| && StatesOk(states)
    ensures var f := UnpackFrameHeader(ReadWord(data, pos));
      var r := DecodeFrame(data, pos, desc, states, out);
      (f.channels != desc.channels ==> r == Fail(ChannelMismatch)) &&
      (f.channels == desc.channels && f.samplerate != desc.samplerate ==> r == Fail(SamplerateMismatch)) &&
      ((f.channels == desc.channels && f.samplerate == desc.samplerate &&
        f.samples * f.channels > MaxTotalSamples(f.channels, f.frameSize)) ==> r == Fail(TooManySamples)) &&
      (r.Ok? ==>
        f.channels == desc.channels && f.samplerate == desc.samplerate &&
        f.samples * f.channels <= MaxTotalSamples(f.channels, f.frameSize) && f.channels <= MAX_CHANNELS &&
        r.value.frameLen == f.samples)
  {
  }

  /** Once the header checks pass and the snapshots are read, the frame is the outcome of its slice loops. */
  lemma DecodeFrameSlices(data: seq<Byte>, pos: nat, desc: Desc, states: seq<LmsState>, out: seq<int>,
                          f: FrameFields, snap: Result<FrameState>)
    requires pos <= |data| && StatesOk(states)
    requires f == UnpackFrameHeader(ReadWord(data, pos))
    requires f.channels == desc.channels && f.samplerate == desc.samplerate
    requires f.samples * f.channels <= MaxTotalSamples(f.channels, f.frameSize)
    requires snap == ReadSnapshots(data, AfterRead(data, pos), states, 0, f.channels)
    ensures var r := DecodeFrame(data, pos, desc, states, out);
      (snap.Fail? ==> r == Fail(snap.error)) &&
      (snap.Ok? ==>
        var slices := DecodeSlices(data, FrameState(snap.value.pos, snap.value.states, out), f.samples, f.channels, 0, 0);
        (slices.Fail? ==> r == Fail(slices.error)) &&
        (slices.Ok? ==> r == Ok(Frame(slices.value, f.samples))))
  {
  }

  // ----- The whole stream -----

  /** What `qoa_decode` returns: the sample buffer and the description with `samples` set to the decoded count. */
  datatype Decoded = Decoded(samples: seq<int>, desc: Desc)

  /** The state of a fresh `QOA_Desc`: eight zero predictors. */
  const ZERO_STATES: seq<LmsState> := seq(MAX_CHANNELS, _ => ZERO_STATE)

  /** `(int)(qoa.samples * qoa.channels)`: the `uint` product reinterpreted as `int`. */
  function BufferLen(desc: Desc): (r: int)
    ensures IsI32(r)
    ensures desc.samples * desc.channels < 0x8000_0000 ==> r == desc.samples * desc.channels
  {
    Wrap32((desc.samples * desc.channels) % TWO_32)
  }

  /** `(int)(QOA_SLICE_LEN * qoa.channels)`: the span length, which cannot wrap for a byte-sized channel count. */
  function SpanLen(channels: nat): (r: int)
    ensures channels < 0x100 ==> r == SLICE_LEN * channels
  {
    Wrap32((SLICE_LEN * channels) % TWO_32)
  }

  /**
   * What `qoa_decode` returns once its frame decoded to `frame`: the span
   * followed by zeros up to `total` samples, and the stream's channels and
   * samplerate with the frame's sample count.
   */
  function DecodeOutcome(frame: Result<Frame>, desc: Desc, total: nat): (r: Result<Decoded>)
    requires frame.Ok? ==> |frame.value.st.out| <= total
    ensures r.Ok? <==> frame.Ok?
    ensures r.Fail? ==> r.error == frame.error
    ensures r.Ok? ==> r.value.samples == frame.value.st.out + seq(total - |frame.value.st.out|, _ => 0)
    ensures r.Ok? ==> r.value.desc == Desc(desc.channels, desc.samplerate, frame.value.frameLen)
  {
    match frame
    case Fail(e) => Fail(e)
    case Ok(f) =>
      Ok(Decoded(f.st.out + seq(total - |f.st.out|, _ => 0), Desc(desc.channels, desc.samplerate, f.frameLen)))
  }

  /**
   * `qoa_decode` (src/QOA.cs:480-503). `frame_size` stays 0, so the
   * `do … while` loop decodes exactly one frame, into a span of
   * `20 * channels` samples at the start of the buffer. The buffer length is
   * `samples * channels` in `uint` arithmetic, reinterpreted as `int`.
   */
  function Decode(data: seq<Byte>, pos: nat): (r: Result<Decoded>)
    requires pos <= |data|
    ensures r.Ok? ==>
      DecodeHeader(data, pos).Ok? &&
      r.value.desc.channels == DecodeHeader(data, pos).value.desc.channels &&
      r.value.desc.samplerate == DecodeHeader(data, pos).value.desc.samplerate &&
      SLICE_LEN <= DecodeHeader(data, pos).value.desc.samples && r.value.desc.samples <= SLICE_LEN
  {
    match DecodeHeader(data, pos)
    case Fail(e) => Fail(e)
    case Ok(h) => DecodeStream(data, h)
  }

  /**
   * `qoa_decode` after the header: the buffer, the span and the one frame.
   * For a header the decoder accepts, it succeeds only when the header
   * declares at least 20 samples (the span fits in the buffer) and the frame
   * holds at most 20 samples per channel (its slices fit in the span).
   */
  function DecodeStream(data: seq<Byte>, h: Header): (r: Result<Decoded>)
    requires h.pos <= |data|
    ensures r.Ok? ==> |r.value.samples| == BufferLen(h.desc)
    ensures r.Ok? ==> r.value.desc.channels == h.desc.channels && r.value.desc.samplerate == h.desc.samplerate
    ensures r.Ok? && 1 <= h.desc.channels < 0x100 ==> SLICE_LEN <= h.desc.samples && r.value.desc.samples <= SLICE_LEN
  {
    var total := BufferLen(h.desc);
    var spanLen := SpanLen(h.desc.channels);
    SpanNeedsOneSlice(h.desc);
    if total < 0 then Fail(NegativeLength)
    else if spanLen < 0 || spanLen > total then Fail(SpanOutOfRange)
    else
      DecodeFrameFitsSpan(data, h.pos, h.desc, ZERO_STATES, seq(spanLen, _ => 0));
      DecodeOutcome(DecodeFrame(data, h.pos, h.desc, ZERO_STATES, seq(spanLen, _ => 0)), h.desc, total)
  }

  /**
   * The shape of what `qoa_decode` returns: a buffer of `(int)(samples *
   * channels)` samples whose first `20 * channels` come from the frame and
   * whose rest stay zero, and a description with the header's channels and
   * samplerate and the frame's sample count.
   */
  lemma DecodeShape(data: seq<Byte>, pos: nat)
    requires pos <= |data|
    ensures var r := Decode(data, pos);
      r.Ok? ==>
        var h := DecodeHeader(data, pos).value;
        var spanLen := SpanLen(h.desc.channels);
        var frame := DecodeFrame(data, h.pos, h.desc, ZERO_STATES, seq(spanLen, _ => 0));
        DecodeHeader(data, pos).Ok? && frame.Ok? &&
        |r.value.samples| == BufferLen(h.desc) &&
        0 <= spanLen <= |r.value.samples| &&
        r.value.samples[..spanLen] == frame.value.st.out &&
        (forall i :: spanLen <= i < |r.value.samples| ==> r.value.samples[i] == 0) &&
        r.value.desc == Desc(h.desc.channels, h.desc.samplerate, frame.value.frameLen) &&
        r.value.desc.samples < TWO_16
  {
  }

  /**
   * The failures of `qoa_decode` after a good header, in the order the
   * source meets them: a buffer length that is negative as an `int`, then a
   * span that does not fit in the buffer, then the frame's own failure.
   */
  lemma DecodeFailures(data: seq<Byte>, pos: nat)
    requires pos <= |data| && DecodeHeader(data, pos).Ok?
    ensures var h := DecodeHeader(data, pos).value;
      var total := BufferLen(h.desc);
      var spanLen := SpanLen(h.desc.channels);
      var r := Decode(data, pos);
      (total < 0 ==> r == Fail(NegativeLength)) &&
      (0 <= total < spanLen ==> r == Fail(SpanOutOfRange)) &&
      (0 <= spanLen <= total ==>
        var frame := DecodeFrame(data, h.pos, h.desc, ZERO_STATES, seq(spanLen, _ => 0));
        (r.Ok? <==> frame.Ok?) && (frame.Fail? ==> r == Fail(frame.error)))
  {
  }

  /**
   * The first row of slices fits in a span of `20 * channels` samples: the
   * slice of channel `c` at sample index 0 writes positions `c`,
   * `c + channels`, … below `20 * channels`.
   */
  lemma FirstSliceFits(data: seq<Byte>, st: FrameState, samples: nat, channels: nat, c: nat)
    requires st.pos <= |data| && StatesOk(st.states) && c < channels <= MAX_CHANNELS && 0 < samples
    requires |st.out| == SLICE_LEN * channels
    ensures DecodeSlice(data, st, samples, channels, 0, c).Ok?
  {
    var slice := ReadWord(data, st.pos);
    var n := SliceSampleCount(samples, 0);
    var codes := SliceCodes(slice, n);
    assert SliceStart(0, channels, c) == c;
    FirstRowInSpan(n, channels, c);
    CodesFitSpan(st.out, st.states[c], SliceScalefactor(slice), codes, c, channels);
  }

  /** The last position of channel `c`'s slice in the first row lies inside the span. */
  lemma FirstRowInSpan(n: nat, channels: nat, c: nat)
    requires 1 <= n <= SLICE_LEN && c < channels
    ensures c + (n - 1) * channels < SLICE_LEN * channels
  {
    MulLe(n - 1, SLICE_LEN - 1, channels);
  }

  /** Decoding codes succeeds when the last strided position lies inside the span. */
  lemma CodesFitSpan(out: seq<int>, s: LmsState, scalefactor: int, codes: seq<int>, si: nat, channels: nat)
    requires s.Wf() && 0 <= scalefactor < 16 && IsCodes(codes) && channels >= 1
    requires codes == [] || si + (|codes| - 1) * channels < |out|
    ensures DecodeCodes(out, s, scalefactor, codes, si, channels).Ok?
  {
    DecodeCodesScatters(out, s, scalefactor, codes, si, channels);
    var d := Reconstruct(s, scalefactor, codes);
    ScatterInRange(out, si, channels, d.0);
    StridedLength(out, si, channels, |codes|);
  }

  /**
   * The second row of slices starts at sample index 20, whose first
   * position `20 * channels` lies just past a span of `20 * channels`
   * samples: a frame of more than 20 samples fails there.
   */
  lemma SliceRowPastSpan(data: seq<Byte>, st: FrameState, samples: nat, channels: nat)
    requires st.pos <= |data| && StatesOk(st.states) && 1 <= channels <= MAX_CHANNELS
    requires |st.out| == SLICE_LEN * channels && SLICE_LEN < samples
    ensures DecodeSlices(data, st, samples, channels, SLICE_LEN, 0) == Fail(IndexOutOfRange)
  {
    var slice := ReadWord(data, st.pos);
    var codes := SliceCodes(slice, SliceSampleCount(samples, SLICE_LEN));
    var si := SliceStart(SLICE_LEN, channels, 0);
    assert DecodeCodes(st.out, st.states[0], SliceScalefactor(slice), codes, si, channels) == Fail(IndexOutOfRange);
  }

  /**
   * Decoding a frame of more than 20 samples per channel into a span of
   * `20 * channels` samples fails with `IndexOutOfRange`: the first row of
   * slices fits, the second does not.
   */
  lemma {:induction false} LongFrameOverrunsSpan(data: seq<Byte>, st: FrameState, samples: nat, channels: nat, c: nat)
    requires st.pos <= |data| && StatesOk(st.states) && c <= channels && 1 <= channels <= MAX_CHANNELS
    requires |st.out| == SLICE_LEN * channels && SLICE_LEN < samples
    ensures DecodeSlices(data, st, samples, channels, 0, c) == Fail(IndexOutOfRange)
    decreases channels - c
  {
    if c == channels {
      SliceRowPastSpan(data, st, samples, channels);
    } else {
      FirstSliceFits(data, st, samples, channels, c);
      var st' := DecodeSlice(data, st, samples, channels, 0, c).value;
      DecodeSlicesStep(data, st, samples, channels, 0, c);
      LongFrameOverrunsSpan(data, st', samples, channels, c + 1);
    }
  }

  /** One step of the channel loop: a slice that decodes hands its state to the next channel. */
  lemma DecodeSlicesStep(data: seq<Byte>, st: FrameState, samples: nat, channels: nat, sampleIndex: nat, c: nat)
    requires st.pos <= |data| && StatesOk(st.states) && c < channels <= MAX_CHANNELS && sampleIndex < samples
    requires DecodeSlice(data, st, samples, channels, sampleIndex, c).Ok?
    ensures DecodeSlices(data, st, samples, channels, sampleIndex, c) ==
      DecodeSlices(data, DecodeSlice(data, st, samples, channels, sampleIndex, c).value, samples, channels, sampleIndex, c + 1)
  {
  }

  /** A frame decoded into a span of `20 * channels` samples holds at most 20 samples per channel. */
  lemma DecodeFrameFitsSpan(data: seq<Byte>, pos: nat, desc: Desc, states: seq<LmsState>, out: seq<int>)
    requires pos <= |data| && StatesOk(states)
    ensures var r := DecodeFrame(data, pos, desc, states, out);
      r.Ok? && 1 <= desc.channels && |out| == SLICE_LEN * desc.channels ==> r.value.frameLen <= SLICE_LEN
  {
    var f := UnpackFrameHeader(ReadWord(data, pos));
    if f.samples > SLICE_LEN && 1 <= desc.channels && |out| == SLICE_LEN * desc.channels {
      DecodeFrameChecks(data, pos, desc, states, out);
      if f.channels == desc.channels && f.samplerate == desc.samplerate &&
         f.samples * f.channels <= MaxTotalSamples(f.channels, f.frameSize) {
        var snap := ReadSnapshots(data, AfterRead(data, pos), states, 0, f.channels);
        DecodeFrameSlices(data, pos, desc, states, out, f, snap);
        if snap.Ok? {
          LongFrameOverrunsSpan(data, FrameState(snap.value.pos, snap.value.states, out), f.samples, f.channels, 0);
        }
      }
    }
  }

  /**
   * For a header of fewer than 20 samples, the buffer of `samples * channels`
   * samples is shorter than the span of `20 * channels`.
   */
  lemma SpanNeedsOneSlice(desc: Desc)
    ensures 1 <= desc.channels < 0x100 && desc.samples < SLICE_LEN ==>
      0 <= BufferLen(desc) < SpanLen(desc.channels)
  {
    if 1 <= desc.channels < 0x100 && desc.samples < SLICE_LEN {
      ShortBufferBelowSpan(desc.samples, desc.channels);
    }
  }

  lemma ShortBufferBelowSpan(samples: nat, channels: nat)
    requires 1 <= channels < 0x100 && samples < SLICE_LEN
    ensures 0 <= samples * channels < SLICE_LEN * channels && samples * channels < 0x8000_0000
  {
    MulNatural(samples, channels);
    MulLe(samples, SLICE_LEN - 1, channels);
  }

  /** A header of 1 to 19 samples makes `qoa_decode` fail with `SpanOutOfRange`, before any frame is read. */
  lemma ShortStreamSpanFails(data: seq<Byte>, h: Header)
    requires h.pos <= |data| && 1 <= h.desc.samples < SLICE_LEN && 1 <= h.desc.channels < 0x100
    ensures DecodeStream(data, h) == Fail(SpanOutOfRange)
  {
    SpanNeedsOneSlice(h.desc);
  }
}
