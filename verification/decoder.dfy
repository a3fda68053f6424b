/**
 * The decoder as the source runs it (src/QOA.cs:364-503): it reads words
 * from an input `Stream`, restores the predictors of a `QOA_Desc` in place
 * and writes samples into a span of the sample buffer. Every method is
 * proved to do what the matching function of `QoaDecodeSpec` computes,
 * including which exception it raises.
 */
module QoaDecoder {
  import opened QoaInt
  import opened QoaTables
  import opened QoaWords
  import opened QoaLms
  import opened QoaDecodeSpec
  import opened QoaStream
  import QoaEncodeSpec
  import QoaEncoder

  /** The stream description a `QOA_Desc` holds, without its predictors. */
  function DescOf(qoa: QoaEncoder.Desc): Desc
    reads qoa
  {
    Desc(qoa.channels, qoa.samplerate, qoa.samples)
  }

  // ----- Stream header -----

  /**
   * `qoa_decode_header` (src/QOA.cs:364-401): on success a fresh
   * `QOA_Desc` with zeroed predictors describing the stream, and the input
   * positioned at the first frame header.
   */
  method DecodeHeader(input: ByteSource) returns (r: Result<QoaEncoder.Desc>)
    requires input.Valid()
    modifies input
    ensures input.Valid()
    ensures var h := QoaDecodeSpec.DecodeHeader(input.data, old(input.pos));
      (r.Ok? <==> h.Ok?) && (r.Fail? ==> r.error == h.error) &&
      (r.Ok? ==>
        fresh(r.value) && fresh(r.value.lms) && fresh(r.value.Repr) && r.value.Valid() &&
        DescOf(r.value) == h.value.desc && input.pos == h.value.pos && r.value.States() == ZERO_STATES)
  {
    var fileHeader := ReadU64(input);
    if fileHeader / TWO_32 != MAGIC {
      return Fail(BadMagic);
    }
    // `qoa.samples`, `qoa.channels` and `qoa.samplerate` are held in locals
    // until every check has passed: a header that throws leaves no `QOA_Desc`.
    var samples := fileHeader % TWO_32;
    if samples == 0 {
      return Fail(NoSamples);
    }
    var frameHeader := ReadU64(input);
    var sought := input.SeekBack8();
    if !sought {
      return Fail(SeekBeforeBegin);
    }
    var channels := frameHeader / TWO_56 % 0x100;
    var samplerate := frameHeader / TWO_32 % 0x100_0000;
    if channels == 0 || samples == 0 || samplerate == 0 {
      return Fail(BadStreamInfo);
    }
    var qoa := new QoaEncoder.Desc(channels, samplerate, samples);
    assert qoa.States() == ZERO_STATES;
    return Ok(qoa);
  }

  // ----- Predictor snapshots -----

  /**
   * One channel's snapshot (src/QOA.cs:441-447): each field is
   * `(short)(word >> 48)`, after which the word is shifted left by 16.
   */
  method UnpackSnapshot(lms: Lms, history: U64, weights: U64)
    requires lms.Valid()
    modifies lms.history, lms.weights
    ensures lms.State() == LmsState(Unpack16(history, LMS_LEN), Unpack16(weights, LMS_LEN))
  {
    var h, w := history, weights;
    for i := 0 to LMS_LEN
      invariant lms.history[..i] + Unpack16(h, LMS_LEN - i) == Unpack16(history, LMS_LEN)
      invariant lms.weights[..i] + Unpack16(w, LMS_LEN - i) == Unpack16(weights, LMS_LEN)
    {
      h, w := UnpackField(lms, i, h, w, history, weights);
    }
    assert lms.history[..] == lms.history[..LMS_LEN] + Unpack16(h, 0);
    assert lms.weights[..] == lms.weights[..LMS_LEN] + Unpack16(w, 0);
  }

  /** One pass of the snapshot loop: field `i` of the history and of the weights, taken off the top of each word. */
  method UnpackField(lms: Lms, i: nat, h: U64, w: U64, ghost history: U64, ghost weights: U64) returns (h': U64, w': U64)
    requires lms.Valid() && i < LMS_LEN
    requires lms.history[..i] + Unpack16(h, LMS_LEN - i) == Unpack16(history, LMS_LEN)
    requires lms.weights[..i] + Unpack16(w, LMS_LEN - i) == Unpack16(weights, LMS_LEN)
    modifies lms.history, lms.weights
    ensures lms.history[..i + 1] + Unpack16(h', LMS_LEN - (i + 1)) == Unpack16(history, LMS_LEN)
    ensures lms.weights[..i + 1] + Unpack16(w', LMS_LEN - (i + 1)) == Unpack16(weights, LMS_LEN)
  {
    ghost var hp, wp := lms.history[..i], lms.weights[..i];
    UnpackNext(hp, h, LMS_LEN - i);
    UnpackNext(wp, w, LMS_LEN - i);
    lms.history[i] := Wrap16(h / 0x1_0000_0000_0000);
    h' := Shl16(h);
    lms.weights[i] := Wrap16(w / 0x1_0000_0000_0000);
    w' := Shl16(w);
    assert lms.history[..i + 1] == hp + [lms.history[i]];
    assert lms.weights[..i + 1] == wp + [lms.weights[i]];
  }

  /** Reading one more 16-bit field off the top of a word. */
  lemma UnpackNext(prefix: seq<int>, w: U64, n: nat)
    requires n > 0
    ensures prefix + Unpack16(w, n) == (prefix + [Wrap16(w / 0x1_0000_0000_0000)]) + Unpack16(Shl16(w), n - 1)
  {
  }

  /** One channel more of `ReadSnapshots`: the two words, then the rest. */
  lemma ReadSnapshotsNext(data: seq<Byte>, pos: nat, states: seq<LmsState>, c: nat, channels: nat,
                          history: U64, weights: U64, pos': nat, states': seq<LmsState>)
    requires pos <= |data| && QoaEncodeSpec.StatesOk(states) && c < channels && c < MAX_CHANNELS
    requires history == ReadWord(data, pos) && weights == ReadWord(data, AfterRead(data, pos))
    requires pos' == AfterRead(data, AfterRead(data, pos))
    requires states' == states[c := LmsState(Unpack16(history, LMS_LEN), Unpack16(weights, LMS_LEN))]
    ensures QoaEncodeSpec.StatesOk(states')
    ensures QoaDecodeSpec.ReadSnapshots(data, pos, states, c, channels) == QoaDecodeSpec.ReadSnapshots(data, pos', states', c + 1, channels)
  {
  }

  /**
   * The snapshot loop of `qoa_decode_frame` (src/QOA.cs:437-449): a history
   * and a weights word per channel, unpacked into `qoa.lms[c]`; a channel
   * index of 8 or more throws once its two words are read.
   */
  method ReadSnapshots(input: ByteSource, qoa: QoaEncoder.Desc, channels: nat) returns (r: Result<()>)
    requires input.Valid() && qoa.Valid()
    modifies input, qoa.Repr
    ensures input.Valid() && qoa.Valid()
    ensures var spec := QoaDecodeSpec.ReadSnapshots(input.data, old(input.pos), old(qoa.States()), 0, channels);
      (r.Ok? <==> spec.Ok?) && (r.Fail? ==> r.error == spec.error) &&
      (r.Ok? ==> input.pos == spec.value.pos && qoa.States() == spec.value.states)
  {
    ghost var spec := QoaDecodeSpec.ReadSnapshots(input.data, input.pos, qoa.States(), 0, channels);
    for c := 0 to channels
      invariant input.Valid() && qoa.Valid() && c <= MAX_CHANNELS
      invariant QoaDecodeSpec.ReadSnapshots(input.data, input.pos, qoa.States(), c, channels) == spec
    {
      var ok := ReadSnapshot(input, qoa, c, channels, spec);
      if !ok {
        return Fail(IndexOutOfRange);
      }
    }
    return Ok(());
  }

  /** One pass of the snapshot loop: channel `c`'s two words, unpacked into `qoa.lms[c]` when that exists. */
  method ReadSnapshot(input: ByteSource, qoa: QoaEncoder.Desc, c: nat, channels: nat, ghost spec: Result<FrameState>)
    returns (ok: bool)
    requires input.Valid() && qoa.Valid() && c < channels && c <= MAX_CHANNELS
    requires QoaDecodeSpec.ReadSnapshots(input.data, input.pos, qoa.States(), c, channels) == spec
    modifies input, qoa.Repr
    ensures input.Valid() && qoa.Valid()
    ensures ok <==> c < MAX_CHANNELS
    ensures ok ==> QoaDecodeSpec.ReadSnapshots(input.data, input.pos, qoa.States(), c + 1, channels) == spec
    ensures !ok ==> spec == Fail(IndexOutOfRange)
  {
    ghost var pos, states := input.pos, qoa.States();
    var history := ReadU64(input);
    var weights := ReadU64(input);
    if c >= MAX_CHANNELS {
      return false;
    }
    UnpackSnapshot(qoa.lms[c], history, weights);
    QoaEncoder.StatesWith(qoa, c, states);
    ReadSnapshotsNext(input.data, pos, states, c, channels, history, weights, input.pos, qoa.States());
    return true;
  }

  // ----- Slices -----

  /** Decoding the top code of `s` at `si`, then the codes below it from the next position. */
  lemma DecodeCodesAdvance(out: seq<int>, state: LmsState, scalefactor: int, s: U64, left: nat, si: nat, channels: nat,
                           quantized: int, dequantized: int, reconstructed: int)
    requires state.Wf() && 0 <= scalefactor < 16 && left > 0 && si < |out|
    requires quantized == s / 0x2000_0000_0000_0000 % 8 && dequantized == Dequantize(scalefactor, quantized)
    requires reconstructed == ClampS16(Prediction(state) + dequantized)
    ensures DecodeCodes(out, state, scalefactor, TopCodes(s, left), si, channels) ==
      DecodeCodes(out[si := reconstructed], Updated(state, reconstructed, dequantized), scalefactor,
        TopCodes(Shl3(s), left - 1), si + channels, channels)
  {
    TopCodesSplit(s, left);
    DecodeCodesNext(out, state, scalefactor, TopCodes(s, left), quantized, TopCodes(Shl3(s), left - 1), si, channels,
      dequantized, reconstructed);
  }

  /** A code to decode at a position past the end of the span throws. */
  lemma DecodeCodesOutside(out: seq<int>, state: LmsState, scalefactor: int, s: U64, left: nat, si: nat, channels: nat)
    requires state.Wf() && 0 <= scalefactor < 16 && left > 0 && si >= |out|
    ensures DecodeCodes(out, state, scalefactor, TopCodes(s, left), si, channels) == Fail(IndexOutOfRange)
  {
  }

  /** With no codes left, the sample loop of a slice has come to its result. */
  lemma CodesDone(out: seq<int>, st: LmsState, scalefactor: int, s: U64, si: nat, channels: nat,
                  spec: Result<(seq<int>, LmsState)>)
    requires CodesRemain(out, st, scalefactor, s, 0, si, channels, spec)
    ensures spec == Ok((out, st))
  {
  }

  /**
   * The body of the sample loop of a slice (src/QOA.cs:466-475): the top
   * code of `s` is dequantized, added to the prediction and clamped; the
   * sample is written at `si` of the span and fed back into the predictor.
   * `ok` is false when `si` lies past the end of the span, where the write
   * throws.
   */
  method DecodeSample(lms: Lms, out: array<int>, spanLen: nat, scalefactor: int, s: U64, si: nat, channels: nat,
                      ghost left: nat, ghost cur: seq<int>, ghost st: LmsState, ghost spec: Result<(seq<int>, LmsState)>)
    returns (ok: bool, ghost cur': seq<int>, ghost st': LmsState)
    requires lms.Valid() && 0 <= scalefactor < 16 && spanLen <= out.Length && left > 0
    requires out != lms.history && out != lms.weights
    requires out[..spanLen] == cur && lms.State() == st
    requires CodesRemain(cur, st, scalefactor, s, left, si, channels, spec)
    modifies lms.history, lms.weights, out
    ensures ok <==> si < spanLen
    ensures out[..spanLen] == cur' && lms.State() == st'
    ensures ok ==> CodesRemain(cur', st', scalefactor, Shl3(s), left - 1, si + channels, channels, spec)
    ensures !ok ==> spec == Fail(IndexOutOfRange)
    ensures out[spanLen..] == old(out[spanLen..])
  {
    ghost var before, state := out[..spanLen], lms.State();
    var predicted := lms.Predict();
    var quantized := s / 0x2000_0000_0000_0000 % 8;
    DequantizeIsTable(scalefactor, quantized);
    var dequantized := DEQUANT_TAB[scalefactor][quantized];
    var reconstructed := ClampS16(predicted + dequantized);
    if si >= spanLen {
      DecodeCodesOutside(before, state, scalefactor, s, left, si, channels);
      return false, cur, st;
    }
    out[si] := reconstructed;
    lms.Update(reconstructed, dequantized);
    assert out[..spanLen] == before[si := reconstructed];
    DecodeCodesAdvance(before, state, scalefactor, s, left, si, channels, quantized, dequantized, reconstructed);
    ok, cur', st' := true, out[..spanLen], lms.State();
  }

  /**
   * One pass of the sample loop of a slice (src/QOA.cs:464-475): the body,
   * then `slice <<= 3` and `si += channels`, one code fewer left.
   */
  method DecodeStep(lms: Lms, out: array<int>, spanLen: nat, scalefactor: int, s: U64, si: nat, channels: nat,
                    sliceEnd: nat, ghost left: nat, ghost cur: seq<int>, ghost st: LmsState,
                    ghost spec: Result<(seq<int>, LmsState)>)
    returns (ok: bool, s': U64, si': nat, ghost left': nat, ghost cur': seq<int>, ghost st': LmsState)
    requires lms.Valid() && 0 <= scalefactor < 16 && spanLen <= out.Length
    requires channels >= 1 && si < sliceEnd && sliceEnd == QoaEncoder.StrideEnd(si, channels, left)
    requires out != lms.history && out != lms.weights
    requires out[..spanLen] == cur && lms.State() == st
    requires CodesRemain(cur, st, scalefactor, s, left, si, channels, spec)
    modifies lms.history, lms.weights, out
    ensures out[..spanLen] == cur' && lms.State() == st'
    ensures ok ==> s' == Shl3(s) && si' == si + channels && left' < left
    ensures ok ==> sliceEnd == QoaEncoder.StrideEnd(si', channels, left')
    ensures ok ==> CodesRemain(cur', st', scalefactor, s', left', si', channels, spec)
    ensures !ok ==> spec == Fail(IndexOutOfRange)
    ensures out[spanLen..] == old(out[spanLen..])
  {
    QoaEncoder.StrideEndAbove(si, channels, left);
    ok, cur', st' := DecodeSample(lms, out, spanLen, scalefactor, s, si, channels, left, cur, st, spec);
    s', si', left' := Shl3(s), si + channels, left - 1;
    QoaEncoder.StrideEndNext(si, channels, left, left');
    if ok {
      CodesRemainMoved(cur', st', scalefactor, s, left, si, channels, spec, s', left', si');
    }
  }

  /** `CodesRemain` at the advanced loop variables, under their names. */
  lemma CodesRemainMoved(cur: seq<int>, st: LmsState, scalefactor: int, s: U64, left: nat, si: nat, channels: nat,
                         spec: Result<(seq<int>, LmsState)>, s': U64, left': nat, si': nat)
    requires left > 0 && CodesRemain(cur, st, scalefactor, Shl3(s), left - 1, si + channels, channels, spec)
    requires s' == Shl3(s) && left' == left - 1 && si' == si + channels
    ensures CodesRemain(cur, st, scalefactor, s', left', si', channels, spec)
  {
  }

  /**
   * The sample loop of one slice (src/QOA.cs:464-476) over the `n`
   * positions `sliceStart`, `sliceStart + channels`, … up to `sliceEnd`.
   */
  method DecodeSliceCodes(lms: Lms, out: array<int>, spanLen: nat, scalefactor: int, slice: U64,
                          sliceStart: nat, sliceEnd: nat, channels: nat, ghost n: nat, ghost cur0: seq<int>, ghost st0: LmsState)
    returns (r: Result<()>)
    requires lms.Valid() && 0 <= scalefactor < 16 && spanLen <= out.Length && channels >= 1
    requires out != lms.history && out != lms.weights
    requires sliceEnd == QoaEncoder.StrideEnd(sliceStart, channels, n)
    requires out[..spanLen] == cur0 && lms.State() == st0
    modifies lms.history, lms.weights, out
    ensures var spec := DecodeCodes(cur0, st0, scalefactor, TopCodes(slice, n), sliceStart, channels);
      (r.Ok? <==> spec.Ok?) && (r.Fail? ==> r.error == spec.error) &&
      (r.Ok? ==> out[..spanLen] == spec.value.0 && lms.State() == spec.value.1)
    ensures out[spanLen..] == old(out[spanLen..])
  {
    ghost var cur, st := cur0, st0;
    ghost var spec := DecodeCodes(cur, st, scalefactor, TopCodes(slice, n), sliceStart, channels);
    var s := slice;
    var si: nat := sliceStart;
    ghost var left: nat := n;
    while si < sliceEnd
      invariant sliceEnd == QoaEncoder.StrideEnd(si, channels, left)
      invariant out[..spanLen] == cur && lms.State() == st
      invariant CodesRemain(cur, st, scalefactor, s, left, si, channels, spec)
      invariant out[spanLen..] == old(out[spanLen..])
      decreases left
    {
      var ok;
      ok, s, si, left, cur, st := DecodeStep(lms, out, spanLen, scalefactor, s, si, channels, sliceEnd, left, cur, st, spec);
      if !ok {
        return Fail(IndexOutOfRange);
      }
    }
    QoaEncoder.StrideEndAbove(si, channels, left);
    CodesDone(cur, st, scalefactor, s, si, channels, spec);
    return Ok(());
  }

  /** The sample loop of a slice run on `qoa.lms[c]`: the other predictors stay as they are. */
  method DecodeChannelCodes(qoa: QoaEncoder.Desc, c: nat, out: array<int>, spanLen: nat, scalefactor: int, slice: U64,
                            sliceStart: nat, sliceEnd: nat, channels: nat, ghost n: nat,
                            ghost states: seq<LmsState>, ghost cur: seq<int>)
    returns (r: Result<()>)
    requires qoa.Valid() && out !in qoa.Repr && c < MAX_CHANNELS && 0 <= scalefactor < 16 && spanLen <= out.Length
    requires channels >= 1 && sliceEnd == QoaEncoder.StrideEnd(sliceStart, channels, n)
    requires qoa.States() == states && out[..spanLen] == cur
    modifies qoa.Repr, out
    ensures qoa.Valid()
    ensures var spec := DecodeCodes(cur, states[c], scalefactor, TopCodes(slice, n), sliceStart, channels);
      (r.Ok? <==> spec.Ok?) && (r.Fail? ==> r.error == spec.error) &&
      (r.Ok? ==> out[..spanLen] == spec.value.0 && qoa.States() == states[c := spec.value.1])
    ensures out[spanLen..] == old(out[spanLen..])
  {
    var lms := qoa.lms[c];
    r := DecodeSliceCodes(lms, out, spanLen, scalefactor, slice, sliceStart, sliceEnd, channels, n, cur, states[c]);
    QoaEncoder.StatesWith(qoa, c, states);
  }

  /** The positions of channel `c` in a slice form a stride of `channels` from `slice_start` to `slice_end`. */
  lemma SliceStride(samples: nat, channels: nat, sampleIndex: nat, c: nat, sliceStart: nat, sliceEnd: nat, n: nat)
    requires sampleIndex < samples && sliceStart == SliceStart(sampleIndex, channels, c)
    requires sliceEnd == SliceEnd(samples, channels, sampleIndex, c) && n == SliceSampleCount(samples, sampleIndex)
    ensures sliceEnd == QoaEncoder.StrideEnd(sliceStart, channels, n)
  {
    QoaEncoder.StrideEndAt(sampleIndex, channels, c, n);
  }

  /**
   * One slice of channel `c` (src/QOA.cs:456-476): read the slice word,
   * take the scalefactor from its top 4 bits and decode the codes below
   * into the span at `sampleIndex * channels + c`, `channels` apart.
   */
  method DecodeSlice(input: ByteSource, qoa: QoaEncoder.Desc, out: array<int>, spanLen: nat,
                     samples: nat, channels: nat, sampleIndex: nat, c: nat, ghost st: FrameState)
    returns (r: Result<()>, ghost st': FrameState)
    requires input.Valid() && qoa.Valid() && out !in qoa.Repr && spanLen <= out.Length
    requires c < channels <= MAX_CHANNELS && sampleIndex < samples
    requires st == FrameState(input.pos, qoa.States(), out[..spanLen])
    modifies input, qoa.Repr, out
    ensures input.Valid() && qoa.Valid()
    ensures st' == FrameState(input.pos, qoa.States(), out[..spanLen])
    ensures var spec := QoaDecodeSpec.DecodeSlice(input.data, st, samples, channels, sampleIndex, c);
      (r.Ok? <==> spec.Ok?) && (r.Fail? ==> r.error == spec.error) && (r.Ok? ==> spec.value == st')
    ensures out[spanLen..] == old(out[spanLen..])
  {
    var slice := ReadU64(input);
    ghost var word := slice;
    var scalefactor := SliceScalefactor(slice);
    slice := Shl4(slice);
    var sliceStart := SliceStart(sampleIndex, channels, c);
    var sliceEnd := SliceEnd(samples, channels, sampleIndex, c);
    ghost var n := SliceSampleCount(samples, sampleIndex);
    SliceStride(samples, channels, sampleIndex, c, sliceStart, sliceEnd, n);
    DecodeSliceFrom(input.data, st, samples, channels, sampleIndex, c, word, scalefactor, slice, n, sliceStart, input.pos);
    r := DecodeChannelCodes(qoa, c, out, spanLen, scalefactor, slice, sliceStart, sliceEnd, channels, n, st.states, st.out);
    st' := FrameState(input.pos, qoa.States(), out[..spanLen]);
  }

  /** The channel loop of a row of slices (src/QOA.cs:454-477). */
  method DecodeSliceRow(input: ByteSource, qoa: QoaEncoder.Desc, out: array<int>, spanLen: nat,
                        samples: nat, channels: nat, sampleIndex: nat, ghost st: FrameState, ghost spec: Result<FrameState>)
    returns (r: Result<()>, ghost st': FrameState)
    requires input.Valid() && qoa.Valid() && out !in qoa.Repr && spanLen <= out.Length
    requires channels <= MAX_CHANNELS && sampleIndex < samples
    requires st == FrameState(input.pos, qoa.States(), out[..spanLen])
    requires SlicesRemain(input.data, st, samples, channels, sampleIndex, 0, spec)
    modifies input, qoa.Repr, out
    ensures input.Valid() && qoa.Valid()
    ensures st' == FrameState(input.pos, qoa.States(), out[..spanLen])
    ensures r.Fail? ==> spec == Fail(r.error)
    ensures r.Ok? ==> SlicesRemain(input.data, st', samples, channels, sampleIndex, channels, spec)
    ensures out[spanLen..] == old(out[spanLen..])
  {
    st' := st;
    for c := 0 to channels
      invariant input.Valid() && qoa.Valid()
      invariant st' == FrameState(input.pos, qoa.States(), out[..spanLen])
      invariant SlicesRemain(input.data, st', samples, channels, sampleIndex, c, spec)
      invariant out[spanLen..] == old(out[spanLen..])
    {
      ghost var cur := st';
      r, st' := DecodeSlice(input, qoa, out, spanLen, samples, channels, sampleIndex, c, cur);
      SlicesNextChannel(input.data, cur, samples, channels, sampleIndex, c, spec,
        QoaDecodeSpec.DecodeSlice(input.data, cur, samples, channels, sampleIndex, c));
      if r.Fail? {
        return;
      }
    }
    r := Ok(());
  }

  /** The slice loops of `qoa_decode_frame` (src/QOA.cs:451-478), against `DecodeSlices`. */
  method DecodeSliceLoops(input: ByteSource, qoa: QoaEncoder.Desc, out: array<int>, spanLen: nat,
                          samples: nat, channels: nat, ghost st: FrameState)
    returns (r: Result<()>, ghost st': FrameState)
    requires input.Valid() && qoa.Valid() && out !in qoa.Repr && spanLen <= out.Length && channels <= MAX_CHANNELS
    requires st == FrameState(input.pos, qoa.States(), out[..spanLen])
    modifies input, qoa.Repr, out
    ensures input.Valid() && qoa.Valid()
    ensures st' == FrameState(input.pos, qoa.States(), out[..spanLen])
    ensures var spec := DecodeSlices(input.data, st, samples, channels, 0, 0);
      (r.Ok? <==> spec.Ok?) && (r.Fail? ==> r.error == spec.error) && (r.Ok? ==> spec.value == st')
    ensures out[spanLen..] == old(out[spanLen..])
  {
    ghost var spec := DecodeSlices(input.data, st, samples, channels, 0, 0);
    st' := st;
    var sampleIndex := 0;
    while sampleIndex < samples
      invariant input.Valid() && qoa.Valid()
      invariant st' == FrameState(input.pos, qoa.States(), out[..spanLen])
      invariant SlicesRemain(input.data, st', samples, channels, sampleIndex, 0, spec)
      invariant out[spanLen..] == old(out[spanLen..])
      decreases samples - sampleIndex
    {
      r, st' := DecodeSliceRow(input, qoa, out, spanLen, samples, channels, sampleIndex, st', spec);
      if r.Fail? {
        return;
      }
      SlicesNextRow(input.data, st', samples, channels, sampleIndex, spec);
      sampleIndex := sampleIndex + SLICE_LEN;
    }
    SlicesDone(input.data, st', samples, channels, sampleIndex, 0, spec);
    r := Ok(());
  }

  // ----- One frame -----

  /**
   * `qoa_decode_frame` (src/QOA.cs:403-478): read the frame header and
   * check it against `qoa`, restore the predictors from the snapshots, then
   * decode the slices into `out[..spanLen]`, the span. The result is
   * `frame_len`.
   */
  method DecodeFrame(input: ByteSource, qoa: QoaEncoder.Desc, out: array<int>, spanLen: nat, ghost spec: Result<Frame>)
    returns (r: Result<nat>)
    requires input.Valid() && qoa.Valid() && out !in qoa.Repr && spanLen <= out.Length
    requires spec == QoaDecodeSpec.DecodeFrame(input.data, input.pos, DescOf(qoa), qoa.States(), out[..spanLen])
    modifies input, qoa.Repr, out
    ensures input.Valid() && qoa.Valid()
    ensures (r.Ok? <==> spec.Ok?) && (r.Fail? ==> r.error == spec.error)
    ensures r.Ok? ==> r.value == spec.value.frameLen && spec.value.st == FrameState(input.pos, qoa.States(), out[..spanLen])
    ensures out[spanLen..] == old(out[spanLen..])
  {
    ghost var pos, states := input.pos, qoa.States();
    var frameHeader := ReadU64(input);
    var f := UnpackFrameHeader(frameHeader);
    var maxTotalSamples := MaxTotalSamples(f.channels, f.frameSize);
    if f.channels != qoa.channels {
      return Fail(ChannelMismatch);
    } else if f.samplerate != qoa.samplerate {
      return Fail(SamplerateMismatch);
    } else if f.samples * f.channels > maxTotalSamples {
      return Fail(TooManySamples);
    }
    DecodeFrameSlices(input.data, pos, DescOf(qoa), states, out[..spanLen], f,
      QoaDecodeSpec.ReadSnapshots(input.data, input.pos, states, 0, f.channels));
    var body := DecodeFrameBody(input, qoa, out, spanLen, f.samples, f.channels);
    if body.Fail? {
      return Fail(body.error);
    }
    r := Ok(f.samples);
  }

  /**
   * The rest of `qoa_decode_frame` once the header is checked
   * (src/QOA.cs:436-478): restore the predictors from the snapshots, then
   * decode the slices into the span.
   */
  method DecodeFrameBody(input: ByteSource, qoa: QoaEncoder.Desc, out: array<int>, spanLen: nat, samples: nat, channels: nat)
    returns (r: Result<()>)
    requires input.Valid() && qoa.Valid() && out !in qoa.Repr && spanLen <= out.Length
    modifies input, qoa.Repr, out
    ensures input.Valid() && qoa.Valid()
    ensures var snap := QoaDecodeSpec.ReadSnapshots(input.data, old(input.pos), old(qoa.States()), 0, channels);
      (snap.Fail? ==> r == Fail(snap.error)) &&
      (snap.Ok? ==>
        var slices := DecodeSlices(input.data, FrameState(snap.value.pos, snap.value.states, old(out[..spanLen])),
          samples, channels, 0, 0);
        (r.Ok? <==> slices.Ok?) && (r.Fail? ==> r.error == slices.error) &&
        (r.Ok? ==> slices.value == FrameState(input.pos, qoa.States(), out[..spanLen])))
    ensures out[spanLen..] == old(out[spanLen..])
  {
    var snap := ReadSnapshots(input, qoa, channels);
    if snap.Fail? {
      return Fail(snap.error);
    }
    var slices;
    ghost var st';
    slices, st' := DecodeSliceLoops(input, qoa, out, spanLen, samples, channels,
      FrameState(input.pos, qoa.States(), out[..spanLen]));
    r := slices;
  }

  // ----- The whole stream -----

  /**
   * The frame `qoa_decode` decodes (src/QOA.cs:492-498), into the span of
   * `spanLen` samples at the start of a zeroed buffer: on success the buffer
   * holds the frame's span followed by the zeros past it.
   */
  method DecodeIntoBuffer(input: ByteSource, qoa: QoaEncoder.Desc, sampleData: array<int>, spanLen: nat,
                          ghost desc: Desc, ghost spec: Result<Frame>)
    returns (r: Result<nat>)
    requires input.Valid() && qoa.Valid() && sampleData !in qoa.Repr && spanLen <= sampleData.Length
    requires forall i :: 0 <= i < sampleData.Length ==> sampleData[i] == 0
    requires DescOf(qoa) == desc && qoa.States() == ZERO_STATES
    requires spec == QoaDecodeSpec.DecodeFrame(input.data, input.pos, desc, ZERO_STATES, seq(spanLen, _ => 0))
    modifies input, qoa.Repr, sampleData
    ensures input.Valid() && qoa.Valid()
    ensures (r.Ok? <==> spec.Ok?) && (r.Fail? ==> r.error == spec.error)
    ensures r.Ok? ==> r.value == spec.value.frameLen
    ensures r.Ok? ==> sampleData[..] == spec.value.st.out + seq(sampleData.Length - spanLen, _ => 0)
  {
    ghost var zeros := seq(sampleData.Length - spanLen, _ => 0);
    assert sampleData[..spanLen] == seq(spanLen, _ => 0);
    assert sampleData[spanLen..] == zeros;
    r := DecodeFrame(input, qoa, sampleData, spanLen, spec);
    if r.Ok? {
      SpanThenRest(sampleData[..], spanLen, spec.value.st.out, zeros);
    }
  }

  /** A sequence is its first `spanLen` entries followed by the rest. */
  lemma SpanThenRest(a: seq<int>, spanLen: nat, span: seq<int>, rest: seq<int>)
    requires spanLen <= |a| && a[..spanLen] == span && a[spanLen..] == rest
    ensures a == span + rest
  {
    assert a == a[..spanLen] + a[spanLen..];
  }

  /**
   * `qoa_decode` (src/QOA.cs:480-503): the header, a zeroed buffer of
   * `(int)(samples * channels)` samples, one frame decoded into the span of
   * `20 * channels` samples at its start, and `samples` set to the frame's
   * length. `frame_size` is never assigned, so the `do … while` body runs
   * once and `sample_index` is 0 when the span is taken.
   */
  method Decode(input: ByteSource) returns (r: Result<(array<int>, QoaEncoder.Desc)>)
    requires input.Valid()
    modifies input
    ensures input.Valid()
    ensures var spec := QoaDecodeSpec.Decode(input.data, old(input.pos));
      (r.Ok? <==> spec.Ok?) && (r.Fail? ==> r.error == spec.error) &&
      (r.Ok? ==> r.value.0[..] == spec.value.samples && DescOf(r.value.1) == spec.value.desc && r.value.1.Valid())
  {
    var header := DecodeHeader(input);
    if header.Fail? {
      return Fail(header.error);
    }
    var qoa := header.value;
    var decoded := DecodeStream(input, qoa, QoaDecodeSpec.DecodeHeader(input.data, old(input.pos)).value);
    if decoded.Fail? {
      return Fail(decoded.error);
    }
    var (sampleData, sampleIndex) := decoded.value;
    qoa.samples := sampleIndex;
    return Ok((sampleData, qoa));
  }

  /**
   * The rest of `qoa_decode` (src/QOA.cs:484-500) once the header is read:
   * the buffer, the span at its start and the one frame, whose length
   * becomes `sample_index`.
   */
  method DecodeStream(input: ByteSource, qoa: QoaEncoder.Desc, ghost h: Header) returns (r: Result<(array<int>, nat)>)
    requires input.Valid() && qoa.Valid() && DescOf(qoa) == h.desc && input.pos == h.pos && qoa.States() == ZERO_STATES
    modifies input, qoa.Repr
    ensures input.Valid() && qoa.Valid()
    ensures var spec := QoaDecodeSpec.DecodeStream(input.data, h);
      (r.Ok? <==> spec.Ok?) && (r.Fail? ==> r.error == spec.error) &&
      (r.Ok? ==> fresh(r.value.0) && r.value.0[..] == spec.value.samples && r.value.1 < TWO_16) &&
      (r.Ok? ==> spec.value.desc == Desc(h.desc.channels, h.desc.samplerate, r.value.1))
  {
    var totalSamples := BufferLen(DescOf(qoa));
    if totalSamples < 0 {
      return Fail(NegativeLength);
    }
    var sampleData := new int[totalSamples](_ => 0);
    var spanLen := SpanLen(qoa.channels);
    if spanLen < 0 || spanLen > totalSamples {
      return Fail(SpanOutOfRange);
    }
    ghost var spec := QoaDecodeSpec.DecodeFrame(input.data, h.pos, h.desc, ZERO_STATES, seq(spanLen, _ => 0));
    var frame := DecodeIntoBuffer(input, qoa, sampleData, spanLen, h.desc, spec);
    if frame.Fail? {
      return Fail(frame.error);
    }
    return Ok((sampleData, frame.value));
  }
}
