/**
 * What the decoder makes of the encoder's output: the stream header, the
 * frame header checks, the predictor snapshots and the slices.
 *
 * The encoder writes words; `WordBytes` is the byte stream those writes
 * produce, and `ReadWord` reads it back.
 */
module QoaRoundTrip {
  import opened QoaInt
  import opened QoaTables
  import opened QoaLms
  import opened QoaWords
  import opened QoaEncodeSpec
  import opened QoaDecodeSpec
  import opened QoaStream

  // ----- Words in a byte stream -----

  /** Bytes in front of the data shift every read by their length. */
  lemma ReadWordShift(pre: seq<Byte>, data: seq<Byte>, p: nat)
    requires p <= |data|
    ensures ReadWord(pre + data, |pre| + p) == ReadWord(data, p)
    ensures AfterRead(pre + data, |pre| + p) == |pre| + AfterRead(data, p)
  {
    var all := pre + data;
    if |data| - p >= 8 {
      assert all[|pre| + p..|pre| + p + 8] == data[p..p + 8];
    } else {
      assert all[|pre| + p..] == data[p..];
    }
  }

  /** Word `i` of a written stream is read back at byte `8 * i`, and the read moves past it. */
  lemma {:induction false} ReadWordAt(ws: seq<U64>, rest: seq<Byte>, i: nat)
    requires i < |ws|
    ensures ReadWord(WordBytes(ws) + rest, 8 * i) == ws[i]
    ensures AfterRead(WordBytes(ws) + rest, 8 * i) == 8 * i + 8
    decreases i
  {
    var data := WordBytes(ws) + rest;
    var head := BytesOf(ws[0]);
    assert WordBytes(ws) == head + WordBytes(ws[1..]);
    SeqAssoc(head, WordBytes(ws[1..]), rest);
    if i == 0 {
      assert data[0..8] == head;
      ReadWriteRoundTrip(ws[0]);
    } else {
      ReadWordAt(ws[1..], rest, i - 1);
      ReadWordShift(head, WordBytes(ws[1..]) + rest, 8 * (i - 1));
    }
  }

  // ----- Stream header -----

  /**
   * A stream that starts with a file header and a frame header of the
   * encoder's form decodes to their description, and the stream is left at
   * the frame header.
   */
  lemma DecodeHeaderOfWords(ws: seq<U64>, channels: nat, samplerate: nat, samples: nat, frameLen: nat)
    requires 1 <= channels <= MAX_CHANNELS && 1 <= samplerate < 0x100_0000 && 1 <= samples < TWO_32
    requires 1 <= frameLen <= FRAME_LEN
    requires |ws| >= 2 && ws[0] == FileHeader(samples) && ws[1] == FrameHeaderOf(channels, samplerate, frameLen)
    ensures DecodeHeader(WordBytes(ws), 0) == Ok(Header(Desc(channels, samplerate, samples), 8))
  {
    assert WordBytes(ws) == BytesOf(ws[0]) + BytesOf(ws[1]) + WordBytes(ws[2..]) by {
      assert WordBytes(ws) == BytesOf(ws[0]) + WordBytes(ws[1..]);
      assert WordBytes(ws[1..]) == BytesOf(ws[1]) + WordBytes(ws[2..]) by { assert ws[1..][1..] == ws[2..]; }
    }
    DecodeEncodedHeader(channels, samplerate, samples, frameLen, FrameSize(channels, FrameSlices(frameLen)), WordBytes(ws[2..]));
  }

  /**
   * The decoder reads back the stream description the encoder was given:
   * the channel count, samplerate and sample count, and it leaves the stream
   * at the first frame header.
   */
  lemma DecodeHeaderOfEncoded(data: seq<Int16>, channels: U32, samplerate: U32, samples: U32, states: seq<LmsState>)
    requires ValidDesc(channels, samplerate, samples) && channels * samples <= |data| && StatesOk(states)
    ensures var ws := Encode(data, channels, samplerate, samples, states).words;
      DecodeHeader(WordBytes(ws), 0) == Ok(Header(Desc(channels, samplerate, samples), 8))
  {
    var ws := Encode(data, channels, samplerate, samples, states).words;
    DecodeHeaderOfWords(ws, channels, samplerate, samples, FrameLen(samples, 0));
  }

  // ----- Frame header -----

  /**
   * Every frame header the encoder writes unpacks to its own fields and
   * passes the decoder's capacity check: `frame_len * channels` never
   * exceeds the `max_total_samples` derived from the frame size.
   */
  lemma EncoderFramePassesChecks(channels: nat, samplerate: nat, frameLen: nat)
    requires 1 <= channels <= MAX_CHANNELS && samplerate < 0x100_0000 && 1 <= frameLen <= FRAME_LEN
    ensures var slices := FrameSlices(frameLen);
      var f := UnpackFrameHeader(FrameHeaderOf(channels, samplerate, frameLen));
      f == FrameFields(channels, samplerate, frameLen, FrameSize(channels, slices)) &&
      MaxTotalSamples(f.channels, f.frameSize) == slices * channels * SLICE_LEN &&
      f.samples * f.channels <= MaxTotalSamples(f.channels, f.frameSize)
  {
    var slices := FrameSlices(frameLen);
    FrameHeaderRoundTrip(channels, samplerate, frameLen, FrameSize(channels, slices));
    MaxTotalSamplesOf(channels, slices);
    CapacityCovers(frameLen, slices, channels);
  }

  /** `frame_len` samples fit in `slices` slices, on every channel. */
  lemma CapacityCovers(frameLen: nat, slices: nat, channels: nat)
    requires frameLen <= slices * SLICE_LEN
    ensures frameLen * channels <= slices * channels * SLICE_LEN
  {
    MulLe(frameLen, slices * SLICE_LEN, channels);
    assert slices * SLICE_LEN * channels == slices * channels * SLICE_LEN;
  }

  /** For a frame of `slices` slices the capacity check allows exactly `slices * 20` samples per channel. */
  lemma MaxTotalSamplesOf(channels: nat, slices: nat)
    requires 1 <= channels <= MAX_CHANNELS && slices <= SLICES_PER_FRAME
    ensures MaxTotalSamples(channels, FrameSize(channels, slices)) == slices * channels * SLICE_LEN
  {
    var n := slices * channels;
    MulLe(slices, 256, channels);
    MulLe(channels, 8, 256);
    assert 8 * slices * channels == 8 * n;
    MaxTotalSamplesLinear(channels, n, FrameSize(channels, slices));
  }

  lemma MaxTotalSamplesLinear(channels: nat, n: nat, size: nat)
    requires channels <= MAX_CHANNELS && n <= 2048 && size == 8 + 16 * channels + 8 * n
    ensures MaxTotalSamples(channels, size) == n * SLICE_LEN
  {
    assert (size - 8 - LMS_LEN * 4 * channels) % TWO_32 == 8 * n;
    assert (n * SLICE_LEN) % TWO_32 == n * SLICE_LEN;
  }

  // ----- Predictor snapshots -----

  /** A predictor state after `qoa_encode_frame` wrote it and `qoa_decode_frame` read it back. */
  function Restored(s: LmsState): (r: LmsState)
    requires s.Wf()
    ensures r.Wf()
  {
    LmsState(Unpack16(Pack16(s.history, LMS_LEN), LMS_LEN), Unpack16(Pack16(s.weights, LMS_LEN), LMS_LEN))
  }

  /**
   * The snapshot keeps each history entry and weight modulo 2^16: a state
   * whose history entries fit in 16 bits comes back with the same history
   * and with each weight cast to `short`.
   */
  lemma RestoredState(s: LmsState)
    requires s.Wf() && forall i :: 0 <= i < 4 ==> IsI16(s.history[i])
    ensures Restored(s) == LmsState(s.history, seq(4, i requires 0 <= i < 4 => Wrap16(s.weights[i])))
    ensures (forall i :: 0 <= i < 4 ==> IsI16(s.weights[i])) ==> Restored(s) == s
  {
    SnapshotRoundTrip16(s.history);
    SnapshotRoundTrip(s.weights);
    if forall i :: 0 <= i < 4 ==> IsI16(s.weights[i]) {
      SnapshotRoundTrip16(s.weights);
    }
  }

  /**
   * Reading the snapshots the encoder wrote for channels `c` up to
   * `channels`: the read succeeds, moves 16 bytes per channel, and replaces
   * exactly those channels' predictors by their restored states.
   */
  lemma {:induction false} SnapshotsReadBack(pre: seq<Byte>, states: seq<LmsState>, rest: seq<Byte>,
                                             decoded: seq<LmsState>, c: nat, channels: nat)
    requires c <= channels <= MAX_CHANNELS && StatesOk(states) && StatesOk(decoded)
    ensures var data := pre + WordBytes(SnapshotWords(states, c, channels)) + rest;
      var r := ReadSnapshots(data, |pre|, decoded, c, channels);
      r.Ok? && r.value.pos == |pre| + 16 * (channels - c) && r.value.out == [] &&
      forall k :: 0 <= k < MAX_CHANNELS ==>
        r.value.states[k] == if c <= k < channels then Restored(states[k]) else decoded[k]
    decreases channels - c
  {
    if c < channels {
      var ws := SnapshotWords(states, c, channels);
      SnapshotWordsFront(states, c, channels);
      var pre' := pre + BytesOf(ws[0]) + BytesOf(ws[1]);
      SnapshotsReadBack(pre', states, rest, decoded[c := Restored(states[c])], c + 1, channels);
      SnapshotsReadBackStep(pre, states, rest, decoded, c, channels);
    }
  }

  /** `SnapshotsReadBack` for channel `c` on from the same fact for channel `c + 1` on. */
  lemma SnapshotsReadBackStep(pre: seq<Byte>, states: seq<LmsState>, rest: seq<Byte>,
                              decoded: seq<LmsState>, c: nat, channels: nat)
    requires c < channels <= MAX_CHANNELS && StatesOk(states) && StatesOk(decoded)
    requires var ws := SnapshotWords(states, c, channels);
      |ws| >= 2 &&
      var pre' := pre + BytesOf(ws[0]) + BytesOf(ws[1]);
      var decoded' := decoded[c := Restored(states[c])];
      var data := pre' + WordBytes(SnapshotWords(states, c + 1, channels)) + rest;
      var r := ReadSnapshots(data, |pre'|, decoded', c + 1, channels);
      r.Ok? && r.value.pos == |pre'| + 16 * (channels - (c + 1)) && r.value.out == [] &&
      forall k :: 0 <= k < MAX_CHANNELS ==>
        r.value.states[k] == if c + 1 <= k < channels then Restored(states[k]) else decoded'[k]
    ensures var data := pre + WordBytes(SnapshotWords(states, c, channels)) + rest;
      var r := ReadSnapshots(data, |pre|, decoded, c, channels);
      r.Ok? && r.value.pos == |pre| + 16 * (channels - c) && r.value.out == [] &&
      forall k :: 0 <= k < MAX_CHANNELS ==>
        r.value.states[k] == if c <= k < channels then Restored(states[k]) else decoded[k]
  {
    var ws := SnapshotWords(states, c, channels);
    SnapshotWordsFront(states, c, channels);
    var pre' := TwoWordsAt(pre, ws, rest);
    var data := pre + WordBytes(ws) + rest;
    ReadSnapshotsStep(data, |pre|, decoded, c, channels);
    assert LmsState(Unpack16(ReadWord(data, |pre|), LMS_LEN), Unpack16(ReadWord(data, |pre| + 8), LMS_LEN)) == Restored(states[c]);
  }

  /** The snapshot of channel `c` is its packed history, then its packed weights. */
  lemma SnapshotWordsFront(states: seq<LmsState>, c: nat, channels: nat)
    requires c < channels <= MAX_CHANNELS && StatesOk(states)
    ensures var ws := SnapshotWords(states, c, channels);
      |ws| >= 2 && ws[0] == Pack16(states[c].history, LMS_LEN) && ws[1] == Pack16(states[c].weights, LMS_LEN) &&
      ws[2..] == SnapshotWords(states, c + 1, channels)
  {
    assert states[c].Wf();
  }

  /** The first two words of `ws` are read at `|pre|` and `|pre| + 8`; what follows is the rest of `ws`. */
  lemma TwoWordsAt(pre: seq<Byte>, ws: seq<U64>, rest: seq<Byte>) returns (pre': seq<Byte>)
    requires |ws| >= 2
    ensures var data := pre + WordBytes(ws) + rest;
      |pre| + 16 <= |data| &&
      ReadWord(data, |pre|) == ws[0] && ReadWord(data, |pre| + 8) == ws[1] &&
      pre' == pre + BytesOf(ws[0]) + BytesOf(ws[1]) && |pre'| == |pre| + 16 &&
      data == pre' + WordBytes(ws[2..]) + rest
  {
    var data := pre + WordBytes(ws) + rest;
    ReadWordAt(ws, rest, 0);
    ReadWordAt(ws, rest, 1);
    ReadWordShift(pre, WordBytes(ws) + rest, 0);
    ReadWordShift(pre, WordBytes(ws) + rest, 8);
    SeqAssoc(pre, WordBytes(ws), rest);
    var a, b, c := BytesOf(ws[0]), BytesOf(ws[1]), WordBytes(ws[2..]);
    pre' := pre + a + b;
    WordBytesTwo(ws);
    SeqAssoc(pre, a + b, c);
    SeqAssoc(pre, a, b);
  }

  lemma WordBytesTwo(ws: seq<U64>)
    requires |ws| >= 2
    ensures WordBytes(ws) == BytesOf(ws[0]) + BytesOf(ws[1]) + WordBytes(ws[2..])
  {
    var tail := ws[1..];
    assert tail[0] == ws[1] && tail[1..] == ws[2..];
    var a, b, c := BytesOf(ws[0]), BytesOf(ws[1]), WordBytes(ws[2..]);
    assert WordBytes(tail) == b + c;
    assert WordBytes(ws) == a + (b + c);
    SeqAssoc(a, b, c);
  }

  /** One channel of `ReadSnapshots` written out. */
  lemma ReadSnapshotsStep(data: seq<Byte>, pos: nat, decoded: seq<LmsState>, c: nat, channels: nat)
    requires pos + 16 <= |data| && StatesOk(decoded) && c < channels && c < MAX_CHANNELS
    ensures ReadSnapshots(data, pos, decoded, c, channels) ==
      ReadSnapshots(data, pos + 16,
        decoded[c := LmsState(Unpack16(ReadWord(data, pos), LMS_LEN), Unpack16(ReadWord(data, pos + 8), LMS_LEN))], c + 1, channels)
  {
  }

  // ----- Slices -----

  /**
   * Round `j` of a search, as seen after `k > j` rounds: the trial of
   * scalefactor `TrialScalefactor(j, prev)` run from the state the first `j`
   * rounds left behind, against their best rank.
   */
  lemma {:induction false} RoundsPrefix(xs: seq<Int16>, prev: int, s0: LmsState, j: nat, k: nat)
    requires s0.Wf() && 0 <= prev < 16 && j < k
    ensures var before := RoundsAfter(xs, prev, s0, j);
      RoundsAfter(xs, prev, s0, k).trials[j] ==
        PrunedRun(before.state, TrialScalefactor(j, prev), xs, Best(before.trials))
    decreases k
  {
    var r := RoundsAfter(xs, prev, s0, k - 1);
    var t := PrunedRun(r.state, TrialScalefactor(k - 1, prev), xs, Best(r.trials));
    assert RoundsAfter(xs, prev, s0, k).trials == r.trials + [t];
    if j < k - 1 {
      RoundsPrefix(xs, prev, s0, j, k - 1);
      assert (r.trials + [t])[j] == r.trials[j];
    } else {
      assert (r.trials + [t])[j] == t;
    }
  }

  /**
   * The winning round is the unpruned encoding of the slice from the state
   * that round started in: the first round starts from the channel's state,
   * every later one from the state the round before it left behind.
   */
  lemma WinnerIsFullRun(xs: seq<Int16>, prev: int, s0: LmsState)
    requires s0.Wf() && 0 <= prev < 16 && 1 <= |xs| <= 20
    ensures var ts := RoundsAfter(xs, prev, s0, ROUNDS).trials;
      var w := Winner(ts);
      0 <= w < 16 &&
      ts[w] == FullRun(RoundsAfter(xs, prev, s0, w).state, TrialScalefactor(w, prev), xs)
  {
    var ts := RoundsAfter(xs, prev, s0, ROUNDS).trials;
    SearchWinner(xs, prev, s0);
    var w := Winner(ts);
    var before := RoundsAfter(xs, prev, s0, w);
    RoundsPrefix(xs, prev, s0, w, ROUNDS);
    PrunedRunMatchesFull(before.state, TrialScalefactor(w, prev), xs, Best(before.trials));
  }

  /**
   * The decoder, holding the state the winning round started in, decodes the
   * written slice word into exactly the samples the encoder reconstructed in
   * that round and ends in that round's state. The writes succeed when the
   * last position lies inside the span. The encoder itself keeps the state
   * after the 16th round, and the first round is the only one that starts
   * from the channel's state before the search.
   */
  lemma DecoderReplaysWinner(xs: seq<Int16>, prev: int, s0: LmsState, out: seq<int>, si: nat, channels: nat)
    requires s0.Wf() && 0 <= prev < 16 && 1 <= |xs| <= 20 && channels >= 1
    ensures var ts := RoundsAfter(xs, prev, s0, ROUNDS).trials;
      var w := Winner(ts);
      var r := Search(xs, prev, s0);
      0 <= w < 16 &&
      var start := RoundsAfter(xs, prev, s0, w).state;
      var d := DecodeCodes(out, start, SliceScalefactor(r.word), SliceCodes(r.word, |xs|), si, channels);
      (w == 0 ==> start == s0) &&
      r.state == ts[15].state &&
      (d.Ok? <==> si + (|xs| - 1) * channels < |out|) &&
      (d.Ok? ==>
        d.value.1 == ts[w].state && Strided(d.value.0, si, channels, |xs|) == ts[w].output)
  {
    var ts := RoundsAfter(xs, prev, s0, ROUNDS).trials;
    SearchWinner(xs, prev, s0);
    WinnerIsFullRun(xs, prev, s0);
    var w := Winner(ts);
    var start := RoundsAfter(xs, prev, s0, w).state;
    DecodeCodesReproduces(out, start, TrialScalefactor(w, prev), xs, si, channels);
  }
}
