# QOA codec core in Dafny

This project models the codec engine of a C# port of QOA ("Quite OK Audio"),
the file `src/QOA.cs`, and proves properties of that model. QOA is a lossy
audio format:

- Each channel is predicted by a 4-tap sign-LMS filter.
- The residual of every sample is quantized to a 3-bit code.
- Twenty codes and a 4-bit scalefactor are packed into one 64-bit word (a
  *slice*).
- A frame holds up to 256 slices per channel, preceded by a frame header and
  a snapshot of each channel's predictor. A stream is an 8-byte file header
  followed by frames.

Everything is integer arithmetic, and the model keeps it exact.

## Modules

| module | file | contents |
|---|---|---|
| `QoaInt` | `int32.dfy` | C# `int` wrap-around (`Wrap32`), the `(short)` cast (`Wrap16`), `Sign`, `qoa_clamp`, `qoa_clamp_s16` |
| `QoaTables` | `tables.dfy` | quant, scalefactor, reciprocal and dequant tables; `qoa_div`; `QOA_FRAME_SIZE`; `qoa_max_frame_size` |
| `QoaLms` | `lms.dfy` | the predictor as a value (`LmsState`, `Prediction`, `Updated`) and as the class `Lms` that holds the two arrays of the `QOA_LMS` struct |
| `QoaWords` | `words.dfy` | big-endian 64-bit words and their bytes; the file header, frame header, predictor snapshot and slice word layouts, with their round trips |
| `QoaStream` | `stream.dfy` | the output stream (`ByteSink`, a byte sequence that writes append to) and the input stream (`ByteSource`, bytes plus a read position); `qoa_read_u64`, `qoa_write_u64` |
| `QoaEncodeSpec` | `encode_spec.dfy` | what the encoder computes, as functions: one sample, one trial, the 16-round scalefactor search, the slice loops, one frame, the whole stream |
| `QoaSample` | `sample.dfy` | encoding one sample with the predictor object |
| `QoaEncoder` | `encoder.dfy` | `qoa_encode_frame` and `qoa_encode` as methods over the class `Desc` (the `QOA_Desc` struct and its eight predictors), each proved against `QoaEncodeSpec` |
| `QoaDecodeSpec` | `decode_spec.dfy` | what the decoder computes, as functions over a byte sequence, with every exception as an `Error` value |
| `QoaDecoder` | `decoder.dfy` | `qoa_decode_header`, `qoa_decode_frame` and `qoa_decode` as methods, each proved against `QoaDecodeSpec` |
| `QoaRoundTrip` | `roundtrip.dfy` | what the decoder makes of what the encoder writes |

## How the source's behaviour is represented

- **Integers.** Dafny integers are unbounded. Every place where C# `int`
  arithmetic can overflow goes through `Wrap32`:
  - the predictor's dot product;
  - the weight update;
  - the squares of the weight penalty;
  - `v * reciprocal` in `qoa_div`.

  The `(short)` casts of the decoder go through `Wrap16`. The `ulong` rank of
  a trial is proved never to wrap: each sample adds less than 2^33, and a
  slice has at most 20 samples. So the rank is a `nat`, and the first trial
  always becomes the best one.
- **`qoa_div` as written.** The correction at src/QOA.cs:118 adds
  `Sign(v) - Sign(v)` and subtracts `2 * Sign(n)`. It is therefore not the
  round-away-from-zero step its comment names. The model computes exactly
  that (`QoaTables.Div`). `DivCases` gives its value case by case, and
  `DivNotSignPreserving` exhibits a positive input with a negative result,
  although line 118 is commented `round away from 0`. The model follows the
  statement, not the comment.
- **The predictor struct.** `QOA_LMS` is a struct whose two fields are array
  references, so copying it copies the references only. `Lms` is a class
  with two `const` array fields, and an assignment of the struct is an
  assignment of the object reference. Each trial of the scalefactor search
  therefore updates the channel's own arrays, so the trials are chained:
  - each trial starts from the state the previous trial left (`RoundsAfter`);
  - `best_lms = lms` stores the same object (`SearchSlice` returns
    `bestLms == lms`);
  - `qoa.lms[c] = best_lms` changes nothing;
  - the channel ends the slice in the state of the sixteenth trial
    (`SearchWinner`: `r.state == ts[15].state`).

  The slice word is still the winner's. `WinnerIsFullRun` and
  `DecoderReplaysWinner` show that a decoder starting from the state the
  winning trial started from reproduces that trial's output.
- **The descriptor.** `QOA_Desc` is a struct too, passed by value to
  `qoa_encode_frame` and `qoa_decode_frame`. Its `lms` field is an array
  reference, so every copy reaches the same eight predictors, and the
  frame coders' updates to them are visible to the caller. The class
  `QoaEncoder.Desc` models it: its `lms` is a `const` array of `Lms`
  objects whose arrays form `Repr`.
- **Search hint.** `prev_scalefactor` is a fresh all-zero array in every
  frame (`NoScalefactors`). Within a frame it is an `array<int>` that the
  slice loop updates.
- **Read past the end.** `qoa_read_u64` reads into a zeroed buffer and
  ignores the count `Stream.Read` returns. So bytes past the end read as
  zero, and the position stops at the end of the data (`Peek8`,
  `AfterRead`). A short read is not detected.
- **Header peek.** `qoa_decode_header` reads two words and then seeks back
  8 bytes. Each read moves the position by 8 or to the end of the data,
  whichever comes first, so the header leaves the stream at the position
  after the two reads minus 8. When at least 16 bytes remain, that is just
  after the 8-byte file header (`DecodeHeaderChecks`). With fewer, the
  position can end up elsewhere. A header of 8 bytes followed by 4 gives
  position 4. A seek back to before the start fails (`SeekBeforeBegin`).
- **Descriptor timing.** The decoder's descriptor is allocated in
  `qoa_decode_header` (src/QOA.cs:380). The model builds it only after all
  header checks pass; a failing call returns no descriptor in either case.
- **Decode runs one frame.** In `qoa_decode`, `frame_size` stays 0, so the
  `do … while` body runs exactly once. The output span starts at index 0 and
  is `20 * channels` long (src/QOA.cs:494):
  - `QoaDecodeSpec.Decode` decodes exactly one frame into that span;
  - a write past the span is `IndexOutOfRange`;
  - the rest of the buffer stays zero (`DecodeShape`);
  - the returned sample count is the first frame's length.

  The span therefore limits what can be decoded at all. `qoa_decode` succeeds
  only when the header declares at least 20 samples and the first frame holds
  at most 20 samples per channel (the contract of `QoaDecodeSpec.Decode`):
  - a header of 1 to 19 samples makes the span longer than the buffer, so the
    `Span` constructor fails with `SpanOutOfRange` before any frame is read
    (`ShortStreamSpanFails`);
  - a frame of more than 20 samples decodes its first slice of every channel
    and then fails with `IndexOutOfRange` on the first write of slice index 20,
    `decodedOutput[20 * channels]` (src/QOA.cs:459, 469;
    `LongFrameOverrunsSpan`, `SliceRowPastSpan`).

  The encoder's first frame holds `min(5120, samples)` samples per channel,
  so of its streams only those of exactly 20 samples decode. The loop is
  nevertheless commented `Decode all frames` (src/QOA.cs:491).
- **Runtime exceptions.** Two indexing failures of the C# runtime are
  errors of the model (`IndexOutOfRange`):
  - a frame header naming more than 8 channels;
  - a slice index past the span.

  So are `new short[n]` with a negative `n` (`NegativeLength`) and a span
  longer than the buffer (`SpanOutOfRange`).
- **Samples.** Samples are `int` values in the signed 16-bit range
  (`Int16`). The decoder's `(short)reconstructed` is the identity there,
  because `reconstructed` is already clamped.

## Model

| member | source | states |
|---|---|---|
| QoaInt.Wrap32 | src/QOA.cs:91 | the result is a 32-bit signed value congruent to the input modulo 2^32, and the input itself when it already fits |
| QoaInt.Wrap16 | src/QOA.cs:443 | the `(short)` cast: a 16-bit signed value congruent to the input modulo 2^16, the input itself when it fits |
| QoaInt.Sign | src/QOA.cs:122-133 | -1, 1 or 0 exactly when the value is negative, positive or zero |
| QoaInt.Clamp | src/QOA.cs:135-140 | with `min <= max` the result lies in [min, max]; it is `v` when `v` is inside, `min` below and `max` above |
| QoaInt.ClampS16 | src/QOA.cs:143-151 | the result is in [-32768, 32767], is `v` when `v` is in range, and saturates at either end |
| QoaTables.Quantize | src/QOA.cs:48-53 | a clamped ratio in [-8, 8] maps to a code in 0..7, odd exactly for negative ratios |
| QoaTables.Dequantize | src/QOA.cs:65-83 | a dequantized value is at most 14336 in magnitude and negative exactly for odd codes |
| QoaTables.DequantizeIsTable | src/QOA.cs:65-83 | `Dequantize` agrees entry by entry with the 16x8 dequant table |
| QoaTables.RoundedQuotientWraps | src/QOA.cs:117 | the first step of `qoa_div` is the 32-bit wrapped `v * reciprocal + 2^15`, arithmetically shifted right by 16 |
| QoaTables.Div | src/QOA.cs:114-120 | `qoa_div` is the rounded quotient n minus `2 * Sign(n)`: the two `Sign(v)` terms cancel |
| QoaTables.DivCases | src/QOA.cs:118 | `qoa_div` as written: a rounded quotient n with abs(n) >= 2 moves 2 towards zero, and 1 and -1 swap sign |
| QoaTables.DivFlipsUnitQuotient | src/QOA.cs:114-120 | `qoa_div(1, 0)` is -1 |
| QoaTables.DivNotSignPreserving | src/QOA.cs:118 | some positive residual has a negative `qoa_div` |
| QoaTables.FrameSize | src/QOA.cs:42-45 | `QOA_FRAME_SIZE` is `8 + 16 * channels + 8 * slices * channels` for in-range arguments, at most 16520 for 8 channels and 256 slices |
| QoaTables.MaxFrameSize | src/QOA.cs:359-362 | `qoa_max_frame_size` is `8 + 2064 * channels` and fits the 16-bit frame-size field |
| QoaLms.Prediction | src/QOA.cs:85-95 | the prediction, the wrapped dot product shifted right by 13, lies in [-2^18, 2^18) |
| QoaLms.Updated | src/QOA.cs:97-112 | history shifts left by one with the new sample last; each weight moves by `±(residual >> 4)` (sign from the old history entry) modulo 2^32 |
| QoaLms.UpdatedAt | src/QOA.cs:97-112 | entry by entry: new weight = `Wrap32(old weight ± (residual >> 4))`, `history'[k] == history[k+1]`, `history'[3] == sample` |
| QoaLms.UpdatedWeightsExact | src/QOA.cs:103 | without overflow the weight changes by exactly `-(residual >> 4)` if the old history entry is negative, `+(residual >> 4)` otherwise |
| QoaLms.UpdatedKeepsHistory16 | src/QOA.cs:106-111 | a 16-bit history stays 16-bit after an update with a 16-bit sample |
| QoaLms.Lms.constructor | src/QOA.cs:3-11 | two fresh, distinct 4-element arrays of zeros |
| QoaLms.Lms.Predict | src/QOA.cs:85-95 | the accumulator loop returns `Prediction` of the object's state |
| QoaLms.Lms.Update | src/QOA.cs:97-112 | the two in-place loops leave the arrays holding `Updated` of the old state |
| QoaWords.BytesOf | src/QOA.cs:164-176 | a word becomes 8 bytes, most significant first |
| QoaWords.ReadWriteRoundTrip | src/QOA.cs:153-176 | reading back the 8 bytes written for `v` gives `v` |
| QoaWords.WriteReadRoundTrip | src/QOA.cs:153-176 | writing the word read from 8 bytes gives those bytes |
| QoaWords.WordBytesAppend | src/QOA.cs:175 | the bytes of consecutive words are the concatenation of each word's bytes |
| QoaWords.FileHeader | src/QOA.cs:180 | the file header holds the magic `0x716f6166` in its top 32 bits and the sample count in its low 32 |
| QoaWords.UnpackFrameHeader | src/QOA.cs:413-417 | the four frame-header fields are below 2^8, 2^24, 2^16 and 2^16 |
| QoaWords.FrameHeaderRoundTrip | src/QOA.cs:192-197 | the header packed from in-range channels, samplerate, frame length and frame size unpacks (lines 413-417) to the same four values |
| QoaWords.Low16 | src/QOA.cs:208 | masking with 0xffff gives a value below 2^16 congruent to the input |
| QoaWords.Pack16 | src/QOA.cs:205-214 | packing n <= 4 masked values leaves the word below 2^(16n) |
| QoaWords.PackFour | src/QOA.cs:205-214 | the packed snapshot word is the four masked values at bit offsets 48, 32, 16, 0 |
| QoaWords.Unpack16 | src/QOA.cs:441-447 | unpacking gives n values in the signed 16-bit range |
| QoaWords.SnapshotRoundTrip | src/QOA.cs:205-216 | unpacking (lines 441-447) a packed snapshot word gives each value cast to `short` |
| QoaWords.SnapshotRoundTrip16 | src/QOA.cs:205-216 | values already in the signed 16-bit range survive the snapshot word unchanged |
| QoaWords.CodesValue | src/QOA.cs:288 | `k` 3-bit codes shifted in one by one form a value below 8^k |
| QoaWords.SliceAcc | src/QOA.cs:249 | the slice accumulator after `k` codes is the scalefactor times 8^k plus the codes' value, and stays below 16 * 8^k |
| QoaWords.SliceAccNext | src/QOA.cs:288 | one `slice = (slice << 3) | quantized` step extends the accumulator by one code, without wrap-around |
| QoaWords.SliceWordLayout | src/QOA.cs:308 | after the final left shift the scalefactor sits in the top 4 bits and the codes fill the next bits, most significant first, with zeros below |
| QoaWords.SliceScalefactor | src/QOA.cs:457 | the scalefactor read from a slice word is in 0..15 |
| QoaWords.SliceCodes | src/QOA.cs:465 | reading n codes gives n values in 0..7 |
| QoaWords.TopCodesPlaced | src/QOA.cs:458-470 | codes placed below a 4-bit gap read back in order by repeated `>> 61` and `<<= 3` |
| QoaWords.SliceRoundTrip | src/QOA.cs:457-465 | decoding the written slice word gives back the same scalefactor and the same codes in order |
| QoaStream.ByteSink.Write | src/QOA.cs:175 | writing appends the buffer's bytes to the stream |
| QoaStream.ByteSource.Read | src/QOA.cs:156 | a read copies what is left (at most the buffer's length), advances the position by that count and leaves the rest of the buffer as it was |
| QoaStream.ByteSource.SeekBack8 | src/QOA.cs:391 | `Seek(-8)` succeeds exactly when the position is at least 8, and then moves it back by 8 |
| QoaStream.ReadU64 | src/QOA.cs:153-162 | the method returns `ReadWord` of the data at the old position and advances as `AfterRead` says |
| QoaStream.WriteU64 | src/QOA.cs:164-176 | the stream grows by `BytesOf(v)` |
| QoaEncodeSpec.WeightsPenalty | src/QOA.cs:266-275 | the weight penalty (wrapped sum of squares, shifted by 18, minus 0x8ff, floored at 0) lies in [0, 5888] |
| QoaEncodeSpec.SampleStep | src/QOA.cs:254-281 | one sample under one scalefactor gives a code in 0..7, a 16-bit reconstruction and a cost below 2^33 |
| QoaSample.EncodeSample | src/QOA.cs:254-281 | the method's code, dequantized value, reconstruction and cost are those of `SampleStep` on the predictor's state |
| QoaEncodeSpec.SampleCost | src/QOA.cs:277-280 | the per-sample cost is at most 4329504769, so 20 of them never wrap the `ulong` rank |
| QoaEncodeSpec.FullRun | src/QOA.cs:252-289 | a trial run to the end codes every sample: as many codes (0..7) and outputs as samples |
| QoaEncodeSpec.PrunedRun | src/QOA.cs:252-289 | the trial with pruning is complete exactly when it coded every sample; complete means rank <= budget, stopped means rank > budget |
| QoaEncodeSpec.PrunedRunMatchesFull | src/QOA.cs:282-285 | pruning changes nothing when the full trial stays within the budget; otherwise the pruned trial stops early, above the budget, with a prefix of the full trial's codes |
| QoaEncoder.PrunedRunStep | src/QOA.cs:280-288 | one loop pass: a sample that pushes the rank past the budget stops the trial before the update; otherwise the trial continues from the updated predictor |
| QoaEncodeSpec.TrialScalefactor | src/QOA.cs:243 | the k-th trial's scalefactor `(k + prev) % 16` is in 0..15 |
| QoaEncodeSpec.VisitOrderIsPermutation | src/QOA.cs:238-243 | the search starts at the previous winner and visits each of the 16 scalefactors exactly once |
| QoaEncodeSpec.Best | src/QOA.cs:232 | the best rank of the trials so far never exceeds `ulong.MaxValue`, its starting value |
| QoaEncodeSpec.Winner | src/QOA.cs:291-297 | the winning trial index is -1 (none) or a valid index |
| QoaEncodeSpec.WinnerIsFirstMinimal | src/QOA.cs:291-297 | the winner has the least rank, every earlier trial has a strictly greater rank (the first wins ties), and no winner means the best rank stayed at `ulong.MaxValue` |
| QoaEncodeSpec.WinnerBeatItsBound | src/QOA.cs:291 | the winner's rank is strictly below the best rank of the trials before it |
| QoaEncodeSpec.WinnerExists | src/QOA.cs:291-297 | a first trial ranked below `ulong.MaxValue` makes a winner, and it wins its own round |
| QoaEncodeSpec.WinnerIsComplete | src/QOA.cs:282-297 | the winning trial coded all `slice_len` samples |
| QoaEncodeSpec.PrunedNeverWins | src/QOA.cs:282-297 | a trial stopped by the pruning `break` is never the winner |
| QoaEncodeSpec.RoundsAfter | src/QOA.cs:238-298 | k rounds of the search give k trials, each started from the state the previous one left |
| QoaEncodeSpec.RoundsRanAgainstBest | src/QOA.cs:238-298 | every round is pruned against the best rank before it, and the first round ranks below `ulong.MaxValue` |
| QoaEncodeSpec.Search | src/QOA.cs:228-308 | the search returns a scalefactor in 0..15 and a well-formed predictor state |
| QoaEncodeSpec.SearchWinner | src/QOA.cs:238-309 | the search's scalefactor is the winner's, its word holds that scalefactor and the winner's complete code sequence, and the channel keeps the sixteenth trial's state |
| QoaRoundTrip.WinnerIsFullRun | src/QOA.cs:282-297 | the winning trial equals the unpruned trial from the state its round started in |
| QoaEncodeSpec.ChannelSamples | src/QOA.cs:252-254 | a channel's strided samples from an interleaved buffer: exactly the requested number |
| QoaEncodeSpec.SliceLen | src/QOA.cs:225 | the slice length is 20, or the frame samples left when fewer remain |
| QoaEncodeSpec.SliceSamples | src/QOA.cs:225-227 | the samples of one slice of one channel: `slice_len` of them, between 1 and 20 |
| QoaEncodeSpec.SliceLoops | src/QOA.cs:221-311 | the nested slice loops keep eight well-formed channel states |
| QoaEncodeSpec.NoScalefactors | src/QOA.cs:189 | each frame's search hints start as eight zeros |
| QoaEncodeSpec.FrameSlices | src/QOA.cs:187 | `slices` is the least count with `slices * 20 >= frame_len`, and at most 256 for a full frame |
| QoaEncodeSpec.SnapshotWords | src/QOA.cs:200-217 | two snapshot words per channel |
| QoaEncodeSpec.EncodeFrame | src/QOA.cs:183-312 | a frame's words start with its frame header and number at least the header plus two snapshot words per channel; states stay well formed |
| QoaEncodeSpec.InitialStates | src/QOA.cs:329-344 | the first `channels` predictors become history 0 and weights {0, 0, -8192, 16384}; the others are untouched |
| QoaEncodeSpec.FrameLen | src/QOA.cs:353 | each frame has 5120 samples per channel, or all that remain, and never passes the total |
| QoaEncodeSpec.FrameSamples | src/QOA.cs:354 | the frame's span holds `channels * frame_len` samples |
| QoaEncodeSpec.Frames | src/QOA.cs:350-356 | the frame loop emits the frame header of each frame first |
| QoaEncodeSpec.Encode | src/QOA.cs:314-357 | rejected exactly when samples, samplerate or channels are 0, samplerate > 0xffffff or channels > 8; otherwise the output starts with the file header and the first frame header |
| QoaEncodeSpec.EncodeAccepted | src/QOA.cs:329-356 | an accepted encode is the file header followed by the frames encoded from the reset predictors |
| QoaEncodeSpec.FramesStep | src/QOA.cs:351-355 | the frames from an index are the next frame followed by the frames after it, the predictor carried across |
| QoaEncoder.Desc.States | src/QOA.cs:19-22 | the eight predictors' states, each well formed |
| QoaEncoder.Desc.constructor | src/QOA.cs:14-28 | a descriptor with the given fields and eight fresh zeroed predictors |
| QoaEncoder.ChannelOnStride | src/QOA.cs:226-227 | the loop `si = slice_start; si < slice_end; si += channels` visits exactly the channel's samples of the slice |
| QoaEncoder.TrialSample | src/QOA.cs:254-288 | one pass of the trial loop either stops (rank above the best) or extends codes, rank and slice accumulator as the trial's specification says |
| QoaEncoder.RunTrial | src/QOA.cs:248-289 | one trial leaves the rank, the slice accumulator and the predictor state of `PrunedRun` |
| QoaEncoder.BestSnoc | src/QOA.cs:291-297 | a new trial replaces the best exactly when its rank is strictly lower |
| QoaEncoder.SearchedResult | src/QOA.cs:300-308 | after 16 rounds the kept best slice, shifted left by `3 * (20 - slice_len)`, is the search's word, with its scalefactor and state |
| QoaEncoder.SearchSlice | src/QOA.cs:232-302 | the scalefactor search returns the word, scalefactor and predictor state of `Search`, and `best_lms` is the channel's own predictor |
| QoaEncoder.SearchChannel | src/QOA.cs:223-306 | one channel's slice is searched as `Search` on that slice's samples |
| QoaEncoder.EncodeChannelSlice | src/QOA.cs:223-310 | one inner-loop pass writes the search's word, updates that channel's predictor and hint, and is the first step of `SliceLoops` |
| QoaEncoder.WriteSnapshot | src/QOA.cs:200-216 | one channel's history word then weights word are appended |
| QoaEncoder.WriteSnapshots | src/QOA.cs:200-217 | the snapshot loop appends `SnapshotWords` of the current states |
| QoaEncoder.EncodeSliceRow | src/QOA.cs:223-310 | a pass of the outer slice loop keeps the output equal to the words `SliceLoops` has produced so far |
| QoaEncoder.EncodeSlices | src/QOA.cs:219-311 | the slice loops append `SliceLoops`'s words and leave its predictor states |
| QoaEncoder.WriteFrameStart | src/QOA.cs:185-217 | the frame header then the snapshots of the states at frame start are appended |
| QoaEncoder.EncodeFrame | src/QOA.cs:183-312 | `qoa_encode_frame` appends the words of `EncodeFrame` and leaves its predictor states |
| QoaEncoder.ResetPredictor | src/QOA.cs:333-343 | one predictor becomes history 0, weights {0, 0, -8192, 16384} |
| QoaEncoder.ResetPredictors | src/QOA.cs:329-344 | the reset loop gives `InitialStates` of the old states |
| QoaEncoder.EncodeNextFrame | src/QOA.cs:353-355 | one frame-loop pass extends the output by the next frame of `Frames` |
| QoaEncoder.EncodeFrames | src/QOA.cs:350-356 | the frame loop appends the words of `Frames` from index 0 and leaves its states |
| QoaEncoder.EncodeStream | src/QOA.cs:329-356 | after the reset, the file header and then all frames are written |
| QoaEncoder.Encode | src/QOA.cs:314-357 | `qoa_encode` fails exactly on an invalid descriptor, writing nothing; otherwise it writes the bytes of `QoaEncodeSpec.Encode` and leaves its predictor states |
| QoaStream.ReadWord | src/QOA.cs:153-163 | the word read is the one whose 8 big-endian bytes are the bytes read at the position |
| QoaStream.Peek8 | src/QOA.cs:155-156 | the 8 bytes read: what is left of the data, then zeros |
| QoaStream.AfterRead | src/QOA.cs:156 | a read advances by 8, or stops at the end of the data |
| QoaDecodeSpec.DecodeHeader | src/QOA.cs:364-401 | an accepted header has 1..255 channels, samplerate 1..2^24-1 and 1..2^32-1 samples |
| QoaDecodeSpec.DecodeHeaderChecks | src/QOA.cs:373-398 | the header is accepted exactly when the magic matches, samples != 0, and channels and samplerate of the first frame header are != 0; it then describes those fields and, when at least 16 bytes remain, rewinds to just after the file header |
| QoaDecodeSpec.DecodeEncodedHeader | src/QOA.cs:373-398 | a file header followed by a frame header with in-range fields decodes to exactly those fields, position 8 |
| QoaDecodeSpec.MaxTotalSamples | src/QOA.cs:419-421 | `max_total_samples`, in unsigned 32-bit arithmetic, is below 2^32 |
| QoaDecodeSpec.ReadSnapshots | src/QOA.cs:437-448 | reading the snapshots either fails (channel index 8 or more) or keeps eight well-formed states within the data |
| QoaDecodeSpec.DecodeCodes | src/QOA.cs:462-473 | decoding a slice's codes keeps the output's length and a well-formed state |
| QoaDecodeSpec.Reconstruct | src/QOA.cs:464-472 | the decoder's reconstruction of n codes: n samples in the signed 16-bit range |
| QoaDecodeSpec.Scatter | src/QOA.cs:469 | strided writes into the span keep its length |
| QoaDecodeSpec.DecodeCodesScatters | src/QOA.cs:462-473 | decoding codes is reconstructing them, then writing the samples at stride `channels` |
| QoaDecodeSpec.ScatterInRange | src/QOA.cs:469 | the strided writes succeed exactly when every index lies inside the span |
| QoaDecodeSpec.StridedLength | src/QOA.cs:462 | the n strided indices lie in the span exactly when the last one does |
| QoaDecodeSpec.ScatterWrites | src/QOA.cs:469 | after the writes, the strided positions hold the samples; every other position keeps its value, both those before the first index and those of the other channels between and after the strided ones |
| QoaDecodeSpec.ReconstructInvertsEncoder | src/QOA.cs:464-472 | from the same predictor state, decoding the encoder's codes gives exactly the encoder's reconstructed samples and final state |
| QoaDecodeSpec.DecodeCodesReproduces | src/QOA.cs:462-473 | decoding an encoded slice succeeds exactly when the last index fits the span; it then writes the encoder's samples at the strided positions, leaves the other channels' samples and everything before the first index unchanged, and ends in the encoder's predictor state |
| QoaRoundTrip.DecoderReplaysWinner | src/QOA.cs:464-472 | from the state the winning trial started in, the written slice word decodes to the winner's samples and state |
| QoaDecodeSpec.SliceSampleCount | src/QOA.cs:460 | a decoded slice has 1 to 20 samples per channel |
| QoaDecodeSpec.DecodeSlice | src/QOA.cs:455-473 | decoding one slice keeps the position inside the data, eight well-formed states and the span's length |
| QoaDecodeSpec.SliceStartSplits | src/QOA.cs:459 | for a channel `c < channels`, `slice_start` is sample `sample_index` of channel `c` in the interleaved span: dividing by `channels` gives the sample index, and the remainder is the channel |
| QoaDecodeSpec.SliceEndSplits | src/QOA.cs:460 | for a channel `c < channels` and a slice inside the frame, `slice_end` is channel `c`'s sample 1 to 20 samples past `sample_index`, and never past `samples` |
| QoaDecodeSpec.SliceOutcomeUpdates | src/QOA.cs:469-472 | a decoded slice replaces channel `c`'s predictor state and the span, moves the stream past the slice word, and leaves the predictors of every other channel unchanged |
| QoaDecodeSpec.DecodeSlices | src/QOA.cs:451-475 | the slice loops keep the position inside the data and the span's length |
| QoaDecodeSpec.DecodeFrame | src/QOA.cs:403-478 | a decoded frame keeps the span's length and has `frame_len < 2^16` |
| QoaDecodeSpec.DecodeFrameChecks | src/QOA.cs:423-434 | channel mismatch, samplerate mismatch and `samples * channels > max_total_samples` fail in that order; a decoded frame passed all three and reports `samples` |
| QoaDecodeSpec.DecodeFrameSlices | src/QOA.cs:436-477 | once the three header checks pass, a frame fails with the snapshot error or the slice error, and otherwise is the slice loops' outcome with `frame_len = samples` |
| QoaDecodeSpec.BufferLen | src/QOA.cs:485 | `(int)(samples * channels)`: a 32-bit value, the product itself when it fits |
| QoaDecodeSpec.SpanLen | src/QOA.cs:494 | the span length is `20 * channels` |
| QoaDecodeSpec.DecodeOutcome | src/QOA.cs:492-502 | a decoded frame makes the buffer its span followed by zeros, and the sample count the frame's length |
| QoaDecodeSpec.DecodeShape | src/QOA.cs:480-503 | a successful decode has a buffer of `(int)(samples * channels)` values: one frame's samples in the first `20 * channels`, zeros after; the sample count is that frame's length |
| QoaDecodeSpec.DecodeFailures | src/QOA.cs:485-495 | a negative buffer length or a span longer than the buffer fails; otherwise decoding succeeds exactly when the first frame does, with its error |
| QoaDecodeSpec.FirstSliceFits | src/QOA.cs:455-473 | with a span of `20 * channels`, the first slice (sample index 0) of any channel decodes without error |
| QoaDecodeSpec.SliceRowPastSpan | src/QOA.cs:459-469 | with a span of `20 * channels` and more than 20 samples, the slice at sample index 20 fails with `IndexOutOfRange` |
| QoaDecodeSpec.LongFrameOverrunsSpan | src/QOA.cs:451-473 | with a span of `20 * channels`, the slice loops of a frame of more than 20 samples fail with `IndexOutOfRange` |
| QoaDecodeSpec.DecodeFrameFitsSpan | src/QOA.cs:403-478 | a frame decoded into a span of `20 * channels` has `frame_len` at most 20 |
| QoaDecodeSpec.SpanNeedsOneSlice | src/QOA.cs:485-494 | for 1..255 channels and fewer than 20 samples, the buffer `samples * channels` is shorter than the span `20 * channels` |
| QoaDecodeSpec.ShortStreamSpanFails | src/QOA.cs:485-494 | a header of 1 to 19 samples fails with `SpanOutOfRange` before any frame is read |
| QoaDecodeSpec.DecodeStream | src/QOA.cs:485-502 | the buffer has `(int)(samples * channels)` values, channels and samplerate are the header's, and success needs at least 20 declared samples and a first frame of at most 20 |
| QoaDecodeSpec.Decode | src/QOA.cs:480-503 | a successful `qoa_decode` had an accepted header declaring at least 20 samples, keeps its channels and samplerate, and reports at most 20 samples |
| QoaDecoder.DecodeHeader | src/QOA.cs:364-401 | the method agrees with `QoaDecodeSpec.DecodeHeader`: same errors; on success a fresh descriptor with zeroed predictors and the stream at the returned position |
| QoaDecoder.UnpackSnapshot | src/QOA.cs:441-447 | the loop stores the sign-extended 16-bit fields of the history and weights words |
| QoaDecoder.ReadSnapshot | src/QOA.cs:437-448 | one pass of the snapshot loop: fails with `IndexOutOfRange` exactly at channel index 8, otherwise advances the specification by one channel |
| QoaDecoder.ReadSnapshots | src/QOA.cs:437-448 | the snapshot loop agrees with `QoaDecodeSpec.ReadSnapshots` on errors, position and states |
| QoaDecoder.DecodeSample | src/QOA.cs:464-472 | one sample: writes the clamped prediction plus dequantized code and updates the predictor when the index lies in the span, otherwise `IndexOutOfRange` |
| QoaDecoder.DecodeStep | src/QOA.cs:462-473 | one pass of the sample loop advances the code word by 3 bits and the index by `channels` |
| QoaDecoder.DecodeSliceCodes | src/QOA.cs:462-473 | the sample loop agrees with `DecodeCodes` on errors, the span and the predictor, and leaves the buffer past the span alone |
| QoaDecoder.DecodeChannelCodes | src/QOA.cs:464-472 | decoding into `qoa.lms[c]` changes only that channel's state |
| QoaDecoder.DecodeSlice | src/QOA.cs:455-473 | one inner-loop pass agrees with `QoaDecodeSpec.DecodeSlice` |
| QoaDecoder.DecodeSliceRow | src/QOA.cs:453-474 | one outer-loop pass decodes a slice of every channel as `DecodeSlices` does |
| QoaDecoder.DecodeSliceLoops | src/QOA.cs:451-475 | the slice loops agree with `DecodeSlices` on errors, position, states and span |
| QoaDecoder.DecodeFrame | src/QOA.cs:403-478 | `qoa_decode_frame` agrees with `QoaDecodeSpec.DecodeFrame` on errors, `frame_len`, position, states and span |
| QoaDecoder.DecodeFrameBody | src/QOA.cs:436-478 | after the header checks, the method fails exactly as the snapshot reads or the slice loops of the specification fail, and otherwise leaves the stream, predictors and span where the slice loops end; the buffer past the span is untouched |
| QoaDecoder.DecodeIntoBuffer | src/QOA.cs:492-498 | the single loop pass leaves the zeroed buffer holding the frame's span followed by zeros |
| QoaDecoder.DecodeStream | src/QOA.cs:484-500 | allocation, span and frame agree with `QoaDecodeSpec.DecodeStream` |
| QoaDecoder.Decode | src/QOA.cs:480-503 | `qoa_decode` agrees with `QoaDecodeSpec.Decode` on errors, the sample buffer and the returned description |
| QoaRoundTrip.ReadWordAt | src/QOA.cs:153-162 | reading the i-th word of written words gives that word and advances by 8 |
| QoaRoundTrip.DecodeHeaderOfWords | src/QOA.cs:373-398 | a stream that starts with the encoder's file header and frame header decodes to the encoder's description, at position 8 |
| QoaRoundTrip.DecodeHeaderOfEncoded | src/QOA.cs:364-401 | the header of every accepted encode decodes to the same channels, samplerate and samples |
| QoaRoundTrip.MaxTotalSamplesOf | src/QOA.cs:419-421 | for a frame size from `QOA_FRAME_SIZE(channels, slices)` the decoder's capacity is `slices * channels * 20` |
| QoaRoundTrip.EncoderFramePassesChecks | src/QOA.cs:431 | the encoder's frame header unpacks to its own fields, and its sample count never exceeds the decoder's capacity |
| QoaRoundTrip.RestoredState | src/QOA.cs:439-447 | a snapshot read back restores 16-bit history exactly and each weight cast to `short` |
| QoaRoundTrip.SnapshotsReadBack | src/QOA.cs:437-448 | the decoder reads the encoder's snapshots (lines 200-217) back into the same channels, consuming 16 bytes per channel |

## Left out

- `src/WavHelper.cs`, and `WriteWav`, `DecodeToWav` and `DecodeHeaderToText` (src/QOA.cs:505-545). These are WAV container I/O and text formatting, not codec logic.
- `clitool/Program.cs` is not part of this model. It handles command-line parsing and console output.
- The test files are not part of this model. They are golden-file comparisons against sample audio.
- Real `Stream` behaviour is not modelled. A stream is a byte sequence, read with a position and written by appending. `Read` never returns short except at the end of the data.
- The `size` parameters of `qoa_decode_header` and `qoa_decode` are not modelled. They are unused because the checks that read them are commented out (src/QOA.cs:366-369, 407-410).
- `encoded_size`, `num_frames`, `num_slices` and `out_len` are not modelled (src/QOA.cs:314, 322-327). They are computed or passed but never read.
- Exception messages are not modelled. Each exception is an `Error` constructor; the C# runtime's own exceptions are listed under "How the source's behaviour is represented".
- QoaEncoder.Encode, QoaEncodeSpec.Encode: require `channels * samples <= |sampleData|` for a valid descriptor. The source would instead throw from the `ReadOnlySpan` constructor on a short buffer, and an array of 2^31 or more elements cannot exist in the runtime.
- QoaEncoder.Encode: the ghost `Repr` of the descriptor assumes the eight predictors own sixteen distinct arrays. `new QOA_Desc()` creates them that way, but a caller could build a `QOA_Desc` whose predictors share arrays; that aliasing is not modelled.
- QoaDecoder.Decode: does not state the predictor states left in the returned descriptor, only its channels, samplerate, sample count and validity.
- QoaDecodeSpec.Decode: decodes the one frame the source's loop runs, and succeeds only for streams of at least 20 declared samples whose first frame holds at most 20. A lemma that decoding an encoded stream gives back the encoder's samples is therefore stated per slice (`DecodeCodesReproduces`, `DecoderReplaysWinner`), not for the whole stream.
