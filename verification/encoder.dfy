/**
 * The encoder as the source runs it (src/QOA.cs:178-357): `QOA_Desc` with
 * its eight `QOA_LMS` slots, the trial loop, the scalefactor search, one
 * frame and the whole stream. Every method is proved to write exactly the
 * words of the matching function of `QoaEncodeSpec` and to leave the
 * predictors in the state that function computes.
 */
module QoaEncoder {
  import opened QoaInt
  import opened QoaTables
  import opened QoaWords
  import opened QoaLms
  import opened QoaEncodeSpec
  import opened QoaStream
  import opened QoaSample

  /** Two predictors that share no array. */
  ghost predicate Separate(a: Lms, b: Lms) {
    a.history != b.history && a.history != b.weights &&
    a.weights != b.history && a.weights != b.weights
  }

  /** `QOA_Desc` (src/QOA.cs:14-20): the stream parameters and one predictor per channel. */
  class Desc {
    var channels: U32
    var samplerate: U32
    var samples: U32
    const lms: array<Lms>

    /** The arrays of all eight predictors. */
    ghost const Repr: set<array<int>>

    /** Eight predictors, no two of which share an array, whose arrays are `Repr`. */
    ghost predicate Valid()
      reads lms
    {
      lms.Length == MAX_CHANNELS &&
      (forall c :: 0 <= c < MAX_CHANNELS ==> lms[c].Valid() && lms[c].history in Repr && lms[c].weights in Repr) &&
      (forall c, d :: 0 <= c < MAX_CHANNELS && 0 <= d < MAX_CHANNELS && c != d ==> Separate(lms[c], lms[d]))
    }

    /** The predictor states of the eight channels. */
    ghost function States(): (s: seq<LmsState>)
      reads lms, Repr
      requires Valid()
      ensures StatesOk(s)
      ensures forall c :: 0 <= c < MAX_CHANNELS ==> s[c] == lms[c].State()
    {
      seq(MAX_CHANNELS, c requires 0 <= c < MAX_CHANNELS && Valid() reads lms, Repr =>
        lms[c].State())
    }

    /** A descriptor with eight fresh zeroed predictors. */
    constructor (channels: U32, samplerate: U32, samples: U32)
      ensures this.channels == channels && this.samplerate == samplerate && this.samples == samples
      ensures Valid() && fresh(lms) && fresh(Repr)
      ensures States() == seq(MAX_CHANNELS, _ => ZERO_STATE)
    {
      this.channels := channels;
      this.samplerate := samplerate;
      this.samples := samples;
      var slots: seq<Lms> := [];
      while |slots| < MAX_CHANNELS
        invariant |slots| <= MAX_CHANNELS
        invariant forall c :: 0 <= c < |slots| ==>
          slots[c].Valid() && fresh(slots[c].history) && fresh(slots[c].weights) && slots[c].State() == ZERO_STATE
        invariant forall c, d :: 0 <= c < |slots| && 0 <= d < |slots| && c != d ==> Separate(slots[c], slots[d])
      {
        var slot := new Lms();
        slots := slots + [slot];
      }
      lms := new Lms[MAX_CHANNELS](c requires 0 <= c < MAX_CHANNELS => slots[c]);
      Repr := (set c | 0 <= c < MAX_CHANNELS :: slots[c].history) + (set c | 0 <= c < MAX_CHANNELS :: slots[c].weights);
      new;
      assert States() == seq(MAX_CHANNELS, _ => ZERO_STATE);
    }
  }

  // ----- One trial -----

  /** A trial after `rank`, `codes` and `outs` were accumulated in front of it. */
  ghost function Extend(rank: nat, codes: seq<int>, outs: seq<int>, t: Trial): Trial {
    Trial(rank + t.rank, codes + t.codes, t.state, t.complete, outs + t.output)
  }

  /** A trial that encoded `st` and went on with `rest`. */
  function Cons(st: Step, rest: Trial): Trial {
    Trial(st.cost + rest.rank, [st.quantized] + rest.codes, rest.state, rest.complete,
      [st.reconstructed] + rest.output)
  }

  /** One step of `PrunedRun`: the first sample either ends the trial or is consed onto the rest. */
  lemma PrunedRunStep(cur: LmsState, scalefactor: int, ys: seq<Int16>, budget: int, st: Step)
    requires cur.Wf() && 0 <= scalefactor < 16 && ys != [] && budget >= 0
    requires st == SampleStep(cur, ys[0], scalefactor)
    ensures PrunedRun(cur, scalefactor, ys, budget) ==
        if st.cost > budget then Trial(st.cost, [], cur, false, [])
        else Cons(st, PrunedRun(After(cur, st), scalefactor, ys[1..], budget - st.cost))
  {
  }

  /** Nothing accumulated yet. */
  lemma ExtendEmpty(t: Trial)
    ensures Extend(0, [], [], t) == t
  {
    assert [] + t.codes == t.codes && [] + t.output == t.output;
  }

  /** A consed sample moves from the trial to the accumulated prefix. */
  lemma ExtendCons(rank: nat, codes: seq<int>, outs: seq<int>, st: Step, rest: Trial)
    ensures Extend(rank, codes, outs, Cons(st, rest)) ==
      Extend(rank + st.cost, codes + [st.quantized], outs + [st.reconstructed], rest)
  {
    SeqAssoc(codes, [st.quantized], rest.codes);
    SeqAssoc(outs, [st.reconstructed], rest.output);
  }

  /** A trial that ended at once leaves the accumulated prefix as it is. */
  lemma ExtendStopped(rank: nat, codes: seq<int>, outs: seq<int>, cost: nat, state: LmsState)
    ensures Extend(rank, codes, outs, Trial(cost, [], state, false, [])) ==
      Trial(rank + cost, codes, state, false, outs)
  {
    assert codes + [] == codes && outs + [] == outs;
  }

  /** Appending a code to the slice word shifts it left by three bits and ORs the code in. */
  lemma SlicePush(scalefactor: int, codes: seq<int>, q: int)
    requires 0 <= scalefactor < 16 && IsCodes(codes) && |codes| < 20 && 0 <= q < 8
    ensures IsCodes(codes + [q]) && SliceAcc(scalefactor, codes + [q]) == (SliceAcc(scalefactor, codes) * 8) % TWO_64 + q
  {
    assert (codes + [q])[..|codes|] == codes;
  }

  /** After the last sample, the trial is what has been emitted. */
  lemma TrialEnd(t: Trial, s: LmsState, scalefactor: int, rest: seq<Int16>, bestRank: nat,
                 rank: nat, codes: seq<int>, outs: seq<int>)
    requires s.Wf() && 0 <= scalefactor < 16 && rest == [] && rank <= bestRank
    requires t == Extend(rank, codes, outs, PrunedRun(s, scalefactor, rest, bestRank - rank))
    ensures t.rank == rank && t.codes == codes && t.state == s
  {
    assert codes + [] == codes;
  }

  /** A sample whose cost takes the rank past `bestRank` ends the trial where it stands. */
  lemma TrialStops(target: Trial, rank: nat, codes: seq<int>, outs: seq<int>, cur: LmsState, scalefactor: int,
                   rest: seq<Int16>, bestRank: nat, st: Step)
    requires cur.Wf() && 0 <= scalefactor < 16 && rest != [] && rank <= bestRank
    requires target == Extend(rank, codes, outs, PrunedRun(cur, scalefactor, rest, bestRank - rank))
    requires st == SampleStep(cur, rest[0], scalefactor) && rank + st.cost > bestRank
    ensures target == Trial(rank + st.cost, codes, cur, false, outs)
  {
    PrunedRunStep(cur, scalefactor, rest, bestRank - rank, st);
    ExtendStopped(rank, codes, outs, st.cost, cur);
  }

  /** A sample within the budget moves from the rest of the trial to its emitted prefix. */
  lemma TrialContinues(target: Trial, rank: nat, codes: seq<int>, outs: seq<int>, cur: LmsState, scalefactor: int,
                       rest: seq<Int16>, bestRank: nat, st: Step,
                       next: LmsState, newRank: nat, codes': seq<int>, outs': seq<int>)
    requires cur.Wf() && 0 <= scalefactor < 16 && rest != [] && rank <= bestRank
    requires target == Extend(rank, codes, outs, PrunedRun(cur, scalefactor, rest, bestRank - rank))
    requires st == SampleStep(cur, rest[0], scalefactor) && newRank == rank + st.cost && newRank <= bestRank
    requires next == After(cur, st) && codes' == codes + [st.quantized] && outs' == outs + [st.reconstructed]
    ensures next.Wf() && target == Extend(newRank, codes', outs', PrunedRun(next, scalefactor, rest[1..], bestRank - newRank))
  {
    PrunedRunStep(cur, scalefactor, rest, bestRank - rank, st);
    ExtendCons(rank, codes, outs, st, PrunedRun(next, scalefactor, rest[1..], bestRank - newRank));
  }

  /** `xs` are the samples at `si`, `si + step`, … of `data`. */
  predicate OnStride(data: seq<Int16>, si: nat, step: nat, xs: seq<Int16>)
    decreases |xs|
  {
    xs == [] || (si < |data| && data[si] == xs[0] && OnStride(data, si + step, step, xs[1..]))
  }

  /** The position `n` steps of `step` past `si`. */
  function StrideEnd(si: nat, step: nat, n: nat): (r: nat)
    ensures r >= si
    decreases n
  {
    if n == 0 then si else StrideEnd(si + step, step, n - 1)
  }

  /** Walking `n` steps from `si` is one step, then `m = n - 1` steps. */
  lemma StrideEndNext(si: nat, step: nat, n: nat, m: nat)
    requires n == m + 1
    ensures StrideEnd(si, step, n) == StrideEnd(si + step, step, m)
  {
  }

  /** With a positive step, the end lies past the start exactly when there is a step to take. */
  lemma {:induction false} StrideEndAbove(si: nat, step: nat, n: nat)
    requires step >= 1
    ensures si < StrideEnd(si, step, n) <==> n > 0
    decreases n
  {
    if n > 0 {
      StrideEndAbove(si + step, step, n - 1);
    }
  }

  /** The stride of `channels` from `i * channels + c` ends, after `len` steps, at `(i + len) * channels + c`. */
  lemma {:induction false} StrideEndAt(i: nat, channels: nat, c: nat, len: nat)
    ensures StrideEnd(i * channels + c, channels, len) == (i + len) * channels + c
    decreases len
  {
    if len > 0 {
      StrideEndAt(i + 1, channels, c, len - 1);
      assert (i + 1) * channels + c == i * channels + c + channels;
    }
  }

  /**
   * The samples of channel `c` from sample position `i` on lie on the stride
   * starting at the interleaved position `i * channels + c`, and the slice
   * loop ends at `(i + len) * channels + c` (src/QOA.cs:254-255).
   */
  lemma {:induction false} ChannelOnStride(data: seq<Int16>, channels: nat, c: nat, i: nat, len: nat)
    requires c < channels && (i + len) * channels <= |data|
    ensures OnStride(data, i * channels + c, channels, ChannelSamples(data, channels, c, i, len))
    ensures StrideEnd(i * channels + c, channels, len) == (i + len) * channels + c
    decreases len
  {
    if len > 0 {
      var xs := ChannelSamples(data, channels, c, i, len);
      ChannelOnStride(data, channels, c, i + 1, len - 1);
      assert (i + 1) * channels + c == i * channels + c + channels;
      assert xs[1..] == ChannelSamples(data, channels, c, i + 1, len - 1);
    }
  }

  /** Moving one step along a stride: the rest of the samples start one step further on. */
  lemma StrideAdvance(data: seq<Int16>, si: nat, step: nat, ys: seq<Int16>, end: nat, si': nat, ys': seq<Int16>)
    requires step >= 1 && ys != [] && OnStride(data, si, step, ys) && end == StrideEnd(si, step, |ys|)
    requires si' == si + step && ys' == ys[1..]
    ensures OnStride(data, si', step, ys')
    ensures end == StrideEnd(si', step, |ys'|)
    ensures si' < end <==> ys' != []
  {
    StrideEndNext(si, step, |ys|, |ys'|);
    StrideEndAbove(si', step, |ys'|);
  }

  /**
   * One pass of the trial loop (src/QOA.cs:256-289): encode `sample`, add its
   * cost to the rank and stop if the rank now exceeds `bestRank`; otherwise
   * update the predictor and shift the code into the slice word. Stated
   * against the trial `target` still to be completed: `codes` and `outs` are
   * what the trial has emitted so far and `rest` the samples still to encode,
   * `sample` first.
   */
  method TrialSample(lms: Lms, sample: Int16, scalefactor: int, rank: U64, bestRank: U64, slice: U64,
                     ghost target: Trial, ghost codes: seq<int>, ghost outs: seq<int>, ghost rest: seq<Int16>)
    returns (newRank: U64, newSlice: U64, stop: bool, ghost codes': seq<int>, ghost outs': seq<int>)
    requires lms.Valid() && 0 <= scalefactor < 16 && rest != [] && rest[0] == sample
    requires rank <= bestRank && rank <= |codes| * 4329504769
    requires IsCodes(codes) && |codes| < SLICE_LEN && slice == SliceAcc(scalefactor, codes)
    requires target == Extend(rank, codes, outs, PrunedRun(lms.State(), scalefactor, rest, bestRank - rank))
    modifies lms.history, lms.weights
    ensures stop ==> target == Trial(newRank, codes, lms.State(), false, outs) && newSlice == slice
    ensures !stop ==> newRank <= bestRank && newRank <= |codes'| * 4329504769
    ensures !stop ==> IsCodes(codes') && |codes'| == |codes| + 1 && newSlice == SliceAcc(scalefactor, codes')
    ensures !stop ==> target == Extend(newRank, codes', outs', PrunedRun(lms.State(), scalefactor, rest[1..], bestRank - newRank))
  {
    ghost var cur := lms.State();
    var quantized, dequantized, reconstructed, cost := EncodeSample(lms, sample, scalefactor);
    ghost var st := Step(quantized, dequantized, reconstructed, cost);
    newRank := rank + cost;
    newSlice := slice;
    codes', outs' := codes, outs;
    stop := newRank > bestRank;
    if stop {
      TrialStops(target, rank, codes, outs, cur, scalefactor, rest, bestRank, st);
      return;
    }
    lms.Update(reconstructed, dequantized);
    codes' := codes + [quantized];
    outs' := outs + [reconstructed];
    TrialContinues(target, rank, codes, outs, cur, scalefactor, rest, bestRank, st, lms.State(), newRank, codes', outs');
    SlicePush(scalefactor, codes, quantized);
    newSlice := (slice * 8) % TWO_64 + quantized;
  }

  /**
   * One trial of the search (src/QOA.cs:245-290): encode the samples `xs`,
   * found at `sliceStart`, `sliceStart + channels`, … up to `sliceEnd`,
   * under `scalefactor` with the channel's own predictor, stopping as soon
   * as the rank exceeds `bestRank`. Returns the rank and the slice word
   * assembled so far; the predictor is left as the trial leaves it.
   */
  method RunTrial(sampleData: seq<Int16>, channels: nat, sliceStart: nat, sliceEnd: nat,
                  lms: Lms, scalefactor: int, bestRank: U64, ghost xs: seq<Int16>)
    returns (rank: U64, slice: U64)
    requires 1 <= channels && |xs| <= SLICE_LEN
    requires OnStride(sampleData, sliceStart, channels, xs) && sliceEnd == StrideEnd(sliceStart, channels, |xs|)
    requires lms.Valid() && 0 <= scalefactor < 16
    modifies lms.history, lms.weights
    ensures var t := PrunedRun(old(lms.State()), scalefactor, xs, bestRank);
      rank == t.rank && slice == SliceAcc(scalefactor, t.codes) && lms.State() == t.state
  {
    ghost var target := PrunedRun(lms.State(), scalefactor, xs, bestRank);
    ghost var rest := xs;
    ghost var codes: seq<int> := [];
    ghost var outs: seq<int> := [];
    rank := 0;
    slice := scalefactor;
    var si: nat := sliceStart;
    StrideEndAbove(si, channels, |rest|);
    ExtendEmpty(target);
    while si < sliceEnd
      invariant OnStride(sampleData, si, channels, rest)
      invariant sliceEnd == StrideEnd(si, channels, |rest|) && (si < sliceEnd <==> rest != [])
      invariant |codes| + |rest| == |xs| && rank <= bestRank && rank <= |codes| * 4329504769
      invariant IsCodes(codes) && slice == SliceAcc(scalefactor, codes)
      invariant target == Extend(rank, codes, outs, PrunedRun(lms.State(), scalefactor, rest, bestRank - rank))
      decreases |rest|
    {
      var stop: bool;
      rank, slice, stop, codes, outs :=
        TrialSample(lms, sampleData[si], scalefactor, rank, bestRank, slice, target, codes, outs, rest);
      if stop {
        return;
      }
      ghost var rest0 := rest;
      var si0 := si;
      rest := rest[1..];
      si := si + channels;
      StrideAdvance(sampleData, si0, channels, rest0, sliceEnd, si, rest);
    }
    TrialEnd(target, lms.State(), scalefactor, rest, bestRank, rank, codes, outs);
  }

  // ----- The scalefactor search -----

  /** One more round of the search appends its trial, run from the state the last round left. */
  lemma RoundStep(xs: seq<Int16>, prev: int, s0: LmsState, k: nat, r: Rounds, t: Trial, r': Rounds)
    requires s0.Wf() && 0 <= prev < 16
    requires r == RoundsAfter(xs, prev, s0, k) && r' == RoundsAfter(xs, prev, s0, k + 1)
    requires t == PrunedRun(r.state, TrialScalefactor(k, prev), xs, Best(r.trials))
    ensures r'.state == t.state && r'.trials == r.trials + [t]
  {
  }

  /** A trial appended to the rounds takes over exactly when it ranks below the best so far. */
  lemma BestSnoc(ts: seq<Trial>, t: Trial, ts': seq<Trial>)
    requires ts' == ts + [t]
    ensures ts'[|ts|] == t
    ensures Best(ts') == if t.rank < Best(ts) then t.rank else Best(ts)
    ensures Winner(ts') == if t.rank < Best(ts) then |ts| else Winner(ts)
    ensures 0 <= Winner(ts) ==> ts'[Winner(ts)] == ts[Winner(ts)]
  {
    assert ts'[..|ts|] == ts;
  }

  /**
   * The variables of the search after the rounds `ts`: `best_rank` is the
   * best rank; with a winner, `best_scalefactor` and `best_slice` are the
   * winner's and `best_lms` is the channel's predictor (`kept`); before any
   * round they still hold their initial zeros.
   */
  ghost predicate Searched(ts: seq<Trial>, prev: int, n: nat, bestRank: int, bestSlice: int, bestScalefactor: int,
                           kept: bool)
  {
    0 <= prev < 16 && n <= SLICE_LEN && bestRank == Best(ts) &&
    (Winner(ts) < 0 ==> ts == [] && bestSlice == 0 && bestScalefactor == 0) &&
    (Winner(ts) >= 0 ==>
      IsCodes(ts[Winner(ts)].codes) && |ts[Winner(ts)].codes| <= n && kept &&
      bestScalefactor == TrialScalefactor(Winner(ts), prev) &&
      bestSlice == SliceAcc(bestScalefactor, ts[Winner(ts)].codes))
  }

  /** One round of the search (src/QOA.cs:292-298): the trial takes over when its rank is strictly below the best. */
  lemma SearchedSnoc(ts: seq<Trial>, t: Trial, ts': seq<Trial>, prev: int, n: nat,
                     bestRank: int, bestSlice: int, bestScalefactor: int, kept: bool,
                     scalefactor: int, slice: int,
                     bestRank': int, bestSlice': int, bestScalefactor': int, kept': bool)
    requires Searched(ts, prev, n, bestRank, bestSlice, bestScalefactor, kept) && ts' == ts + [t]
    requires scalefactor == TrialScalefactor(|ts|, prev) && IsCodes(t.codes) && |t.codes| <= n
    requires t.rank <= n * 4329504769 && slice == SliceAcc(scalefactor, t.codes)
    requires t.rank < bestRank ==>
      bestRank' == t.rank && bestSlice' == slice && bestScalefactor' == scalefactor && kept'
    requires t.rank >= bestRank ==>
      bestRank' == bestRank && bestSlice' == bestSlice && bestScalefactor' == bestScalefactor && kept' == kept
    ensures Searched(ts', prev, n, bestRank', bestSlice', bestScalefactor', kept')
  {
    BestSnoc(ts, t, ts');
  }

  /** After the sixteen rounds there is a winner, and the search variables hold `Search`'s result. */
  lemma SearchedResult(xs: seq<Int16>, prev: int, s0: LmsState, rounds: Rounds,
                       bestRank: int, bestSlice: int, bestScalefactor: int, kept: bool)
    requires s0.Wf() && 0 <= prev < 16 && 1 <= |xs| <= SLICE_LEN
    requires rounds == RoundsAfter(xs, prev, s0, ROUNDS)
    requires Searched(rounds.trials, prev, |xs|, bestRank, bestSlice, bestScalefactor, kept)
    ensures kept && 0 <= bestSlice
    ensures var r := Search(xs, prev, s0);
      r.word == Scale(bestSlice, SLICE_LEN - |xs|) % TWO_64 && r.scalefactor == bestScalefactor && r.state == rounds.state
  {
  }

  /**
   * The scalefactor search for one slice of one channel (src/QOA.cs:228-309):
   * sixteen trials on the channel's own predictor, starting with scalefactor
   * `prev`, each bounded by the best rank so far; the winner's slice word is
   * shifted left so that unused code bits are the low ones. The predictor
   * kept is the one the trials shared: the winning `best_lms` is always the
   * channel's own `lms`, so the fresh `QOA_LMS` allocated for the case
   * without a winner is never kept.
   */
  method SearchSlice(sampleData: seq<Int16>, channels: nat, sliceStart: nat, sliceEnd: nat, sliceLen: nat,
                     lms: Lms, prev: int, ghost xs: seq<Int16>)
    returns (word: U64, bestScalefactor: int, bestLms: Lms)
    requires 1 <= channels && 1 <= |xs| <= SLICE_LEN && sliceLen == |xs|
    requires OnStride(sampleData, sliceStart, channels, xs) && sliceEnd == StrideEnd(sliceStart, channels, |xs|)
    requires lms.Valid() && 0 <= prev < 16
    modifies lms.history, lms.weights
    ensures var r := Search(xs, prev, old(lms.State()));
      word == r.word && bestScalefactor == r.scalefactor && lms.State() == r.state
    ensures bestLms == lms
  {
    ghost var s0 := lms.State();
    ghost var rounds := RoundsAfter(xs, prev, s0, 0);
    var bestRank: U64 := MAX_U64;
    var bestSlice: U64 := 0;
    bestLms := new Lms();
    bestScalefactor := 0;
    for sfi := 0 to ROUNDS
      invariant rounds == RoundsAfter(xs, prev, s0, sfi) && lms.State() == rounds.state
      invariant Searched(rounds.trials, prev, |xs|, bestRank, bestSlice, bestScalefactor, bestLms == lms)
    {
      var scalefactor := TrialScalefactor(sfi, prev);
      ghost var t := PrunedRun(rounds.state, scalefactor, xs, bestRank);
      var rank, slice := RunTrial(sampleData, channels, sliceStart, sliceEnd, lms, scalefactor, bestRank, xs);
      ghost var next := RoundsAfter(xs, prev, s0, sfi + 1);
      RoundStep(xs, prev, s0, sfi, rounds, t, next);
      ghost var before := (bestRank, bestSlice, bestScalefactor, bestLms == lms);
      if rank < bestRank {
        bestRank := rank;
        bestSlice := slice;
        bestLms := lms;
        bestScalefactor := scalefactor;
      }
      SearchedSnoc(rounds.trials, t, next.trials, prev, |xs|, before.0, before.1, before.2, before.3,
        scalefactor, slice, bestRank, bestSlice, bestScalefactor, bestLms == lms);
      rounds := next;
    }
    SearchedResult(xs, prev, s0, rounds, bestRank, bestSlice, bestScalefactor, bestLms == lms);
    word := Scale(bestSlice, SLICE_LEN - sliceLen) % TWO_64;
  }

  // ----- One frame -----

  /** Writing a word after the words written so far. */
  lemma EmitSnoc(d: seq<Byte>, emitted: seq<U64>, w: U64)
    ensures d + WordBytes(emitted) + BytesOf(w) == d + WordBytes(emitted + [w])
  {
    WordBytesAppend(emitted, [w]);
    assert WordBytes([w]) == BytesOf(w) + WordBytes([]);
  }

  /**
   * The snapshot of one predictor (src/QOA.cs:200-216): history and weights
   * packed 16 bits each, first entry highest, then written history first.
   * Shifting left by 16 leaves the low 16 bits zero, so or-ing the next
   * value in adds it.
   */
  method WriteSnapshot(lms: Lms, out: ByteSink)
    requires lms.Valid()
    modifies out
    ensures out.data == old(out.data) + BytesOf(Pack16(lms.State().history, LMS_LEN))
      + BytesOf(Pack16(lms.State().weights, LMS_LEN))
  {
    var weights: U64 := 0;
    var history: U64 := 0;
    for i := 0 to LMS_LEN
      invariant history == Pack16(lms.history[..], i) && weights == Pack16(lms.weights[..], i)
    {
      var h: int := (history * TWO_16) % TWO_64 + Low16(lms.history[i]);
      assert h == Pack16(lms.history[..], i + 1);
      history := h;
      var w: int := (weights * TWO_16) % TWO_64 + Low16(lms.weights[i]);
      assert w == Pack16(lms.weights[..], i + 1);
      weights := w;
    }
    WriteU64(history, out);
    WriteU64(weights, out);
  }

  /** One step of the slice loops: the slice of channel `c`, then the rest with its new state and scalefactor. */
  lemma SliceLoopsNext(data: seq<Int16>, channels: nat, frameLen: nat, sampleIndex: nat, c: nat,
                       states: seq<LmsState>, prevs: seq<int>, r: SearchOutcome, states': seq<LmsState>, prevs': seq<int>)
    requires 1 <= channels <= MAX_CHANNELS && c < channels && sampleIndex < frameLen
    requires |data| == channels * frameLen && ChannelsOk(states, prevs)
    requires r == Search(SliceSamples(data, channels, frameLen, sampleIndex, c), prevs[c], states[c])
    requires states' == states[c := r.state] && prevs' == prevs[c := r.scalefactor]
    ensures ChannelsOk(states', prevs')
    ensures var rest := SliceLoops(data, channels, frameLen, sampleIndex, c + 1, states', prevs');
      SliceLoops(data, channels, frameLen, sampleIndex, c, states, prevs) == Output([r.word] + rest.words, rest.states)
  {
  }

  /** The states of a descriptor whose channels other than `c` still hold the states `S`. */
  lemma StatesWith(desc: Desc, c: int, S: seq<LmsState>)
    requires desc.Valid() && 0 <= c < MAX_CHANNELS && |S| == MAX_CHANNELS
    requires forall d :: 0 <= d < MAX_CHANNELS && d != c ==> desc.lms[d].State() == S[d]
    ensures desc.States() == S[c := desc.lms[c].State()]
  {
  }

  /**
   * The search of one channel's slice (src/QOA.cs:223-306): the samples
   * `slice_start`, `slice_start + channels`, … of the frame.
   */
  method SearchChannel(frameSamples: seq<Int16>, channels: nat, frameLen: nat, sampleIndex: nat, c: nat,
                       lms: Lms, prev: int)
    returns (word: U64, scalefactor: int, bestLms: Lms)
    requires 1 <= channels <= MAX_CHANNELS && c < channels
    requires sampleIndex < frameLen && |frameSamples| == channels * frameLen
    requires lms.Valid() && 0 <= prev < 16
    modifies lms.history, lms.weights
    ensures var r := Search(SliceSamples(frameSamples, channels, frameLen, sampleIndex, c), prev, old(lms.State()));
      word == r.word && scalefactor == r.scalefactor && lms.State() == r.state
    ensures bestLms == lms
  {
    var sliceLen := Clamp(SLICE_LEN, 0, frameLen - sampleIndex);
    var sliceStart := sampleIndex * channels + c;
    var sliceEnd := (sampleIndex + sliceLen) * channels + c;
    ghost var xs := SliceSamples(frameSamples, channels, frameLen, sampleIndex, c);
    MulLe(sampleIndex + sliceLen, frameLen, channels);
    ChannelOnStride(frameSamples, channels, c, sampleIndex, sliceLen);
    word, scalefactor, bestLms := SearchSlice(frameSamples, channels, sliceStart, sliceEnd, sliceLen, lms, prev, xs);
  }

  /**
   * One slice of one channel (src/QOA.cs:223-310): the channel's samples
   * `slice_start`, `slice_start + channels`, … are searched, the winning
   * scalefactor becomes the channel's `prev_scalefactor`, `best_lms` is
   * stored back and the slice word is written.
   */
  method EncodeChannelSlice(desc: Desc, frameSamples: seq<Int16>, frameLen: nat, sampleIndex: nat, c: nat,
                            prevs: array<int>, out: ByteSink, ghost states: seq<LmsState>, ghost scalefactors: seq<int>)
    returns (ghost word: U64, ghost states': seq<LmsState>, ghost scalefactors': seq<int>)
    requires desc.Valid() && 1 <= desc.channels <= MAX_CHANNELS && c < desc.channels
    requires sampleIndex < frameLen && |frameSamples| == desc.channels * frameLen
    requires prevs.Length == MAX_CHANNELS && prevs !in desc.Repr
    requires desc.States() == states && prevs[..] == scalefactors && ChannelsOk(states, scalefactors)
    modifies desc.lms[c].history, desc.lms[c].weights, prevs, out
    ensures desc.Valid() && desc.States() == states' && prevs[..] == scalefactors' && ChannelsOk(states', scalefactors')
    ensures var r := Search(SliceSamples(frameSamples, desc.channels, frameLen, sampleIndex, c), scalefactors[c], states[c]);
      word == r.word && out.data == old(out.data) + BytesOf(word) &&
      states' == states[c := r.state] && scalefactors' == scalefactors[c := r.scalefactor]
    ensures var rest := SliceLoops(frameSamples, desc.channels, frameLen, sampleIndex, c + 1, states', scalefactors');
      SliceLoops(frameSamples, desc.channels, frameLen, sampleIndex, c, states, scalefactors) ==
      Output([word] + rest.words, rest.states)
  {
    var lms := desc.lms[c];
    var w, scalefactor, bestLms := SearchChannel(frameSamples, desc.channels, frameLen, sampleIndex, c, lms, prevs[c]);
    StatesWith(desc, c, states);
    prevs[c] := scalefactor;
    WriteU64(w, out);
    word, states', scalefactors' := w, desc.States(), prevs[..];
    SliceLoopsNext(frameSamples, desc.channels, frameLen, sampleIndex, c, states, scalefactors,
      Search(SliceSamples(frameSamples, desc.channels, frameLen, sampleIndex, c), scalefactors[c], states[c]),
      states', scalefactors');
  }

  /** The snapshots of all channels (src/QOA.cs:200-217), in channel order. */
  method WriteSnapshots(desc: Desc, out: ByteSink)
    requires desc.Valid() && desc.channels <= MAX_CHANNELS
    modifies out
    ensures out.data == old(out.data) + WordBytes(SnapshotWords(desc.States(), 0, desc.channels))
  {
    ghost var S := desc.States();
    ghost var goal := old(out.data) + WordBytes(SnapshotWords(S, 0, desc.channels));
    for c := 0 to desc.channels
      invariant out.data + WordBytes(SnapshotWords(S, c, desc.channels)) == goal
    {
      ghost var d := out.data;
      WriteSnapshot(desc.lms[c], out);
      SnapshotStep(S, c, desc.channels, d, out.data, goal);
    }
    assert out.data + [] == out.data;
  }

  /** Writing channel `c`'s snapshot leaves the snapshots of the channels after it to come. */
  lemma SnapshotStep(states: seq<LmsState>, c: nat, channels: nat, d: seq<Byte>, d': seq<Byte>, goal: seq<Byte>)
    requires c < channels <= MAX_CHANNELS && StatesOk(states)
    requires d + WordBytes(SnapshotWords(states, c, channels)) == goal
    requires d' == d + BytesOf(Pack16(states[c].history, LMS_LEN)) + BytesOf(Pack16(states[c].weights, LMS_LEN))
    ensures d' + WordBytes(SnapshotWords(states, c + 1, channels)) == goal
  {
    var h, w := Pack16(states[c].history, LMS_LEN), Pack16(states[c].weights, LMS_LEN);
    var rest := SnapshotWords(states, c + 1, channels);
    SnapshotWordsNext(states, c, channels);
    EmitWord(d, h, [w] + rest);
    EmitWord(d + BytesOf(h), w, rest);
  }

  /** Channel `c`'s two snapshot words come first, then those of the channels after it. */
  lemma SnapshotWordsNext(states: seq<LmsState>, c: nat, channels: nat)
    requires c < channels <= MAX_CHANNELS && StatesOk(states)
    ensures SnapshotWords(states, c, channels) ==
      [Pack16(states[c].history, LMS_LEN)] + ([Pack16(states[c].weights, LMS_LEN)] + SnapshotWords(states, c + 1, channels))
  {
  }

  /** Emitting the slice of channel `c` keeps the slice loops on course. */
  lemma ContinuesNext(data: seq<Int16>, channels: nat, frameLen: nat, sampleIndex: nat, c: nat,
                      states: seq<LmsState>, prevs: seq<int>, emitted: seq<U64>, total: Output,
                      w: U64, states': seq<LmsState>, prevs': seq<int>, emitted': seq<U64>)
    requires Continues(data, channels, frameLen, sampleIndex, c, states, prevs, emitted, total)
    requires c < channels && ChannelsOk(states', prevs') && emitted' == emitted + [w]
    requires var rest := SliceLoops(data, channels, frameLen, sampleIndex, c + 1, states', prevs');
      SliceLoops(data, channels, frameLen, sampleIndex, c, states, prevs) == Output([w] + rest.words, rest.states)
    ensures Continues(data, channels, frameLen, sampleIndex, c + 1, states', prevs', emitted', total)
  {
    SeqAssoc(emitted, [w], SliceLoops(data, channels, frameLen, sampleIndex, c + 1, states', prevs').words);
  }

  /**
   * One channel's slice as a step of the slice loops: what is left of the
   * frame's words after this slice is what `SliceLoops` still owes.
   */
  method EncodeChannelStep(desc: Desc, frameSamples: seq<Int16>, frameLen: nat, sampleIndex: nat, c: nat,
                           prevs: array<int>, out: ByteSink, ghost states: seq<LmsState>, ghost scalefactors: seq<int>,
                           ghost d: seq<Byte>, ghost emitted: seq<U64>, ghost total: Output)
    returns (ghost emitted': seq<U64>, ghost states': seq<LmsState>, ghost scalefactors': seq<int>)
    requires desc.Valid() && c < desc.channels && sampleIndex < frameLen
    requires prevs.Length == MAX_CHANNELS && prevs !in desc.Repr
    requires desc.States() == states && prevs[..] == scalefactors
    requires Continues(frameSamples, desc.channels, frameLen, sampleIndex, c, states, scalefactors, emitted, total)
    requires out.data == d + WordBytes(emitted)
    modifies desc.Repr, prevs, out
    ensures desc.Valid() && desc.States() == states' && prevs[..] == scalefactors'
    ensures Continues(frameSamples, desc.channels, frameLen, sampleIndex, c + 1, states', scalefactors', emitted', total)
    ensures out.data == d + WordBytes(emitted')
  {
    ghost var w;
    w, states', scalefactors' := EncodeChannelSlice(desc, frameSamples, frameLen, sampleIndex, c, prevs, out, states, scalefactors);
    EmitSnoc(d, emitted, w);
    emitted' := emitted + [w];
    ContinuesNext(frameSamples, desc.channels, frameLen, sampleIndex, c, states, scalefactors, emitted, total,
      w, states', scalefactors', emitted');
  }

  /** After the last channel the slice loops go on with the next slice. */
  lemma ContinuesRow(data: seq<Int16>, channels: nat, frameLen: nat, sampleIndex: nat,
                     states: seq<LmsState>, prevs: seq<int>, emitted: seq<U64>, total: Output, sampleIndex': nat)
    requires Continues(data, channels, frameLen, sampleIndex, channels, states, prevs, emitted, total)
    requires sampleIndex < frameLen && sampleIndex' == sampleIndex + SLICE_LEN
    ensures Continues(data, channels, frameLen, sampleIndex', 0, states, prevs, emitted, total)
  {
  }

  /** Past the end of the frame nothing is left: what was emitted is the whole. */
  lemma ContinuesEnd(data: seq<Int16>, channels: nat, frameLen: nat, sampleIndex: nat,
                     states: seq<LmsState>, prevs: seq<int>, emitted: seq<U64>, total: Output)
    requires Continues(data, channels, frameLen, sampleIndex, 0, states, prevs, emitted, total)
    requires sampleIndex >= frameLen
    ensures emitted == total.words && states == total.states
  {
    assert emitted + [] == emitted;
  }

  /** The bytes of a frame: header, snapshots, slices. */
  lemma FrameBytes(d: seq<Byte>, header: U64, snapshots: seq<U64>, slices: seq<U64>)
    ensures d + BytesOf(header) + WordBytes(snapshots) + WordBytes(slices) == d + WordBytes([header] + snapshots + slices)
  {
    WordBytesAppend([header] + snapshots, slices);
    WordBytesAppend([header], snapshots);
    assert WordBytes([header]) == BytesOf(header) + WordBytes([]);
  }

  /**
   * One slice position of a frame (src/QOA.cs:222-310): the slice of every
   * channel in turn. The words written so far, `emitted` after `d`, grow by
   * one word per channel, and the slice loops go on at the next position.
   */
  method EncodeSliceRow(desc: Desc, frameSamples: seq<Int16>, frameLen: nat, sampleIndex: nat, next: nat,
                        prevs: array<int>, out: ByteSink, ghost d: seq<Byte>, ghost emitted: seq<U64>, ghost total: Output)
    returns (ghost emitted': seq<U64>, ghost states': seq<LmsState>, ghost prevs': seq<int>)
    requires desc.Valid() && sampleIndex < frameLen && next == sampleIndex + SLICE_LEN
    requires prevs.Length == MAX_CHANNELS && prevs !in desc.Repr
    requires Continues(frameSamples, desc.channels, frameLen, sampleIndex, 0, desc.States(), prevs[..], emitted, total)
    requires out.data == d + WordBytes(emitted)
    modifies desc.Repr, prevs, out
    ensures desc.Valid() && desc.States() == states' && prevs[..] == prevs'
    ensures Continues(frameSamples, desc.channels, frameLen, next, 0, states', prevs', emitted', total)
    ensures out.data == d + WordBytes(emitted')
  {
    emitted', states', prevs' := emitted, desc.States(), prevs[..];
    for c := 0 to desc.channels
      invariant desc.Valid() && desc.States() == states' && prevs[..] == prevs'
      invariant Continues(frameSamples, desc.channels, frameLen, sampleIndex, c, states', prevs', emitted', total)
      invariant out.data == d + WordBytes(emitted')
    {
      emitted', states', prevs' := EncodeChannelStep(desc, frameSamples, frameLen, sampleIndex, c, prevs, out,
        states', prevs', d, emitted', total);
    }
    ContinuesRow(frameSamples, desc.channels, frameLen, sampleIndex, states', prevs', emitted', total, next);
  }

  /**
   * The slice loops of a frame (src/QOA.cs:220-311): slice positions
   * 0, 20, 40, … below `frame_len`.
   */
  method EncodeSlices(desc: Desc, frameSamples: seq<Int16>, frameLen: nat, prevs: array<int>, out: ByteSink,
                      ghost states0: seq<LmsState>, ghost prevs0: seq<int>)
    requires desc.Valid() && 1 <= desc.channels <= MAX_CHANNELS && |frameSamples| == desc.channels * frameLen
    requires prevs.Length == MAX_CHANNELS && prevs !in desc.Repr
    requires desc.States() == states0 && prevs[..] == prevs0 && ChannelsOk(states0, prevs0)
    modifies desc.Repr, prevs, out
    ensures desc.Valid()
    ensures var r := SliceLoops(frameSamples, desc.channels, frameLen, 0, 0, states0, prevs0);
      out.data == old(out.data) + WordBytes(r.words) && desc.States() == r.states
  {
    ghost var states, pv := states0, prevs0;
    ghost var total := SliceLoops(frameSamples, desc.channels, frameLen, 0, 0, states, pv);
    ghost var emitted: seq<U64> := [];
    assert emitted + total.words == total.words;
    var sampleIndex := 0;
    while sampleIndex < frameLen
      invariant desc.Valid() && desc.States() == states && prevs[..] == pv
      invariant Continues(frameSamples, desc.channels, frameLen, sampleIndex, 0, states, pv, emitted, total)
      invariant out.data == old(out.data) + WordBytes(emitted)
      decreases frameLen - sampleIndex
    {
      var next := sampleIndex + SLICE_LEN;
      emitted, states, pv := EncodeSliceRow(desc, frameSamples, frameLen, sampleIndex, next, prevs, out, old(out.data), emitted, total);
      sampleIndex := next;
    }
    ContinuesEnd(frameSamples, desc.channels, frameLen, sampleIndex, states, pv, emitted, total);
  }

  /** The header, the snapshots and the slice loops together are the frame. */
  lemma FrameOutput(d0: seq<Byte>, d1: seq<Byte>, d2: seq<Byte>, data: seq<Int16>, channels: nat, samplerate: nat,
                    frameLen: nat, states: seq<LmsState>, header: U64)
    requires 1 <= channels <= MAX_CHANNELS && samplerate < 0x100_0000 && 1 <= frameLen <= FRAME_LEN
    requires |data| == channels * frameLen && StatesOk(states)
    requires header == FrameHeaderOf(channels, samplerate, frameLen)
    requires d1 == d0 + BytesOf(header) + WordBytes(SnapshotWords(states, 0, channels))
    requires d2 == d1 + WordBytes(SliceLoops(data, channels, frameLen, 0, 0, states, NoScalefactors()).words)
    ensures var r := QoaEncodeSpec.EncodeFrame(data, channels, samplerate, frameLen, states);
      d2 == d0 + WordBytes(r.words) &&
      r.states == SliceLoops(data, channels, frameLen, 0, 0, states, NoScalefactors()).states
  {
    FrameBytes(d0, header, SnapshotWords(states, 0, channels),
      SliceLoops(data, channels, frameLen, 0, 0, states, NoScalefactors()).words);
  }

  /**
   * The start of a frame (src/QOA.cs:185-217): the frame header, with the
   * slice count and frame size computed from `frame_len`, then every
   * channel's snapshot.
   */
  method WriteFrameStart(desc: Desc, frameLen: nat, out: ByteSink)
    requires desc.Valid() && 1 <= desc.channels <= MAX_CHANNELS && desc.samplerate < 0x100_0000
    requires 1 <= frameLen <= FRAME_LEN
    modifies out
    ensures out.data == old(out.data) + BytesOf(FrameHeaderOf(desc.channels, desc.samplerate, frameLen)) +
      WordBytes(SnapshotWords(old(desc.States()), 0, desc.channels))
  {
    var channels := desc.channels;
    var slices := (frameLen + SLICE_LEN - 1) / SLICE_LEN;
    var frameSize := FrameSize(channels, slices);
    var header := FrameHeader(channels, desc.samplerate, frameLen, frameSize);
    assert header == FrameHeaderOf(channels, desc.samplerate, frameLen);
    WriteU64(header, out);
    WriteSnapshots(desc, out);
  }

  /**
   * `qoa_encode_frame` (src/QOA.cs:183-312): the frame header, every
   * channel's snapshot, then for each slice position every channel's slice.
   * `prev_scalefactor` is a fresh zeroed array for every frame.
   */
  method EncodeFrame(frameSamples: seq<Int16>, desc: Desc, frameLen: nat, out: ByteSink)
    requires desc.Valid() && 1 <= desc.channels <= MAX_CHANNELS && desc.samplerate < 0x100_0000
    requires 1 <= frameLen <= FRAME_LEN && |frameSamples| == desc.channels * frameLen
    modifies desc.Repr, out
    ensures desc.Valid()
    ensures var r := QoaEncodeSpec.EncodeFrame(frameSamples, desc.channels, desc.samplerate, frameLen, old(desc.States()));
      out.data == old(out.data) + WordBytes(r.words) && desc.States() == r.states
  {
    ghost var S := desc.States();
    WriteFrameStart(desc, frameLen, out);
    ghost var d := out.data;
    var prevs := new int[MAX_CHANNELS](_ => 0);
    EncodeSlices(desc, frameSamples, frameLen, prevs, out, S, NoScalefactors());
    FrameOutput(old(out.data), d, out.data, frameSamples, desc.channels, desc.samplerate, frameLen, S,
      FrameHeaderOf(desc.channels, desc.samplerate, frameLen));
  }

  // ----- The whole stream -----

  /**
   * One channel of the initialisation loop of `qoa_encode`
   * (src/QOA.cs:333-343): weights {0, 0, -1, 2} in 2.13 fixed point and a
   * zeroed history.
   */
  method ResetPredictor(lms: Lms)
    requires lms.Valid()
    modifies lms.history, lms.weights
    ensures lms.State() == INITIAL_STATE
  {
    lms.weights[0] := 0;
    lms.weights[1] := 0;
    lms.weights[2] := -0x2000;
    lms.weights[3] := 0x4000;
    for i := 0 to LMS_LEN
      invariant lms.weights[..] == INITIAL_STATE.weights
      invariant forall k :: 0 <= k < i ==> lms.history[k] == 0
    {
      lms.history[i] := 0;
    }
    assert lms.history[..] == INITIAL_STATE.history;
  }

  /** The initialisation loop of `qoa_encode` (src/QOA.cs:329-344): channels `0 .. channels - 1` are reset. */
  method ResetPredictors(desc: Desc)
    requires desc.Valid() && desc.channels <= MAX_CHANNELS
    modifies desc.Repr
    ensures desc.Valid() && desc.States() == InitialStates(old(desc.States()), desc.channels)
  {
    ghost var S := desc.States();
    for c := 0 to desc.channels
      invariant desc.Valid() && desc.States() == InitialStates(S, c)
    {
      ghost var before := desc.States();
      ResetPredictor(desc.lms[c]);
      StatesWith(desc, c, before);
      InitialStatesNext(S, c);
    }
  }

  /** Appending a frame's words to what was emitted. */
  lemma EmitFrame(d: seq<Byte>, emitted: seq<U64>, words: seq<U64>)
    ensures d + WordBytes(emitted) + WordBytes(words) == d + WordBytes(emitted + words)
  {
    WordBytesAppend(emitted, words);
    SeqAssoc(d, WordBytes(emitted), WordBytes(words));
  }

  /**
   * One pass of the frame loop of `qoa_encode` (src/QOA.cs:353-355): the
   * frame's samples are the `channels * frameLen` interleaved values from
   * `sampleIndex * channels` on.
   */
  method EncodeNextFrame(sampleData: seq<Int16>, desc: Desc, sampleIndex: nat, frameLen: nat, next: nat,
                         out: ByteSink, ghost d: seq<Byte>, ghost emitted: seq<U64>, ghost total: Output)
    returns (ghost emitted': seq<U64>)
    requires desc.Valid() && sampleIndex < desc.samples
    requires frameLen == FrameLen(desc.samples, sampleIndex) && next == sampleIndex + frameLen
    requires FramesContinue(sampleData, desc.channels, desc.samplerate, desc.samples, sampleIndex, desc.States(), emitted, total)
    requires out.data == d + WordBytes(emitted)
    modifies desc.Repr, out
    ensures desc.Valid()
    ensures FramesContinue(sampleData, desc.channels, desc.samplerate, desc.samples, next, desc.States(), emitted', total)
    ensures out.data == d + WordBytes(emitted')
  {
    FrameBounds(sampleIndex, frameLen, desc.samples, desc.channels, |sampleData|);
    var start := sampleIndex * desc.channels;
    var frameSamples := sampleData[start..start + desc.channels * frameLen];
    assert frameSamples == FrameSamples(sampleData, desc.channels, desc.samples, sampleIndex);
    ghost var S := desc.States();
    EncodeFrame(frameSamples, desc, frameLen, out);
    ghost var frame := QoaEncodeSpec.EncodeFrame(frameSamples, desc.channels, desc.samplerate, frameLen, S);
    EmitFrame(d, emitted, frame.words);
    FramesNext(sampleData, desc.channels, desc.samplerate, desc.samples, sampleIndex, S, emitted, total,
      frameLen, frame, next);
    emitted' := emitted + frame.words;
  }

  /** The frame loop of `qoa_encode` (src/QOA.cs:350-356). */
  method EncodeFrames(sampleData: seq<Int16>, desc: Desc, out: ByteSink, ghost states0: seq<LmsState>)
    requires desc.Valid() && desc.States() == states0
    requires ValidDesc(desc.channels, desc.samplerate, desc.samples) && desc.channels * desc.samples <= |sampleData|
    modifies desc.Repr, out
    ensures desc.Valid()
    ensures var r := Frames(sampleData, desc.channels, desc.samplerate, desc.samples, 0, states0);
      out.data == old(out.data) + WordBytes(r.words) && desc.States() == r.states
  {
    ghost var total := Frames(sampleData, desc.channels, desc.samplerate, desc.samples, 0, states0);
    ghost var emitted: seq<U64> := [];
    assert emitted + total.words == total.words;
    assert out.data == old(out.data) + WordBytes(emitted);
    var sampleIndex := 0;
    while sampleIndex < desc.samples
      invariant desc.Valid()
      invariant FramesContinue(sampleData, desc.channels, desc.samplerate, desc.samples, sampleIndex, desc.States(), emitted, total)
      invariant out.data == old(out.data) + WordBytes(emitted)
      decreases desc.samples - sampleIndex
    {
      var frameLen := Clamp(FRAME_LEN, 0, desc.samples - sampleIndex);
      var next := sampleIndex + frameLen;
      emitted := EncodeNextFrame(sampleData, desc, sampleIndex, frameLen, next, out, old(out.data), emitted, total);
      sampleIndex := next;
    }
    FramesEnd(sampleData, desc.channels, desc.samplerate, desc.samples, sampleIndex, desc.States(), emitted, total);
  }

  /**
   * `qoa_encode` past its checks (src/QOA.cs:329-356): the used channels'
   * predictors are reset, the stream header `QOA_MAGIC << 32 | samples` is
   * written and then every frame.
   */
  method EncodeStream(sampleData: seq<Int16>, desc: Desc, out: ByteSink, ghost states0: seq<LmsState>)
    requires desc.Valid() && desc.States() == states0
    requires ValidDesc(desc.channels, desc.samplerate, desc.samples) && desc.channels * desc.samples <= |sampleData|
    modifies desc.Repr, out
    ensures desc.Valid()
    ensures var r := Frames(sampleData, desc.channels, desc.samplerate, desc.samples, 0, InitialStates(states0, desc.channels));
      out.data == old(out.data) + WordBytes([FileHeader(desc.samples)] + r.words) && desc.States() == r.states
  {
    ResetPredictors(desc);
    ghost var S := desc.States();
    WriteU64(MAGIC * TWO_32 + desc.samples, out);
    EncodeFrames(sampleData, desc, out, S);
    EmitWord(old(out.data), FileHeader(desc.samples),
      Frames(sampleData, desc.channels, desc.samplerate, desc.samples, 0, S).words);
  }

  /**
   * `qoa_encode` (src/QOA.cs:314-357). A descriptor the checks reject throws
   * before anything is written or reset; `ok` is false exactly then.
   */
  method Encode(sampleData: seq<Int16>, desc: Desc, out: ByteSink) returns (ok: bool)
    requires desc.Valid()
    requires ValidDesc(desc.channels, desc.samplerate, desc.samples) ==> desc.channels * desc.samples <= |sampleData|
    modifies desc.Repr, out
    ensures desc.Valid()
    ensures var r := QoaEncodeSpec.Encode(sampleData, desc.channels, desc.samplerate, desc.samples, old(desc.States()));
      (ok <==> r.Encoded?) &&
      if r.Encoded? then out.data == old(out.data) + WordBytes(r.words) && desc.States() == r.states
      else out.data == old(out.data) && desc.States() == old(desc.States())
  {
    if desc.samples == 0 || desc.samplerate == 0 || desc.samplerate > 0xffffff || desc.channels == 0 || desc.channels > MAX_CHANNELS {
      return false;
    }
    ghost var S0 := desc.States();
    ghost var initial := InitialStates(S0, desc.channels);
    EncodeStream(sampleData, desc, out, S0);
    EncodeAccepted(sampleData, desc.channels, desc.samplerate, desc.samples, S0, initial,
      Frames(sampleData, desc.channels, desc.samplerate, desc.samples, 0, initial));
    ok := true;
  }
}
