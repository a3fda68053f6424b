/**
 * The 4-tap sign-LMS predictor (src/QOA.cs:3-12, 85-112).
 *
 * `LmsState` is the value of one predictor (history, most recent last, and
 * weights); `Lms` is the C# `QOA_LMS` struct, two `int[]` references whose
 * elements `qoa_lms_update` changes in place.
 */
module QoaLms {
  import opened QoaInt
  import opened QoaTables

  datatype LmsState = LmsState(history: seq<int>, weights: seq<int>) {
    ghost predicate Wf() {
      |history| == 4 && |weights| == 4
    }
  }

  /** The state `qoa_encode` starts every channel with (src/QOA.cs:333-343). */
  const INITIAL_STATE: LmsState := LmsState([0, 0, 0, 0], [0, 0, -0x2000, 0x4000])

  /** The state of a freshly allocated `QOA_LMS`: all zeros. */
  const ZERO_STATE: LmsState := LmsState([0, 0, 0, 0], [0, 0, 0, 0])

  /** Exact sum of the first `n` products `weights[i] * history[i]`. */
  function Dot(s: LmsState, n: nat): int
    requires s.Wf() && n <= 4
  {
    if n == 0 then 0 else Dot(s, n - 1) + Mul(s.weights[n - 1], s.history[n - 1])
  }

  /**
   * `qoa_lms_predict`: the wrapped 32-bit dot product shifted right
   * arithmetically by 13. The result always fits in 19 signed bits.
   */
  function Prediction(s: LmsState): (p: int)
    requires s.Wf()
    ensures -0x4_0000 <= p < 0x4_0000
  {
    Wrap32(Dot(s, LMS_LEN)) / 0x2000
  }

  /** The amount `qoa_lms_update` adds to weight `i`: `-delta` when the history entry is negative. */
  function WeightStep(h: int, residual: int): int {
    var delta := residual / 16;
    if h < 0 then -delta else delta
  }

  /** `qoa_lms_update` on values: weights adapt by the sign of history, history shifts in `sample`. */
  function Updated(s: LmsState, sample: int, residual: int): (r: LmsState)
    requires s.Wf()
    ensures r.Wf()
    ensures r.history[..3] == s.history[1..] && r.history[3] == sample
    ensures forall i :: 0 <= i < 4 ==>
      (r.weights[i] - s.weights[i] - WeightStep(s.history[i], residual)) % TWO_32 == 0
  {
    LmsState(
      s.history[1..] + [sample],
      seq(4, i requires 0 <= i < 4 => Wrap32(s.weights[i] + WeightStep(s.history[i], residual))))
  }

  /** The entries of `Updated`, one by one. */
  lemma UpdatedAt(s: LmsState, sample: int, residual: int)
    requires s.Wf()
    ensures var r := Updated(s, sample, residual);
      (forall k :: 0 <= k < 4 ==> r.weights[k] == Wrap32(s.weights[k] + WeightStep(s.history[k], residual))) &&
      (forall k :: 0 <= k < 3 ==> r.history[k] == s.history[k + 1]) &&
      r.history[3] == sample
  {
  }

  /**
   * Without overflow each weight changes by exactly `-(residual >> 4)` where the
   * old history entry is negative and by `+(residual >> 4)` otherwise.
   */
  lemma UpdatedWeightsExact(s: LmsState, sample: int, residual: int, i: int)
    requires s.Wf() && 0 <= i < 4
    requires IsI32(s.weights[i] + WeightStep(s.history[i], residual))
    ensures Updated(s, sample, residual).weights[i] - s.weights[i] ==
      (if s.history[i] < 0 then -(residual / 16) else residual / 16)
  {
  }

  /** One `qoa_lms_update` fits 16-bit history entries as long as the sample is 16-bit. */
  lemma UpdatedKeepsHistory16(s: LmsState, sample: int, residual: int)
    requires s.Wf() && IsI16(sample)
    requires forall i :: 0 <= i < 4 ==> IsI16(s.history[i])
    ensures forall i :: 0 <= i < 4 ==> IsI16(Updated(s, sample, residual).history[i])
  {
    var r := Updated(s, sample, residual);
    forall i | 0 <= i < 4 ensures IsI16(r.history[i]) {
      if i < 3 {
        assert r.history[i] == r.history[..3][i] == s.history[1..][i];
      }
    }
  }

  /** The `QOA_LMS` struct: two 4-element arrays. */
  class Lms {
    const history: array<int>
    const weights: array<int>

    ghost predicate Valid() {
      history.Length == 4 && weights.Length == 4 && history != weights
    }

    function State(): (s: LmsState)
      reads history, weights
      requires Valid()
      ensures s.Wf()
    {
      LmsState(history[..], weights[..])
    }

    /** `new QOA_LMS()`: two fresh zero-filled arrays. */
    constructor ()
      ensures Valid() && fresh(history) && fresh(weights)
      ensures State() == ZERO_STATE
    {
      history := new int[4](_ => 0);
      weights := new int[4](_ => 0);
    }

    /** `qoa_lms_predict` (src/QOA.cs:85-95): the accumulator wraps at every step. */
    method Predict() returns (prediction: int)
      requires Valid()
      ensures prediction == Prediction(State())
    {
      ghost var s := State();
      var acc := 0;
      for i := 0 to 4
        invariant acc == Wrap32(Dot(s, i))
      {
        MulIsProduct(weights[i], history[i]);
        Wrap32Add(Dot(s, i), weights[i] * history[i]);
        Wrap32Add(weights[i] * history[i], Wrap32(Dot(s, i)));
        acc := Wrap32(acc + Wrap32(weights[i] * history[i]));
      }
      prediction := acc / 0x2000;
    }

    /** `qoa_lms_update` (src/QOA.cs:97-112): both arrays change in place. */
    method Update(sample: int, residual: int)
      requires Valid()
      modifies history, weights
      ensures State() == Updated(old(State()), sample, residual)
    {
      ghost var target := Updated(State(), sample, residual);
      UpdatedAt(State(), sample, residual);
      var delta := residual / 16;
      for i := 0 to 4
        invariant history[..] == old(history[..])
        invariant forall k :: 0 <= k < i ==> weights[k] == target.weights[k]
        invariant forall k :: i <= k < 4 ==> weights[k] == old(weights[k])
      {
        weights[i] := Wrap32(weights[i] + (if history[i] < 0 then -delta else delta));
      }
      assert weights[..] == target.weights;
      for i := 0 to 3
        invariant weights[..] == target.weights
        invariant forall k :: 0 <= k < i ==> history[k] == target.history[k]
        invariant forall k :: i <= k < 4 ==> history[k] == old(history[k])
      {
        history[i] := history[i + 1];
      }
      history[3] := sample;
      assert history[..] == target.history;
    }
  }
}
