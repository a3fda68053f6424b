/**
 * Encoding one sample (src/QOA.cs:260-279), as the encoder's inner loop
 * computes it, against `SampleStep`.
 */
module QoaSample {
  import opened QoaInt
  import opened QoaTables
  import opened QoaLms
  import opened QoaEncodeSpec

  /** The code of `SampleStep`: the quantized, clamped, scaled residual of the prediction. */
  lemma SampleStepCode(s: LmsState, sample: Int16, scalefactor: int)
    requires s.Wf() && 0 <= scalefactor < 16
    ensures SampleStep(s, sample, scalefactor).quantized == Quantize(Clamp(Div(sample - Prediction(s), scalefactor), -8, 8))
  {
  }

  /** The cost of `SampleStep`: squared error of the reconstruction plus squared weight penalty. */
  lemma SampleStepCost(s: LmsState, sample: Int16, scalefactor: int)
    requires s.Wf() && 0 <= scalefactor < 16
    ensures var st := SampleStep(s, sample, scalefactor);
      st.cost == SampleCost(sample - st.reconstructed, WeightsPenalty(s.weights))
  {
  }

  /** `SampleStep` from the values an encoder computes one after another. */
  lemma SampleStepOf(s: LmsState, sample: Int16, scalefactor: int,
                     quantized: int, dequantized: int, reconstructed: int, cost: int)
    requires s.Wf() && 0 <= scalefactor < 16
    requires quantized == Quantize(Clamp(Div(sample - Prediction(s), scalefactor), -8, 8))
    requires dequantized == Dequantize(scalefactor, quantized)
    requires reconstructed == ClampS16(Prediction(s) + dequantized)
    requires -0xffff <= sample - reconstructed <= 0xffff
    requires cost == SampleCost(sample - reconstructed, WeightsPenalty(s.weights))
    ensures SampleStep(s, sample, scalefactor).quantized == quantized
    ensures SampleStep(s, sample, scalefactor).dequantized == dequantized
    ensures SampleStep(s, sample, scalefactor).reconstructed == reconstructed
    ensures SampleStep(s, sample, scalefactor).cost == cost
  {
    SampleStepCode(s, sample, scalefactor);
    SampleStepOutput(s, sample, scalefactor);
    SampleStepCost(s, sample, scalefactor);
  }

  /**
   * Encoding one sample under one scalefactor (src/QOA.cs:260-282): the code,
   * its dequantized residual, the reconstructed sample and what the sample
   * adds to the rank. The predictor is read, not changed.
   */
  method EncodeSample(lms: Lms, sample: Int16, scalefactor: int)
    returns (quantized: int, dequantized: int, reconstructed: int, cost: nat)
    requires lms.Valid() && 0 <= scalefactor < 16
    ensures SampleStep(lms.State(), sample, scalefactor) == Step(quantized, dequantized, reconstructed, cost)
  {
    ghost var s := lms.State();
    var predicted := lms.Predict();
    var residual := sample - predicted;
    var scaled := Div(residual, scalefactor);
    var clamped := Clamp(scaled, -8, 8);
    quantized := Quantize(clamped);
    dequantized := Dequantize(scalefactor, quantized);
    reconstructed := ClampS16(predicted + dequantized);
    var weightsPenalty := WeightsPenalty(lms.weights[..]);
    assert weightsPenalty == WeightsPenalty(s.weights);
    var error := sample - reconstructed;
    SquareBound(error, 0xffff);
    SquareBound(weightsPenalty, 5888);
    cost := Mul(error, error) + Mul(weightsPenalty, weightsPenalty);
    assert cost == SampleCost(error, weightsPenalty);
    SampleStepOf(s, sample, scalefactor, quantized, dequantized, reconstructed, cost);
  }
}
