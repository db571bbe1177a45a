/** Continuous features, as `FloatFeatureValue` packs them. */
module Features {
  datatype FloatFeature = FloatFeature(id: nat, weight: real)

  function WeightSum(fs: seq<FloatFeature>): real {
    if fs == [] then 0.0 else WeightSum(fs[..|fs| - 1]) + fs[|fs| - 1].weight
  }
}
