/** The whole forward pass: features to concatenated embeddings to scores. */
module EmbeddingNetwork {
  import opened EmbeddingLayer
  import opened DenseLayers

  /** The concatenation layer as a vector. */
  function ConcatVector(model: Model, features: seq<FeatureVector>): (x: Vector)
    requires SoundAll(model, features)
    ensures |x| == model.concatLayerSize
  {
    seq(model.concatLayerSize, j requires 0 <= j < model.concatLayerSize => ConcatAt(model, features, j))
  }

  lemma ChecksMakeSound(model: Model, features: seq<FeatureVector>)
    requires model.Valid() && |features| <= |model.spaces| && AllChecks(model, features)
    ensures SoundAll(model, features)
  {
  }

  /** Succeeds exactly when all checks hold; then the scores are the formula on the sums of the embeddings. */
  method ComputeFinalScores(model: Model, network: Network, features: seq<FeatureVector>)
    returns (ok: bool, scores: Vector)
    requires model.Valid() && |features| <= |model.spaces| && network.Fits(model.concatLayerSize)
    ensures ok <==> AllChecks(model, features) && |network.hiddenWeights| <= 2
    ensures ok ==> SoundAll(model, features) && scores == network.Scores(ConcatVector(model, features))
  {
    scores := [];
    var concat;
    ok, concat := ConcatEmbeddings(model, features);
    if ok {
      ChecksMakeSound(model, features);
      assert concat[..] == ConcatVector(model, features);
      ok, scores := FinishComputeFinalScores(network, concat[..]);
    }
  }

  /** The scores do not depend on the order in which the features of a space were extracted. */
  lemma ScoresIgnoreOrder(
      model: Model, network: Network, features: seq<FeatureVector>, shuffled: seq<FeatureVector>)
    requires SoundAll(model, features) && SoundAll(model, shuffled) && Permuted(features, shuffled)
    requires network.Fits(model.concatLayerSize)
    ensures network.Scores(ConcatVector(model, features)) == network.Scores(ConcatVector(model, shuffled))
  {
    forall j: nat | j < model.concatLayerSize
      ensures ConcatVector(model, features)[j] == ConcatVector(model, shuffled)[j]
    {
      BufferIgnoresOrder(model, features, shuffled, j);
    }
    assert ConcatVector(model, features) == ConcatVector(model, shuffled);
  }
}
