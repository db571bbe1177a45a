/** The forward pass of `EmbeddingNetwork` over reals, against the dense matrix formula. */
module DenseLayers {
  import opened Arithmetic

  type Vector = seq<real>

  /** Row `i` holds the weights of input `i`, one per output. */
  type Matrix = seq<Vector>

  // ---- The formula.

  function Dot(u: Vector, v: Vector): real
    requires |u| == |v|
  {
    if u == [] then 0.0 else Dot(u[..|u| - 1], v[..|v| - 1]) + u[|u| - 1] * v[|v| - 1]
  }

  /** `weights` has a row of at least `outputs` entries for each of the `inputs` entries. */
  predicate Shaped(weights: Matrix, inputs: nat, outputs: nat) {
    |weights| >= inputs && forall i | 0 <= i < inputs :: |weights[i]| >= outputs
  }

  function Column(weights: Matrix, j: nat, inputs: nat): (c: Vector)
    requires |weights| >= inputs && forall i | 0 <= i < inputs :: |weights[i]| > j
    ensures |c| == inputs
  {
    seq(inputs, i requires 0 <= i < inputs => weights[i][j])
  }

  function Relu(x: Vector): (r: Vector)
    ensures |r| == |x|
  {
    seq(|x|, i requires 0 <= i < |x| => if x[i] > 0.0 then x[i] else 0.0)
  }

  /** `b + transpose(weights) * x` */
  function Dense(weights: Matrix, b: Vector, x: Vector): (y: Vector)
    requires Shaped(weights, |x|, |b|)
    ensures |y| == |b|
  {
    seq(|b|, j requires 0 <= j < |b| => b[j] + Dot(Column(weights, j, |x|), x))
  }

  datatype Network = Network(
    hiddenWeights: seq<Matrix>, hiddenBias: seq<Vector>, softmaxWeights: Matrix, softmaxBias: Vector)
  {
    /** The matrices fit together, for an input of size `n`. */
    predicate Fits(n: nat) {
      && |hiddenWeights| == |hiddenBias| > 0
      && Shaped(hiddenWeights[0], n, |hiddenBias[0]|)
      && (forall k | 0 < k < |hiddenBias| :: Shaped(hiddenWeights[k], |hiddenBias[k - 1]|, |hiddenBias[k]|))
      && Shaped(softmaxWeights, |hiddenBias[|hiddenBias| - 1]|, |softmaxBias|)
    }

    /** The value of hidden layer `k` before its ReLU. */
    function Hidden(k: nat, concat: Vector): (h: Vector)
      requires Fits(|concat|) && k < |hiddenBias|
      ensures |h| == |hiddenBias[k]|
    {
      if k == 0 then Dense(hiddenWeights[0], hiddenBias[0], concat)
      else Dense(hiddenWeights[k], hiddenBias[k], Relu(Hidden(k - 1, concat)))
    }

    /** The network as one formula: affine maps with a ReLU between any two. */
    function Scores(concat: Vector): (s: Vector)
      requires Fits(|concat|)
      ensures |s| == |softmaxBias|
    {
      Dense(softmaxWeights, softmaxBias, Relu(Hidden(|hiddenBias| - 1, concat)))
    }
  }

  // ---- The loops.

  /** `dest` plus the first entries of `source`, scaled. */
  function AddScaled(dest: Vector, source: Vector, scale: real): (r: Vector)
    requires |source| >= |dest|
    ensures |r| == |dest|
  {
    seq(|dest|, j requires 0 <= j < |dest| => dest[j] + source[j] * scale)
  }

  class SimpleAdder {
    var dest: array?<real>
    const numFloats: nat

    constructor (dest: array<real>, numFloats: nat)
      requires numFloats == dest.Length
      ensures this.dest == dest && this.numFloats == numFloats
    {
      this.dest := dest;
      this.numFloats := numFloats;
    }

    method Finalize()
      modifies this
      ensures dest == null
    {
      dest := null;
    }

    method LazyScaleAdd(source: Vector, scale: real)
      requires dest != null && dest.Length == numFloats <= |source|
      modifies dest
      ensures dest[..] == AddScaled(old(dest[..]), source, scale)
    {
      ScaleAddImpl(source, numFloats, scale, dest);
    }

    /** Adds in place, entry by entry. */
    static method ScaleAddImpl(source: Vector, size: nat, scale: real, dest: array<real>)
      requires size == dest.Length <= |source|
      modifies dest
      ensures dest[..] == AddScaled(old(dest[..]), source, scale)
    {
      for i := 0 to size
        invariant forall j | 0 <= j < size ::
          dest[j] == if j < i then old(dest[j]) + source[j] * scale else old(dest[j])
      {
        dest[i] := dest[i] + source[i] * scale;
      }
      ghost var sum := AddScaled(old(dest[..]), source, scale);
      assert forall j | 0 <= j < size :: dest[..][j] == sum[j];
    }
  }

  function Activated(applyRelu: bool, x: Vector): (r: Vector)
    ensures |r| == |x|
  {
    if applyRelu then Relu(x) else x
  }

  /** What `y` holds once the first `i` inputs are added. */
  function Partial(weights: Matrix, b: Vector, x: Vector, i: nat): (y: Vector)
    requires Shaped(weights, |x|, |b|) && i <= |x|
    ensures |y| == |b|
  {
    Dense(weights, b, x[..i])
  }

  lemma PartialStep(weights: Matrix, b: Vector, x: Vector, i: nat)
    requires Shaped(weights, |x|, |b|) && i < |x|
    ensures Partial(weights, b, x, i + 1) == AddScaled(Partial(weights, b, x, i), weights[i], x[i])
    ensures x[i] == 0.0 ==> Partial(weights, b, x, i + 1) == Partial(weights, b, x, i)
  {
    forall j | 0 <= j < |b|
      ensures Partial(weights, b, x, i + 1)[j] == Partial(weights, b, x, i)[j] + weights[i][j] * x[i]
    {
      assert x[..i + 1][..i] == x[..i];
      assert Column(weights, j, i + 1)[..i] == Column(weights, j, i);
    }
    var sum := AddScaled(Partial(weights, b, x, i), weights[i], x[i]);
    assert forall j | 0 <= j < |b| :: Partial(weights, b, x, i + 1)[j] == sum[j];
    if x[i] == 0.0 {
      assert Partial(weights, b, x, i + 1) == Partial(weights, b, x, i);
    }
  }

  /** `y = weights * Relu(x) + b`, skipping the inputs that ReLU turns to zero. */
  method SparseReluProductPlusBias(applyRelu: bool, weights: Matrix, b: Vector, x: Vector)
    returns (y: array<real>)
    requires Shaped(weights, |x|, |b|)
    ensures fresh(y)
    ensures y[..] == Dense(weights, b, Activated(applyRelu, x))
  {
    y := new real[|b|](j requires 0 <= j < |b| => b[j]);
    var adder := new SimpleAdder(y, y.Length);
    ghost var a := Activated(applyRelu, x);
    assert y[..] == Partial(weights, b, a, 0);
    for i := 0 to |x|
      invariant adder.dest == y && adder.numFloats == y.Length == |b|
      invariant y[..] == Partial(weights, b, a, i)
    {
      PartialStep(weights, b, a, i);
      var scale := x[i];
      if applyRelu {
        if scale > 0.0 {
          adder.LazyScaleAdd(weights[i], scale);
        }
      } else {
        adder.LazyScaleAdd(weights[i], scale);
      }
    }
    assert a[..|x|] == a;
    adder.Finalize();
  }

  /** The check on the number of hidden layers fails when there are more than two. */
  method FinishComputeFinalScores(network: Network, concat: Vector) returns (ok: bool, scores: Vector)
    requires network.Fits(|concat|)
    ensures ok <==> |network.hiddenWeights| <= 2
    ensures ok ==> scores == network.Scores(concat)
  {
    hide Dense, Relu, Shaped;
    scores := [];
    var h0 := SparseReluProductPlusBias(false, network.hiddenWeights[0], network.hiddenBias[0], concat);
    assert h0[..] == network.Hidden(0, concat);
    ok := |network.hiddenWeights| == 1 || |network.hiddenWeights| == 2;
    if |network.hiddenWeights| == 1 {
      var s := SparseReluProductPlusBias(true, network.softmaxWeights, network.softmaxBias, h0[..]);
      scores := s[..];
    } else if |network.hiddenWeights| == 2 {
      var h1 := SparseReluProductPlusBias(true, network.hiddenWeights[1], network.hiddenBias[1], h0[..]);
      assert h1[..] == network.Hidden(1, concat);
      var s := SparseReluProductPlusBias(true, network.softmaxWeights, network.softmaxBias, h1[..]);
      scores := s[..];
    }
  }

  // ---- The formula on numbers.

  function Products(u: Vector, v: Vector): (p: Vector)
    requires |u| == |v|
  {
    seq(|u|, i requires 0 <= i < |u| => u[i] * v[i])
  }

  lemma ProductsOfFront(u: Vector, v: Vector, k: nat)
    requires k <= |u| == |v|
    ensures Products(u, v)[..k] == Products(u[..k], v[..k])
  {
    var p, q := Products(u, v)[..k], Products(u[..k], v[..k]);
    forall i | 0 <= i < k ensures p[i] == q[i] {
      assert u[..k][i] == u[i] && v[..k][i] == v[i];
    }
  }

  lemma {:induction false} DotIsSum(u: Vector, v: Vector)
    requires |u| == |v|
    ensures Dot(u, v) == Sum(Products(u, v))
    decreases |u|
  {
    if u != [] {
      var k := |u| - 1;
      DotIsSum(u[..k], v[..k]);
      ProductsOfFront(u, v, k);
    }
  }

  /** What output `j` gets: its bias, and from each input its entry in the input's row, times the input. */
  function Output(weights: Matrix, b: Vector, x: Vector, j: nat): real
    requires Shaped(weights, |x|, |b|) && j < |b|
  {
    b[j] + Sum(seq(|x|, i requires 0 <= i < |x| => weights[i][j] * x[i]))
  }

  /** `y` is an affine image of `x`. */
  predicate IsAffine(weights: Matrix, b: Vector, x: Vector, y: Vector)
    requires Shaped(weights, |x|, |b|)
  {
    |y| == |b| && forall j | 0 <= j < |b| :: y[j] == Output(weights, b, x, j)
  }

  /** `r` is `x` with its negative entries cut off at zero. */
  predicate IsCutOff(x: Vector, r: Vector) {
    |r| == |x| && forall i | 0 <= i < |x| :: r[i] >= 0.0 && r[i] >= x[i] && (r[i] == 0.0 || r[i] == x[i])
  }

  lemma DenseIsAffine(weights: Matrix, b: Vector, x: Vector)
    requires Shaped(weights, |x|, |b|)
    ensures IsAffine(weights, b, x, Dense(weights, b, x))
  {
    forall j | 0 <= j < |b| ensures Dense(weights, b, x)[j] == Output(weights, b, x, j) {
      DotIsSum(Column(weights, j, |x|), x);
      var p := seq(|x|, i requires 0 <= i < |x| => weights[i][j] * x[i]);
      forall i | 0 <= i < |x| ensures Products(Column(weights, j, |x|), x)[i] == p[i] {
        assert Column(weights, j, |x|)[i] == weights[i][j];
      }
      assert Products(Column(weights, j, |x|), x) == p;
    }
  }

  lemma ReluIsCutOff(x: Vector)
    ensures IsCutOff(x, Relu(x))
  {
  }

  /**
    With one hidden layer: the embeddings go through the first matrix as they are, and only what comes out
    of it is cut off at zero before the softmax layer.
   */
  lemma OneHiddenLayer(network: Network, concat: Vector) returns (hidden: Vector, active: Vector)
    requires network.Fits(|concat|) && |network.hiddenBias| == 1
    ensures IsAffine(network.hiddenWeights[0], network.hiddenBias[0], concat, hidden)
    ensures IsCutOff(hidden, active)
    ensures Shaped(network.softmaxWeights, |active|, |network.softmaxBias|)
    ensures IsAffine(network.softmaxWeights, network.softmaxBias, active, network.Scores(concat))
  {
    hide Dense, Relu, Shaped, IsAffine, IsCutOff;
    hidden := network.Hidden(0, concat);
    active := Relu(hidden);
    DenseIsAffine(network.hiddenWeights[0], network.hiddenBias[0], concat);
    ReluIsCutOff(hidden);
    CutOffSize(hidden, active);
    DenseIsAffine(network.softmaxWeights, network.softmaxBias, active);
  }

  /** With two, the same from layer to layer. */
  lemma TwoHiddenLayers(network: Network, concat: Vector)
    returns (first: Vector, active: Vector, second: Vector, last: Vector)
    requires network.Fits(|concat|) && |network.hiddenBias| == 2
    ensures IsAffine(network.hiddenWeights[0], network.hiddenBias[0], concat, first)
    ensures IsCutOff(first, active)
    ensures Shaped(network.hiddenWeights[1], |active|, |network.hiddenBias[1]|)
    ensures IsAffine(network.hiddenWeights[1], network.hiddenBias[1], active, second)
    ensures IsCutOff(second, last)
    ensures Shaped(network.softmaxWeights, |last|, |network.softmaxBias|)
    ensures IsAffine(network.softmaxWeights, network.softmaxBias, last, network.Scores(concat))
  {
    hide Dense, Relu, Shaped, IsAffine, IsCutOff;
    first := network.Hidden(0, concat);
    active := Relu(first);
    second := network.Hidden(1, concat);
    last := Relu(second);
    DenseIsAffine(network.hiddenWeights[0], network.hiddenBias[0], concat);
    ReluIsCutOff(first);
    CutOffSize(first, active);
    DenseIsAffine(network.hiddenWeights[1], network.hiddenBias[1], active);
    ReluIsCutOff(second);
    CutOffSize(second, last);
    DenseIsAffine(network.softmaxWeights, network.softmaxBias, last);
  }

  lemma CutOffSize(x: Vector, r: Vector)
    requires IsCutOff(x, r)
    ensures |r| == |x|
  {
  }
}
