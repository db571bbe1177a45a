/** The first layer of `EmbeddingNetwork`: weighted embeddings added into one buffer, over reals. */
module EmbeddingLayer {
  import opened Sequences

  /** Elements in row-major order: floats, or bytes with one scale per row. */
  datatype EmbeddingMatrix =
    | Floats(rows: nat, cols: nat, weights: seq<real>)
    | Quantized(rows: nat, cols: nat, bytes: seq<int>, scales: seq<real>)
  {
    predicate Valid() {
      && (Floats? ==> |weights| == rows * cols)
      && (Quantized? ==> |bytes| == rows * cols && |scales| == rows)
    }

    /** `sizeof` an element. */
    function ElementSize(): (size: nat)
      ensures size > 0
    {
      if Floats? then 4 else 1
    }

    function RowSizeInBytes(): nat {
      cols * ElementSize()
    }

    /** The weight of dimension `i` in the embedding of the `k`-th vocabulary element. */
    function Weight(k: nat, i: nat): real
      requires Valid() && k < rows && i < cols
    {
      RowMajor(k, i, rows, cols);
      if Floats? then weights[k * cols + i] else (bytes[k * cols + i] - 128) as real
    }

    function Scale(k: nat): real
      requires Valid() && k < rows
    {
      if Floats? then 1.0 else scales[k]
    }

    /** `CLD3_CHECK`s the index; `data` is a byte offset. */
    method GetEmbedding(k: int) returns (ok: bool, data: nat, scale: real)
      requires Valid()
      ensures ok <==> 0 <= k < rows
      ensures ok ==> data == k * RowSizeInBytes() && scale == Scale(k)
    {
      data, scale := 0, 1.0;
      ok := k >= 0 && k < rows;
      if ok {
        data := k * RowSizeInBytes();
        if Quantized? {
          scale := scales[k];
        }
      }
    }

    /** The element that starts at a byte offset, without its bias of 128 when it is quantized. */
    function ElementAt(offset: nat): real
      requires offset / ElementSize() < if Floats? then |weights| else |bytes|
    {
      if Floats? then weights[offset / ElementSize()] else (bytes[offset / ElementSize()] - 128) as real
    }
  }

  lemma RowMajor(k: nat, i: nat, rows: nat, cols: nat)
    requires k < rows && i < cols
    ensures 0 <= k * cols + i < rows * cols
  {
    assert k * cols + cols == (k + 1) * cols;
    assert (k + 1) * cols <= rows * cols;
  }

  /** Stepping `i` elements from the start of row `k` reads dimension `i` of element `k`. */
  lemma PointerReadsWeight(m: EmbeddingMatrix, k: nat, i: nat)
    requires m.Valid() && k < m.rows && i < m.cols
    ensures var offset := k * m.RowSizeInBytes() + i * m.ElementSize();
            && offset / m.ElementSize() < (if m.Floats? then |m.weights| else |m.bytes|)
            && m.ElementAt(offset) == m.Weight(k, i)
  {
    RowMajor(k, i, m.rows, m.cols);
    var size := m.ElementSize();
    assert k * (m.cols * size) == (k * m.cols) * size;
    assert k * m.RowSizeInBytes() + i * size == (k * m.cols + i) * size;
    assert ((k * m.cols + i) * size) / size == k * m.cols + i;
  }

  /** One feature: its slot in the space, its vocabulary index, and the weight of a continuous one. */
  datatype Feature = Feature(base: nat, continuous: bool, id: int, weight: real) {
    function Multiplier(scale: real): real {
      if continuous then scale * weight else scale
    }
  }

  type FeatureVector = seq<Feature>

  /** An embedding space of the model. */
  datatype Space = Space(offset: nat, dim: nat, numFeatures: nat, matrix: EmbeddingMatrix)

  datatype Model = Model(spaces: seq<Space>, concatLayerSize: nat) {
    predicate Valid() {
      forall e | 0 <= e < |spaces| :: spaces[e].matrix.Valid()
    }
  }

  /** The check on a whole space and the checks on one feature. */
  predicate SpaceChecks(space: Space) {
    space.matrix.cols == space.dim
  }

  predicate FeatureChecks(size: nat, space: Space, f: Feature) {
    space.offset + f.base * space.dim + space.dim <= size && 0 <= f.id < space.matrix.rows
  }

  predicate AllChecks(model: Model, features: seq<FeatureVector>)
    requires |features| <= |model.spaces|
  {
    forall e | 0 <= e < |features| ::
      && SpaceChecks(model.spaces[e])
      && forall f | f in features[e] :: FeatureChecks(model.concatLayerSize, model.spaces[e], f)
  }

  // ---- What the buffer should hold.

  /** What feature `f` of a space adds at position `j` of the buffer. */
  function Contribution(space: Space, f: Feature, j: nat): real
    requires space.matrix.Valid() && SpaceChecks(space) && 0 <= f.id < space.matrix.rows
  {
    var from := space.offset + f.base * space.dim;
    if from <= j < from + space.dim
    then space.matrix.Weight(f.id, j - from) * f.Multiplier(space.matrix.Scale(f.id))
    else 0.0
  }

  /** Checked spaces and features, so that contributions make sense. */
  predicate Sound(space: Space, fs: FeatureVector) {
    && space.matrix.Valid()
    && (fs != [] ==> SpaceChecks(space))
    && forall f | f in fs :: 0 <= f.id < space.matrix.rows
  }

  function FeatureSum(space: Space, fs: FeatureVector, j: nat): real
    requires Sound(space, fs)
  {
    if fs == [] then 0.0
    else FeatureSum(space, fs[..|fs| - 1], j) + Contribution(space, fs[|fs| - 1], j)
  }

  function ConcatAt(model: Model, features: seq<FeatureVector>, j: nat): real
    requires |features| <= |model.spaces|
    requires forall e | 0 <= e < |features| :: Sound(model.spaces[e], features[e])
  {
    if features == [] then 0.0
    else
      var last := |features| - 1;
      ConcatAt(model, features[..last], j) + FeatureSum(model.spaces[last], features[last], j)
  }

  // ---- The loops.

  method ConcatEmbeddings(model: Model, features: seq<FeatureVector>) returns (ok: bool, concat: array<real>)
    requires model.Valid() && |features| <= |model.spaces|
    ensures ok <==> AllChecks(model, features)
    ensures fresh(concat) && concat.Length == model.concatLayerSize
    ensures ok ==> forall j | 0 <= j < concat.Length :: concat[j] == ConcatAt(model, features, j)
  {
    concat := new real[model.concatLayerSize](_ => 0.0);
    for e := 0 to |features|
      invariant AllChecks(model, features[..e])
      invariant forall j | 0 <= j < concat.Length :: concat[j] == ConcatAt(model, features[..e], j)
    {
      ghost var before := concat[..];
      ok := AddSpace(model.spaces[e], features[e], concat);
      if !ok {
        return;
      }
      assert features[..e + 1][..e] == features[..e];
      forall j | 0 <= j < concat.Length ensures concat[j] == ConcatAt(model, features[..e + 1], j) {
        assert before[j] == ConcatAt(model, features[..e], j);
      }
    }
    assert features[..|features|] == features;
    ok := true;
  }

  /** The loop over the features of one space. */
  method AddSpace(space: Space, fs: FeatureVector, concat: array<real>) returns (ok: bool)
    requires space.matrix.Valid()
    modifies concat
    ensures ok <==> SpaceChecks(space) && forall f | f in fs :: FeatureChecks(concat.Length, space, f)
    ensures ok ==> forall j | 0 <= j < concat.Length ::
              concat[j] == old(concat[j]) + FeatureSum(space, fs, j)
  {
    if space.matrix.cols != space.dim {
      return false;
    }
    for fi := 0 to |fs|
      invariant forall f | f in fs[..fi] :: FeatureChecks(concat.Length, space, f)
      invariant forall j | 0 <= j < concat.Length ::
        concat[j] == old(concat[j]) + FeatureSum(space, fs[..fi], j)
    {
      assert fs[..fi + 1][..fi] == fs[..fi];
      ok := AddFeature(space, fs[fi], concat);
      if !ok {
        return;
      }
    }
    assert fs[..|fs|] == fs;
    ok := true;
  }

  /** The body of that loop: the scaled embedding of one feature is added in place. */
  method AddFeature(space: Space, f: Feature, concat: array<real>) returns (ok: bool)
    requires space.matrix.Valid() && SpaceChecks(space)
    modifies concat
    ensures ok <==> FeatureChecks(concat.Length, space, f)
    ensures ok ==> forall j | 0 <= j < concat.Length ::
              concat[j] == old(concat[j]) + Contribution(space, f, j)
    ensures !ok ==> concat[..] == old(concat[..])
  {
    var m := space.matrix;
    var featureOffset := space.offset + f.base * space.dim;
    if featureOffset + space.dim > concat.Length {
      return false;
    }
    var data, multiplier;
    ok, data, multiplier := m.GetEmbedding(f.id);
    if !ok {
      return;
    }
    if f.continuous {
      multiplier := multiplier * f.weight;
    }
    AddRow(m, f.id, data, multiplier, featureOffset, concat);
  }

  /** The innermost loop: both pointers advance together over the dimensions. */
  method AddRow(m: EmbeddingMatrix, k: nat, data: nat, multiplier: real, offset: nat, concat: array<real>)
    requires m.Valid() && k < m.rows && data == k * m.RowSizeInBytes()
    requires offset + m.cols <= concat.Length
    modifies concat
    ensures forall j | 0 <= j < concat.Length ::
      concat[j] == if offset <= j < offset + m.cols
                   then old(concat[j]) + m.Weight(k, j - offset) * multiplier else old(concat[j])
  {
    for i := 0 to m.cols
      invariant forall j | 0 <= j < concat.Length ::
        concat[j] == if offset <= j < offset + i
                     then old(concat[j]) + m.Weight(k, j - offset) * multiplier else old(concat[j])
    {
      PointerReadsWeight(m, k, i);
      hide *;
      var weight := m.ElementAt(data + i * m.ElementSize());
      concat[offset + i] := concat[offset + i] + weight * multiplier;
    }
  }

  // ---- Layout of the buffer.

  /** Sum of the sizes of the first spaces. */
  function Prefix(spaces: seq<Space>): nat {
    if spaces == [] then 0
    else Prefix(spaces[..|spaces| - 1]) + spaces[|spaces| - 1].dim * spaces[|spaces| - 1].numFeatures
  }

  predicate PrefixOffsets(spaces: seq<Space>) {
    forall e | 0 <= e < |spaces| :: spaces[e].offset == Prefix(spaces[..e])
  }

  /** Space by space: the first starts at zero, and each of the others where the one before it ends. */
  lemma OffsetsExactly(spaces: seq<Space>)
    ensures PrefixOffsets(spaces)
       <==> && (spaces != [] ==> spaces[0].offset == 0)
            && forall e | 1 <= e < |spaces| ::
                 spaces[e].offset == spaces[e - 1].offset + spaces[e - 1].dim * spaces[e - 1].numFeatures
  {
    if PrefixOffsets(spaces) {
      forall e | 1 <= e < |spaces|
        ensures spaces[e].offset == spaces[e - 1].offset + spaces[e - 1].dim * spaces[e - 1].numFeatures
      {
        assert spaces[..e][..e - 1] == spaces[..e - 1];
      }
    } else {
      var e :| 0 <= e < |spaces| && spaces[e].offset != Prefix(spaces[..e]);
      if (spaces != [] ==> spaces[0].offset == 0) && forall k | 1 <= k < |spaces| ::
           spaces[k].offset == spaces[k - 1].offset + spaces[k - 1].dim * spaces[k - 1].numFeatures
      {
        AdjacentOffsets(spaces, e);
      }
    }
  }

  lemma {:induction false} AdjacentOffsets(spaces: seq<Space>, e: nat)
    requires e < |spaces| && spaces[0].offset == 0
    requires forall k | 1 <= k < |spaces| ::
      spaces[k].offset == spaces[k - 1].offset + spaces[k - 1].dim * spaces[k - 1].numFeatures
    ensures spaces[e].offset == Prefix(spaces[..e])
    decreases e
  {
    if e > 0 {
      AdjacentOffsets(spaces, e - 1);
      assert spaces[..e][..e - 1] == spaces[..e - 1];
    }
  }

  /** The checks of the constructor on the offsets. */
  method CheckOffsets(spaces: seq<Space>) returns (ok: bool)
    ensures ok <==> PrefixOffsets(spaces)
  {
    var offsetSum := 0;
    for e := 0 to |spaces|
      invariant offsetSum == Prefix(spaces[..e])
      invariant forall d | 0 <= d < e :: spaces[d].offset == Prefix(spaces[..d])
    {
      if offsetSum != spaces[e].offset {
        return false;
      }
      assert spaces[..e + 1][..e] == spaces[..e];
      offsetSum := offsetSum + spaces[e].dim * spaces[e].numFeatures;
    }
    ok := true;
  }

  function BlockStart(space: Space, base: nat): nat {
    space.offset + base * space.dim
  }

  lemma {:induction false} PrefixGrows(spaces: seq<Space>, d: nat, e: nat)
    requires d <= e <= |spaces|
    ensures Prefix(spaces[..d]) <= Prefix(spaces[..e])
    ensures d < e ==> Prefix(spaces[..d]) + spaces[d].dim * spaces[d].numFeatures <= Prefix(spaces[..e])
    decreases e
  {
    if d < e {
      assert spaces[..e][..e - 1] == spaces[..e - 1];
      PrefixGrows(spaces, d, e - 1);
    }
  }

  lemma SlotsApart(a: nat, b: nat, size: nat)
    requires a < b
    ensures a * size + size <= b * size
  {
    assert (a + 1) * size <= b * size;
  }

  lemma BlockInSpace(space: Space, base: nat)
    requires base < space.numFeatures
    ensures BlockStart(space, base) + space.dim <= space.offset + space.dim * space.numFeatures
  {
    SlotsApart(base, space.numFeatures, space.dim);
  }

  /** With prefix offsets and bases below the feature count, every write is inside the buffer. */
  lemma WritesInBounds(model: Model, e: nat, base: nat)
    requires PrefixOffsets(model.spaces) && Prefix(model.spaces) <= model.concatLayerSize
    requires e < |model.spaces| && base < model.spaces[e].numFeatures
    ensures BlockStart(model.spaces[e], base) + model.spaces[e].dim <= model.concatLayerSize
  {
    BlockInSpace(model.spaces[e], base);
    PrefixGrows(model.spaces, e, |model.spaces|);
    assert model.spaces[..|model.spaces|] == model.spaces;
  }

  /** Matching dimensions, bases below the feature count, and ids below the vocabulary size. */
  predicate InModel(model: Model, features: seq<FeatureVector>) {
    && |features| <= |model.spaces|
    && forall e | 0 <= e < |features| ::
         && SpaceChecks(model.spaces[e])
         && BasesBounded(model.spaces[e], features[e])
         && forall f | f in features[e] :: 0 <= f.id < model.spaces[e].matrix.rows
  }

  /** Such features pass every check of a model with prefix-sum offsets, so `ConcatEmbeddings` succeeds. */
  lemma InModelPassesChecks(model: Model, features: seq<FeatureVector>)
    requires PrefixOffsets(model.spaces) && Prefix(model.spaces) <= model.concatLayerSize
    requires InModel(model, features)
    ensures AllChecks(model, features)
  {
    forall e, f | 0 <= e < |features| && f in features[e]
      ensures FeatureChecks(model.concatLayerSize, model.spaces[e], f)
    {
      WritesInBounds(model, e, f.base);
    }
  }

  /** Blocks of different spaces, or of different bases in one space, do not overlap. */
  lemma BlocksDisjoint(spaces: seq<Space>, d: nat, base: nat, e: nat, other: nat)
    requires PrefixOffsets(spaces) && d < |spaces| && e < |spaces|
    requires base < spaces[d].numFeatures && other < spaces[e].numFeatures
    requires d < e || (d == e && base < other)
    ensures BlockStart(spaces[d], base) + spaces[d].dim <= BlockStart(spaces[e], other)
  {
    if d < e {
      BlockInSpace(spaces[d], base);
      PrefixGrows(spaces, d, e);
    } else {
      SlotsApart(base, other, spaces[d].dim);
    }
  }

  // ---- What a block ends up with.

  /** Weight times multiplier in dimension `i`, for a feature in slot `base`. */
  function Term(space: Space, f: Feature, base: nat, i: nat): real
    requires space.matrix.Valid() && SpaceChecks(space) && 0 <= f.id < space.matrix.rows && i < space.dim
  {
    if f.base == base then space.matrix.Weight(f.id, i) * f.Multiplier(space.matrix.Scale(f.id)) else 0.0
  }

  /** The sum, over the features in slot `base`, of weight times multiplier in dimension `i`. */
  function BlockSum(space: Space, fs: FeatureVector, base: nat, i: nat): real
    requires Sound(space, fs) && i < space.dim
  {
    if fs == [] then 0.0
    else BlockSum(space, fs[..|fs| - 1], base, i) + Term(space, fs[|fs| - 1], base, i)
  }

  predicate BasesBounded(space: Space, fs: FeatureVector) {
    forall f | f in fs :: f.base < space.numFeatures
  }

  /** A feature of space `d` adds to block (e, base) only if it is that block. */
  lemma ContributionInBlock(spaces: seq<Space>, d: nat, f: Feature, e: nat, base: nat, i: nat)
    requires PrefixOffsets(spaces) && d < |spaces| && e < |spaces|
    requires base < spaces[e].numFeatures && f.base < spaces[d].numFeatures && i < spaces[e].dim
    requires spaces[d].matrix.Valid() && SpaceChecks(spaces[d]) && 0 <= f.id < spaces[d].matrix.rows
    ensures Contribution(spaces[d], f, BlockStart(spaces[e], base) + i)
         == if d == e then Term(spaces[d], f, base, i) else 0.0
  {
    if d < e || (d == e && f.base < base) {
      BlocksDisjoint(spaces, d, f.base, e, base);
    } else if e < d || f.base > base {
      BlocksDisjoint(spaces, e, base, d, f.base);
    }
  }

  lemma {:induction false} SpaceSumInBlock(
      spaces: seq<Space>, d: nat, fs: FeatureVector, e: nat, base: nat, i: nat)
    requires PrefixOffsets(spaces) && d < |spaces| && e < |spaces|
    requires base < spaces[e].numFeatures && i < spaces[e].dim
    requires Sound(spaces[d], fs) && BasesBounded(spaces[d], fs)
    ensures FeatureSum(spaces[d], fs, BlockStart(spaces[e], base) + i)
         == if d == e then BlockSum(spaces[d], fs, base, i) else 0.0
    decreases |fs|
  {
    hide Contribution, Term, PrefixOffsets, Prefix, EmbeddingMatrix.Valid;
    if fs != [] {
      assert fs[|fs| - 1] in fs;
      SpaceSumInBlock(spaces, d, fs[..|fs| - 1], e, base, i);
      ContributionInBlock(spaces, d, fs[|fs| - 1], e, base, i);
    }
  }

  /**
    Each block of the buffer ends as the weighted sum of the embeddings of its own features; the
    features of every other block leave it alone.
   */
  lemma {:induction false} BlockHolds(model: Model, features: seq<FeatureVector>, e: nat, base: nat, i: nat)
    requires PrefixOffsets(model.spaces) && |features| <= |model.spaces| && e < |model.spaces|
    requires base < model.spaces[e].numFeatures && i < model.spaces[e].dim
    requires forall d | 0 <= d < |features| ::
      Sound(model.spaces[d], features[d]) && BasesBounded(model.spaces[d], features[d])
    ensures ConcatAt(model, features, BlockStart(model.spaces[e], base) + i)
         == if e < |features| then BlockSum(model.spaces[e], features[e], base, i) else 0.0
    decreases |features|
  {
    hide BlockSum, FeatureSum, PrefixOffsets, Prefix, BlockStart, Sound, BasesBounded;
    if features != [] {
      var last := |features| - 1;
      assert forall d | 0 <= d < last :: features[..last][d] == features[d];
      BlockHolds(model, features[..last], e, base, i);
      SpaceSumInBlock(model.spaces, last, features[last], e, base, i);
    }
  }

  /** The sum of byte less 128, scale of the row and weight of the feature, over the features in slot `base`. */
  function QuantizedSum(space: Space, fs: FeatureVector, base: nat, i: nat): real
    requires space.matrix.Quantized? && Sound(space, fs) && i < space.matrix.cols
  {
    if fs == [] then 0.0 else
    var f, m := fs[|fs| - 1], space.matrix;
    QuantizedSum(space, fs[..|fs| - 1], base, i)
    + if f.base != base then 0.0
      else
        RowMajor(f.id, i, m.rows, m.cols);
        (m.bytes[f.id * m.cols + i] - 128) as real * m.scales[f.id] * (if f.continuous then f.weight else 1.0)
  }

  /** The sum of weight of the row and weight of the feature, over the features in slot `base`. */
  function FloatSum(space: Space, fs: FeatureVector, base: nat, i: nat): real
    requires space.matrix.Floats? && Sound(space, fs) && i < space.matrix.cols
  {
    if fs == [] then 0.0 else
    var f, m := fs[|fs| - 1], space.matrix;
    FloatSum(space, fs[..|fs| - 1], base, i)
    + if f.base != base then 0.0
      else
        RowMajor(f.id, i, m.rows, m.cols);
        m.weights[f.id * m.cols + i] * (if f.continuous then f.weight else 1.0)
  }

  lemma Regrouped(x: real, y: real, z: real)
    ensures x * y * z == x * (y * z) && y * 1.0 == y
  {
  }

  lemma {:induction false} BlockOfBytes(space: Space, fs: FeatureVector, base: nat, i: nat)
    requires space.matrix.Quantized? && Sound(space, fs) && SpaceChecks(space) && i < space.dim
    ensures BlockSum(space, fs, base, i) == QuantizedSum(space, fs, base, i)
    decreases |fs|
  {
    if fs != [] {
      var f, m := fs[|fs| - 1], space.matrix;
      assert f in fs;
      BlockOfBytes(space, fs[..|fs| - 1], base, i);
      Regrouped(m.Weight(f.id, i), m.scales[f.id], if f.continuous then f.weight else 1.0);
    }
  }

  lemma {:induction false} BlockOfFloats(space: Space, fs: FeatureVector, base: nat, i: nat)
    requires space.matrix.Floats? && Sound(space, fs) && SpaceChecks(space) && i < space.dim
    ensures BlockSum(space, fs, base, i) == FloatSum(space, fs, base, i)
    decreases |fs|
  {
    if fs != [] {
      var f := fs[|fs| - 1];
      assert f in fs;
      BlockOfFloats(space, fs[..|fs| - 1], base, i);
      Regrouped(space.matrix.Weight(f.id, i), 1.0, if f.continuous then f.weight else 1.0);
    }
  }

  /** On numbers: what the checked loops leave in dimension `i` of slot `base` of a space. */
  lemma BlockOnNumbers(model: Model, features: seq<FeatureVector>, e: nat, base: nat, i: nat)
    requires PrefixOffsets(model.spaces) && |features| <= |model.spaces| && e < |features|
    requires base < model.spaces[e].numFeatures && i < model.spaces[e].dim
    requires model.Valid() && InModel(model, features)
    ensures SoundAll(model, features)
    ensures var entry := ConcatAt(model, features, model.spaces[e].offset + base * model.spaces[e].dim + i);
            if model.spaces[e].matrix.Quantized? then entry == QuantizedSum(model.spaces[e], features[e], base, i)
            else entry == FloatSum(model.spaces[e], features[e], base, i)
  {
    BlockHolds(model, features, e, base, i);
    if model.spaces[e].matrix.Quantized? {
      BlockOfBytes(model.spaces[e], features[e], base, i);
    } else {
      BlockOfFloats(model.spaces[e], features[e], base, i);
    }
  }

  // ---- The order of the features does not matter.

  lemma FeatureSumLast(space: Space, fs: FeatureVector, j: nat)
    requires Sound(space, fs) && fs != []
    ensures Sound(space, fs[..|fs| - 1]) && Sound(space, [fs[|fs| - 1]])
    ensures FeatureSum(space, fs, j)
         == FeatureSum(space, fs[..|fs| - 1], j) + FeatureSum(space, [fs[|fs| - 1]], j)
  {
    hide Contribution, EmbeddingMatrix.Valid;
    assert fs[|fs| - 1] in fs && [fs[|fs| - 1]][..0] == [];
    assert FeatureSum(space, [], j) == 0.0;
  }

  lemma SoundParts(space: Space, fs: FeatureVector, gs: FeatureVector)
    requires Sound(space, fs) && forall f | f in gs :: f in fs
    ensures Sound(space, gs)
  {
    assert gs != [] ==> gs[0] in fs;
  }

  lemma {:induction false} RemoveOne(space: Space, fs: FeatureVector, k: nat, j: nat)
    requires Sound(space, fs) && k < |fs|
    ensures Sound(space, Without(fs, k)) && Sound(space, [fs[k]])
    ensures FeatureSum(space, fs, j) == FeatureSum(space, Without(fs, k), j) + FeatureSum(space, [fs[k]], j)
    decreases |fs|
  {
    WithoutMultiset(fs, k);
    WithoutFront(fs, k);
    SoundParts(space, fs, Without(fs, k));
    FeatureSumLast(space, fs, j);
    hide FeatureSum, Sound, Without;
    if k < |fs| - 1 {
      var front := fs[..|fs| - 1];
      assert front[k] == fs[k];
      RemoveOne(space, front, k, j);
      FeatureSumLast(space, Without(fs, k), j);
    }
  }

  /** Any permutation of a feature vector adds the same everywhere in the buffer. */
  lemma {:induction false} OrderDoesNotMatter(space: Space, fs: FeatureVector, gs: FeatureVector, j: nat)
    requires Sound(space, fs) && Sound(space, gs)
    requires multiset(fs) == multiset(gs)
    ensures FeatureSum(space, fs, j) == FeatureSum(space, gs, j)
    decreases |fs|
  {
    hide Without, FeatureSum, Sound;
    if fs == [] {
      assert |multiset(gs)| == 0;
    } else {
      var k := PlaceOfLast(fs, gs);
      RemoveOne(space, gs, k, j);
      RemoveOne(space, fs, |fs| - 1, j);
      OrderDoesNotMatter(space, Without(fs, |fs| - 1), Without(gs, k), j);
    }
  }

  predicate SoundAll(model: Model, features: seq<FeatureVector>) {
    && |features| <= |model.spaces|
    && forall e | 0 <= e < |features| :: Sound(model.spaces[e], features[e])
  }

  /** Each feature vector of one list is a permutation of the one in the other. */
  predicate Permuted(features: seq<FeatureVector>, shuffled: seq<FeatureVector>) {
    && |features| == |shuffled|
    && forall e | 0 <= e < |features| :: multiset(features[e]) == multiset(shuffled[e])
  }

  /** The whole buffer is the same for any order of the features of each space. */
  lemma {:induction false} BufferIgnoresOrder(
      model: Model, features: seq<FeatureVector>, shuffled: seq<FeatureVector>, j: nat)
    requires SoundAll(model, features) && SoundAll(model, shuffled) && Permuted(features, shuffled)
    ensures ConcatAt(model, features, j) == ConcatAt(model, shuffled, j)
    decreases |features|
  {
    hide Sound, FeatureSum;
    if features != [] {
      var last := |features| - 1;
      BufferIgnoresOrder(model, features[..last], shuffled[..last], j);
      OrderDoesNotMatter(model.spaces[last], features[last], shuffled[last], j);
    }
  }
}
