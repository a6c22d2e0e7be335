/** OpRegionFeatures and OpCachedRegionFeatures: the slicer / wrapped-extractor / stacker
    composite, and the cache block shape that stores each (t,c) cell on its own. */
module RegionFeatures {
  import opened Common
  import opened TaggedShapes

  /** Output metadata of the composite: the t and c entries of the input, in input order and
      with their full extents (what the time and channel stackers publish). */
  function CompositeOutputMeta(raw: Meta): Meta
    requires |raw.shape| == |raw.tags|
  {
    Meta(Drop(raw.tags, raw.shape, Spatial), Drop(raw.tags, raw.tags, Spatial))
  }

  /** `(1,) * n` */
  function Ones(n: nat): (r: seq<nat>)
    ensures |r| == n && forall i :: 0 <= i < n ==> r[i] == 1
  {
    seq(n, i => 1)
  }

  /** `OpCachedRegionFeatures.setupOutputs`: the two equality asserts, then a block shape of one
      element per axis of the composite's output. */
  function CachedSetupOutputs(raw: Meta, labels: Meta): (blockShape: Result<seq<nat>>)
    requires WellFormed(raw) && WellFormed(labels)
    ensures blockShape.Ok? <==> labels.shape == raw.shape && labels.tags == raw.tags
    ensures labels.shape != raw.shape ==> blockShape == Err(ShapeMismatch)
    ensures labels.shape == raw.shape && labels.tags != raw.tags ==> blockShape == Err(AxisTagMismatch)
    ensures blockShape.Ok? ==> |blockShape.value| == |CompositeOutputMeta(raw).shape|
    ensures blockShape.Ok? ==> forall i :: 0 <= i < |blockShape.value| ==> blockShape.value[i] == 1
  {
    if labels.shape != raw.shape then Err(ShapeMismatch)
    else if labels.tags != raw.tags then Err(AxisTagMismatch)
    else Ok(Ones(|CompositeOutputMeta(raw).shape|))
  }

  /** The block-grid coordinate of a point: its coordinates integer-divided by the block shape. */
  function BlockIndex(p: seq<nat>, blockShape: seq<nat>): seq<nat>
    requires |p| == |blockShape| && forall i :: 0 <= i < |blockShape| ==> blockShape[i] > 0
  {
    seq(|p|, i requires 0 <= i < |p| => p[i] / blockShape[i])
  }

  /** The region a block covers. */
  function BlockBox(b: seq<nat>, blockShape: seq<nat>): Box
    requires |b| == |blockShape|
  {
    Box(seq(|b|, i requires 0 <= i < |b| => b[i] * blockShape[i]),
        seq(|b|, i requires 0 <= i < |b| => (b[i] + 1) * blockShape[i]))
  }

  /** With the all-ones block shape each block holds exactly one cell: the point itself. */
  lemma UnitBlocksAreCells(p: seq<nat>, q: seq<int>)
    requires |p| == |q|
    ensures InBox(q, BlockBox(BlockIndex(p, Ones(|p|)), Ones(|p|))) <==> q == p
  {
    var bb := BlockBox(BlockIndex(p, Ones(|p|)), Ones(|p|));
    assert forall i :: 0 <= i < |p| ==> bb.start[i] == p[i] && bb.stop[i] == p[i] + 1;
    if InBox(q, bb) {
      assert forall i :: 0 <= i < |p| ==> q[i] == p[i];
    }
  }

  // Slot nesting levels. A slicer turns an array slot into a list of slots (one level more),
  // a stacker does the reverse, and each OperatorWrapper around an operator raises the
  // level of all its slots by one.

  datatype InnerOperator = Slicer | Stacker | Features3d

  /** An inner operator wrapped `wrappers` times in OperatorWrapper. */
  datatype Stage = Stage(op: InnerOperator, wrappers: nat)

  function InputLevel(s: Stage): nat {
    (match s.op case Slicer => 0 case Stacker => 1 case Features3d => 0) + s.wrappers
  }

  function OutputLevel(s: Stage): nat {
    (match s.op case Slicer => 1 case Stacker => 0 case Features3d => 0) + s.wrappers
  }

  /** Each stage's input level equals the level of the slot it is connected to. */
  predicate Connects(stages: seq<Stage>, level: nat) {
    stages == [] || (InputLevel(stages[0]) == level && Connects(stages[1..], OutputLevel(stages[0])))
  }

  function OutputLevels(stages: seq<Stage>, level: nat): (ls: seq<nat>)
    ensures |ls| == |stages|
  {
    if stages == [] then [] else [OutputLevel(stages[0])] + OutputLevels(stages[1..], OutputLevel(stages[0]))
  }

  /** The chain built in `OpRegionFeatures.__init__`: time slicer, wrapped channel slicer,
      doubly wrapped OpRegionFeatures3d, wrapped channel stacker, time stacker. */
  const RegionFeaturesStages: seq<Stage> :=
    [Stage(Slicer, 0), Stage(Slicer, 1), Stage(Features3d, 2), Stage(Stacker, 1), Stage(Stacker, 0)]

  /** The level asserts of the constructor hold and the output is back at the input's level. */
  lemma RegionFeaturesLevels()
    ensures Connects(RegionFeaturesStages, 0)
    ensures OutputLevels(RegionFeaturesStages, 0) == [1, 2, 2, 1, 0]
  {
  }

  function Wrap(stages: seq<Stage>, k: nat): (r: seq<Stage>)
    ensures |r| == |stages|
    ensures forall i :: 0 <= i < |r| ==> r[i] == Stage(stages[i].op, stages[i].wrappers + k)
  {
    seq(|stages|, i requires 0 <= i < |stages| => Stage(stages[i].op, stages[i].wrappers + k))
  }

  /** Wrapping every stage of a chain k more times gives a chain that connects k levels up,
      with every output level raised by k: nesting depth is a parameter of the chain. */
  lemma {:induction false} WrapConnects(stages: seq<Stage>, level: nat, k: nat)
    requires Connects(stages, level)
    ensures Connects(Wrap(stages, k), level + k)
    ensures forall i :: 0 <= i < |stages| ==>
              OutputLevels(Wrap(stages, k), level + k)[i] == OutputLevels(stages, level)[i] + k
  {
    if stages != [] {
      var w := Wrap(stages, k);
      assert w[1..] == Wrap(stages[1..], k);
      WrapConnects(stages[1..], OutputLevel(stages[0]), k);
      assert OutputLevel(w[0]) == OutputLevel(stages[0]) + k;
      forall i | 0 <= i < |stages|
        ensures OutputLevels(w, level + k)[i] == OutputLevels(stages, level)[i] + k
      {
        if i > 0 {
          assert OutputLevels(w, level + k)[i] == OutputLevels(w[1..], OutputLevel(w[0]))[i - 1];
          assert OutputLevels(stages, level)[i] == OutputLevels(stages[1..], OutputLevel(stages[0]))[i - 1];
        }
      }
    }
  }
}
