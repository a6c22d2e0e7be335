/** OpRegionFeatures3d: region features of one (t,c) cell of a volume with x, y and z axes
    and, optionally, t and c axes of extent 1. */
module RegionFeatures3d {
  import opened Common
  import opened TaggedShapes

  /** An image slot's contents: metadata and voxels in storage order. */
  datatype Volume = Volume(meta: Meta, voxels: seq<int>)

  /** The value vigra's region-feature accumulator returns. The model knows nothing of its
      contents, only which inputs it was computed from. */
  datatype Record = RegionFeatureRecord(image: Volume, labels: Volume, features: set<string>)

  function ExtractRegionFeatures(image: Volume, labels: Volume, features: set<string>): Record {
    RegionFeatureRecord(image, labels, features)
  }

  const TimeChannel: set<char> := {'t', 'c'}

  /** The conditions `setupOutputs` asserts, stated position by position. */
  predicate SetupAccepts(raw: Meta, labels: Meta) {
    labels.shape == raw.shape && labels.tags == raw.tags && |raw.shape| == |raw.tags| &&
    (forall i :: 0 <= i < |raw.tags| && raw.tags[i] in TimeChannel ==> raw.shape[i] == 1) &&
    (forall k :: k in raw.tags ==> k in TimeChannel || k in Spatial) &&
    'x' in raw.tags && 'y' in raw.tags && 'z' in raw.tags
  }

  predicate ExtentNotOne(m: Meta, k: char)
    requires |m.shape| == |m.tags|
  {
    exists i :: 0 <= i < |m.tags| && m.tags[i] == k && m.shape[i] != 1
  }

  /** The output metadata: the input with x, y and z deleted. */
  function SetupOutputs(raw: Meta, labels: Meta): (r: Result<Meta>)
    requires WellFormed(raw) && WellFormed(labels)
    ensures r.Ok? <==> SetupAccepts(raw, labels)
    ensures labels.shape != raw.shape ==> r == Err(ShapeMismatch)
    ensures labels.shape == raw.shape && labels.tags != raw.tags ==> r == Err(AxisTagMismatch)
    ensures labels == raw && ExtentNotOne(raw, 't') ==> r == Err(TimeExtentNotOne)
    ensures labels == raw && !ExtentNotOne(raw, 't') && ExtentNotOne(raw, 'c') ==> r == Err(ChannelExtentNotOne)
    ensures r.Err? && r.error !in {ShapeMismatch, AxisTagMismatch, TimeExtentNotOne, ChannelExtentNotOne} ==> r.error == NotXyz
    ensures r.Ok? ==> r.value.shape == Drop(raw.tags, raw.shape, Spatial)
    ensures r.Ok? ==> r.value.tags == Drop(raw.tags, raw.tags, Spatial)
    ensures r.Ok? ==> WellFormed(r.value) && |r.value.tags| + 3 == |raw.tags|
    ensures r.Ok? ==> forall k :: k in r.value.tags ==> k in TimeChannel
    ensures r.Ok? ==> forall i :: 0 <= i < |r.value.shape| ==> r.value.shape[i] == 1
  {
    if labels.shape != raw.shape then Err(ShapeMismatch)
    else if labels.tags != raw.tags then Err(AxisTagMismatch)
    else SetupTagged(labels)
  }

  /** The part of `setupOutputs` after the two equality asserts, on the label volume's tagged shape. */
  function SetupTagged(m: Meta): (r: Result<Meta>)
    requires WellFormed(m)
    ensures r.Ok? <==> SetupAccepts(m, m)
    ensures ExtentNotOne(m, 't') ==> r == Err(TimeExtentNotOne)
    ensures !ExtentNotOne(m, 't') && ExtentNotOne(m, 'c') ==> r == Err(ChannelExtentNotOne)
    ensures r.Err? && r.error !in {TimeExtentNotOne, ChannelExtentNotOne} ==> r.error == NotXyz
    ensures r.Ok? ==> r.value == Meta(Drop(m.tags, m.shape, Spatial), Drop(m.tags, m.tags, Spatial))
    ensures r.Ok? ==> WellFormed(r.value) && |r.value.tags| + 3 == |m.tags|
    ensures r.Ok? ==> forall k :: k in r.value.tags ==> k in TimeChannel
    ensures r.Ok? ==> forall i :: 0 <= i < |r.value.shape| ==> r.value.shape[i] == 1
  {
    var tagged := Tagged(m);
    SetupFacts(m);
    AcceptsIff(m);
    if 't' in Keys(tagged) && Lookup(tagged, 't') != Ok(1) then Err(TimeExtentNotOne)
    else if 'c' in Keys(tagged) && Lookup(tagged, 'c') != Ok(1) then Err(ChannelExtentNotOne)
    else if (set k | k in Keys(tagged)) - {'t', 'c'} != Spatial then Err(NotXyz)
    else
      OutputFacts(m);
      match DelSpatial(tagged)
      case Ok(out) => Ok(Meta(Values(out), Keys(out)))
      case Err(e) => Err(e)
  }

  lemma AcceptsIff(m: Meta)
    requires WellFormed(m)
    ensures SetupAccepts(m, m) <==>
            !ExtentNotOne(m, 't') && !ExtentNotOne(m, 'c') &&
            (forall k :: k in m.tags ==> k in TimeChannel || k in Spatial) &&
            'x' in m.tags && 'y' in m.tags && 'z' in m.tags
  {
    if !ExtentNotOne(m, 't') && !ExtentNotOne(m, 'c') {
      forall i | 0 <= i < |m.tags| && m.tags[i] in TimeChannel ensures m.shape[i] == 1 {
        assert m.tags[i] == 't' || m.tags[i] == 'c';
      }
    }
  }

  lemma OutputFacts(m: Meta)
    requires WellFormed(m) && SetupAccepts(m, m)
    ensures forall k :: k in Drop(m.tags, m.tags, Spatial) ==> k in TimeChannel
    ensures forall j :: 0 <= j < |Drop(m.tags, m.shape, Spatial)| ==> Drop(m.tags, m.shape, Spatial)[j] == 1
  {
    DropAxesKept(m.tags, Spatial);
    DropConstant(m.tags, m.shape, Spatial, 1);
  }

  /** The facts `SetupOutputs` needs about the tagged shape of well-formed metadata. */
  lemma SetupFacts(m: Meta)
    requires WellFormed(m)
    ensures Keys(Tagged(m)) == m.tags
    ensures ('t' in m.tags && Lookup(Tagged(m), 't') != Ok(1)) <==> ExtentNotOne(m, 't')
    ensures ('c' in m.tags && Lookup(Tagged(m), 'c') != Ok(1)) <==> ExtentNotOne(m, 'c')
    ensures ((set k | k in m.tags) - {'t', 'c'} == Spatial) <==>
            ((forall k :: k in m.tags ==> k in TimeChannel || k in Spatial) &&
             'x' in m.tags && 'y' in m.tags && 'z' in m.tags)
    ensures 'x' in m.tags && 'y' in m.tags && 'z' in m.tags ==>
            DelSpatial(Tagged(m)) == Ok(Without(Tagged(m), Spatial)) &&
            Values(Without(Tagged(m), Spatial)) == Drop(m.tags, m.shape, Spatial) &&
            Keys(Without(Tagged(m), Spatial)) == Drop(m.tags, m.tags, Spatial) &&
            |Without(Tagged(m), Spatial)| + 3 == |m.tags| &&
            Distinct(Drop(m.tags, m.tags, Spatial))
  {
    KeysZip(m.tags, m.shape);
    ExtentCheck(m, 't');
    ExtentCheck(m, 'c');
    KeySetCheck(m.tags);
    if 'x' in m.tags && 'y' in m.tags && 'z' in m.tags {
      DeleteFacts(m);
    }
  }

  lemma ExtentCheck(m: Meta, k: char)
    requires WellFormed(m)
    ensures (k in m.tags && Lookup(Tagged(m), k) != Ok(1)) <==> ExtentNotOne(m, k)
  {
    if k in m.tags {
      var i :| 0 <= i < |m.tags| && m.tags[i] == k;
      LookupZip(m.tags, m.shape, i);
      if ExtentNotOne(m, k) {
        var j :| 0 <= j < |m.tags| && m.tags[j] == k && m.shape[j] != 1;
        assert i == j;
      }
    }
  }

  lemma KeySetCheck(tags: seq<char>)
    ensures ((set k | k in tags) - {'t', 'c'} == Spatial) <==>
            ((forall k :: k in tags ==> k in TimeChannel || k in Spatial) &&
             'x' in tags && 'y' in tags && 'z' in tags)
  {
    var ks := set k | k in tags;
    if (forall k :: k in tags ==> k in TimeChannel || k in Spatial) &&
       'x' in tags && 'y' in tags && 'z' in tags {
      assert ks - {'t', 'c'} == Spatial;
    }
    if ks - {'t', 'c'} == Spatial {
      assert 'x' in ks && 'y' in ks && 'z' in ks;
      forall k | k in tags ensures k in TimeChannel || k in Spatial {
        assert k in ks;
      }
    }
  }

  lemma DeleteFacts(m: Meta)
    requires WellFormed(m) && 'x' in m.tags && 'y' in m.tags && 'z' in m.tags
    ensures DelSpatial(Tagged(m)) == Ok(Without(Tagged(m), Spatial))
    ensures Values(Without(Tagged(m), Spatial)) == Drop(m.tags, m.shape, Spatial)
    ensures Keys(Without(Tagged(m), Spatial)) == Drop(m.tags, m.tags, Spatial)
    ensures |Without(Tagged(m), Spatial)| + 3 == |m.tags|
    ensures Distinct(Drop(m.tags, m.tags, Spatial))
  {
    var d := Tagged(m);
    KeysZip(m.tags, m.shape);
    DelSpatialIsWithout(d);
    WithoutZip(m.tags, m.shape, Spatial);
    DistinctWithout(d, Spatial);
    var dx := Del(d, 'x').value;
    var dy := Del(dx, 'y').value;
    assert DelSpatial(d) == Del(dy, 'z');
  }

  /** `withAxes(*spatialAxes)`, with `spatialAxes` the letters of the volume in 'xyz', in their
      order: the same voxels viewed with only those axes. */
  function To3d(v: Volume): (v3: Volume)
    requires |v.meta.shape| == |v.meta.tags|
    ensures forall k :: k in v3.meta.tags ==> k in Spatial && k in v.meta.tags
    ensures v3.voxels == v.voxels
  {
    var others := (set k | k in v.meta.tags) - Spatial;
    DropAxesKept(v.meta.tags, others);
    Volume(Meta(Drop(v.meta.tags, v.meta.shape, others), Drop(v.meta.tags, v.meta.tags, others)), v.voxels)
  }

  /** `numpy.prod(roi.stop - roi.start)` */
  function CellCount(start: seq<nat>, stop: seq<nat>): int
    requires |start| == |stop|
  {
    if start == [] then 1 else (stop[0] - start[0]) * CellCount(start[1..], stop[1..])
  }

  /** `execute`: the whole raw and labels volume go to the accumulator, and its record is
      stored at `roi.start`; the roi must have the output's rank and address one cell. */
  function Execute(out: Meta, raw: Volume, labels: Volume, features: set<string>, roi: Box,
                   result: map<seq<nat>, Record>): (r: Result<map<seq<nat>, Record>>)
    requires |raw.meta.shape| == |raw.meta.tags| && |labels.meta.shape| == |labels.meta.tags|
    ensures r.Ok? <==> |roi.start| == |roi.stop| == |out.shape| && CellCount(roi.start, roi.stop) == 1
    ensures r.Err? && |roi.start| == |roi.stop| == |out.shape| ==> r.error == NotOneCell
    ensures r.Err? && !(|roi.start| == |roi.stop| == |out.shape|) ==> r.error == RankMismatch
    ensures r.Ok? ==> r.value.Keys == result.Keys + {roi.start}
    ensures r.Ok? ==> r.value[roi.start] == ExtractRegionFeatures(To3d(raw), To3d(labels), features)
    ensures r.Ok? ==> forall k :: k in result && k != roi.start ==> r.value[k] == result[k]
  {
    if !(|roi.start| == |roi.stop| == |out.shape|) then Err(RankMismatch)
    else if CellCount(roi.start, roi.stop) != 1 then Err(NotOneCell)
    else Ok(result[roi.start := ExtractRegionFeatures(To3d(raw), To3d(labels), features)])
  }

  /** For an ordered roi, `prod(stop - start) == 1` exactly when every extent is 1. */
  lemma {:induction false} OneCellIffUnitExtents(roi: Box)
    requires Ordered(roi)
    ensures CellCount(roi.start, roi.stop) == 1 <==>
            forall i :: 0 <= i < |roi.start| ==> roi.stop[i] == roi.start[i] + 1
    decreases |roi.start|
  {
    if roi.start != [] {
      var rest := Box(roi.start[1..], roi.stop[1..]);
      OneCellIffUnitExtents(rest);
      CellCountNonNegative(rest.start, rest.stop);
      var a := roi.stop[0] - roi.start[0];
      var b := CellCount(rest.start, rest.stop);
      assert CellCount(roi.start, roi.stop) == a * b;
      if a * b == 1 {
        ProductOne(a, b);
      }
      if forall i :: 0 <= i < |roi.start| ==> roi.stop[i] == roi.start[i] + 1 {
        assert forall i :: 0 <= i < |rest.start| ==> rest.stop[i] == rest.start[i] + 1 by {
          forall i | 0 <= i < |rest.start| ensures rest.stop[i] == rest.start[i] + 1 {
            assert roi.stop[i + 1] == roi.start[i + 1] + 1;
          }
        }
      }
      if a == 1 && b == 1 {
        forall i | 0 <= i < |roi.start| ensures roi.stop[i] == roi.start[i] + 1 {
          if i > 0 {
            assert rest.stop[i - 1] == rest.start[i - 1] + 1;
          }
        }
      }
    }
  }

  lemma {:induction false} CellCountNonNegative(start: seq<nat>, stop: seq<nat>)
    requires Ordered(Box(start, stop))
    ensures CellCount(start, stop) >= 0
  {
    if start != [] {
      CellCountNonNegative(start[1..], stop[1..]);
    }
  }

  lemma ProductOne(a: int, b: int)
    requires a >= 0 && b >= 0 && a * b == 1
    ensures a == 1 && b == 1
  {
    assert a != 0 && b != 0;
    assert a * b >= a && a * b >= b;
  }

  /** Once `setupOutputs` succeeded every output extent is 1, so a one-cell roi inside the
      output can only be the origin cell: `result[tuple(roi.start)]` is the output's single cell. */
  lemma OneCellRoiIsOrigin(raw: Meta, labels: Meta, roi: Box)
    requires WellFormed(raw) && WellFormed(labels) && SetupOutputs(raw, labels).Ok?
    requires Ordered(roi) && |roi.stop| == |SetupOutputs(raw, labels).value.shape|
    requires forall i :: 0 <= i < |roi.stop| ==> roi.stop[i] <= SetupOutputs(raw, labels).value.shape[i]
    requires CellCount(roi.start, roi.stop) == 1
    ensures roi.start == Zeros(|roi.start|)
    ensures roi.stop == SetupOutputs(raw, labels).value.shape
  {
    OneCellIffUnitExtents(roi);
    var out := SetupOutputs(raw, labels).value;
    forall i | 0 <= i < |roi.start| ensures roi.start[i] == 0 && roi.stop[i] == out.shape[i] {
      assert roi.stop[i] == roi.start[i] + 1 <= out.shape[i] == 1;
    }
  }

  /** `propagateDirty`: the dirty box of the input with its x, y and z coordinates deleted. */
  function PropagateDirty(axes: seq<char>, roi: Box): (r: Result<Box>)
    requires |roi.start| == |axes| && |roi.stop| == |axes| && Distinct(axes)
    ensures r.Ok? <==> 'x' in axes && 'y' in axes && 'z' in axes
    ensures r.Err? ==> r.error == KeyMissing(FirstMissingSpatial(axes))
    ensures r.Ok? ==> r.value == Box(Drop(axes, roi.start, Spatial), Drop(axes, roi.stop, Spatial))
  {
    DirtyFacts(axes, roi.start);
    DirtyFacts(axes, roi.stop);
    match DelSpatial(Zip(axes, roi.start))
    case Err(e) => Err(e)
    case Ok(dirtyStart) =>
      match DelSpatial(Zip(axes, roi.stop))
      case Err(e) => Err(e)
      case Ok(dirtyStop) => Ok(Box(Values(dirtyStart), Values(dirtyStop)))
  }

  lemma DirtyFacts(axes: seq<char>, s: seq<nat>)
    requires |s| == |axes| && Distinct(axes)
    ensures DelSpatial(Zip(axes, s)).Ok? <==> 'x' in axes && 'y' in axes && 'z' in axes
    ensures DelSpatial(Zip(axes, s)).Err? ==>
            DelSpatial(Zip(axes, s)).error == KeyMissing(FirstMissingSpatial(axes))
    ensures DelSpatial(Zip(axes, s)).Ok? ==> Values(DelSpatial(Zip(axes, s)).value) == Drop(axes, s, Spatial)
  {
    KeysZip(axes, s);
    if 'x' in axes && 'y' in axes && 'z' in axes {
      DelSpatialIsWithout(Zip(axes, s));
      WithoutZip(axes, s, Spatial);
    } else {
      DelSpatialFails(Zip(axes, s));
    }
  }

  /** The `del` chain raises a KeyError for the first of x, y, z that is missing. */
  lemma DelSpatialFails<V>(d: seq<(char, V)>)
    requires Distinct(Keys(d))
    requires !('x' in Keys(d) && 'y' in Keys(d) && 'z' in Keys(d))
    ensures DelSpatial(d).Err?
    ensures DelSpatial(d).error == KeyMissing(FirstMissingSpatial(Keys(d)))
  {
    if 'x' in Keys(d) {
      DelIsWithout(d, 'x');
      DistinctWithout(d, {'x'});
      var dx := Without(d, {'x'});
      if 'y' in Keys(d) {
        KeysWithout(d, {'x'}, 'y');
        DelIsWithout(dx, 'y');
        DistinctWithout(dx, {'y'});
        assert 'z' !in Keys(Without(dx, {'y'}));
      } else {
        assert 'y' !in Keys(dx);
      }
    }
  }

  /** Dirty propagation never under-approximates: every voxel of the dirty input box has
      its (t,c) cell inside the dirty output box. */
  lemma DirtyCoversChangedVoxels(axes: seq<char>, roi: Box, p: seq<int>)
    requires |roi.start| == |axes| && |roi.stop| == |axes| && Distinct(axes)
    requires 'x' in axes && 'y' in axes && 'z' in axes
    requires InBox(p, roi)
    ensures InBox(Drop(axes, p, Spatial), PropagateDirty(axes, roi).value)
  {
    DropBox(axes, p, roi, Spatial);
  }

  /** A voxel of the input box that lies over the output cell `q`: spatial coordinates at
      the box's start, t and c taken from `q`. */
  function Lift(axes: seq<char>, q: seq<int>, start: seq<nat>): seq<int>
    requires |axes| == |start|
  {
    if axes == [] then []
    else if axes[0] in Spatial then [start[0] as int] + Lift(axes[1..], q, start[1..])
    else if q == [] then [0] + Lift(axes[1..], q, start[1..])
    else [q[0]] + Lift(axes[1..], q[1..], start[1..])
  }

  /** Nor does it over-approximate when the spatial extents are non-empty: every cell of the
      dirty output box is the (t,c) cell of some voxel of the dirty input box. */
  lemma {:induction false} DirtyCellsComeFromVoxels(axes: seq<char>, roi: Box, q: seq<int>)
    requires |roi.start| == |axes| && |roi.stop| == |axes|
    requires forall i :: 0 <= i < |axes| && axes[i] in Spatial ==> roi.start[i] < roi.stop[i]
    requires InBox(q, Box(Drop(axes, roi.start, Spatial), Drop(axes, roi.stop, Spatial)))
    ensures InBox(Lift(axes, q, roi.start), roi)
    ensures Drop(axes, Lift(axes, q, roi.start), Spatial) == q
  {
    if axes != [] {
      var rest := Box(roi.start[1..], roi.stop[1..]);
      var ds := Drop(axes, roi.start, Spatial);
      var de := Drop(axes, roi.stop, Spatial);
      if axes[0] in Spatial {
        assert ds == Drop(axes[1..], rest.start, Spatial);
        assert de == Drop(axes[1..], rest.stop, Spatial);
        DirtyCellsComeFromVoxels(axes[1..], rest, q);
      } else {
        assert ds == [roi.start[0]] + Drop(axes[1..], rest.start, Spatial);
        assert de == [roi.stop[0]] + Drop(axes[1..], rest.stop, Spatial);
        assert InBox(q[1..], Box(ds[1..], de[1..])) by {
          forall i | 0 <= i < |q| - 1 ensures ds[1..][i] <= q[1..][i] < de[1..][i] {
            assert ds[i + 1] <= q[i + 1] < de[i + 1];
          }
        }
        assert ds[1..] == Drop(axes[1..], rest.start, Spatial);
        DirtyCellsComeFromVoxels(axes[1..], rest, q[1..]);
        assert ds[0] <= q[0] < de[0];
      }
      var l := Lift(axes, q, roi.start);
      assert l[1..] == Lift(axes[1..], if axes[0] in Spatial then q else q[1..], rest.start);
      forall i | 0 <= i < |l| ensures roi.start[i] <= l[i] < roi.stop[i] {
        if i > 0 {
          assert rest.start[i - 1] <= l[1..][i - 1] < rest.stop[i - 1];
        }
      }
    }
  }
}
