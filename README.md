# ilastik object extraction, modelled in Dafny

This project models the object-extraction operators of ilastik
(`ilastik/applets/objectExtraction/opObjectExtraction.py`) and proves properties of them.
These are the lazyflow operators that turn a raw image and a label image into region-feature
records for every (t, c) cell, re-serve those records per time step, and paint a cross at
every object's centre.

- **Tagged shapes** (`tagged_shape.dfy`, module `TaggedShapes`). An axis-tagged shape is an
  ordered dictionary from axis letter to extent. It is modelled as a sequence of pairs.
  Lookup, `index` and OrderedDict `del` are written out, and `del` raises a KeyError for a
  missing key. The filter `Without` and the parallel-sequence filter `Drop` serve as
  reference definitions.
- **OpRegionFeatures3d** (`region_features3d.dfy`). This module covers the setup checks, the
  derived output metadata (x, y and z deleted), the one-cell `execute` contract and the dirty
  mapping. Proved about the dirty mapping: it is sound (every changed voxel's cell is dirty)
  and tight (when the dirty box is non-empty along x, y and z, every dirty cell comes from some
  voxel of it). vigra's accumulator is a free constructor of its inputs.
- **OpRegionFeatures / OpCachedRegionFeatures** (`region_features.dfy`). This module covers
  the all-ones cache block shape and the slot nesting levels of the slicer, wrapper and
  stacker chain. Proved about the block shape: each block holds exactly one cell.
- **OpAdaptTimeListRoi** (`adapt_time_list.dfy`). This module covers the t-extent output
  shape, `execute` (a method with loops building the time → per-channel-records dictionary)
  and the time-list dirty notice.
- **OpObjectCenterImage** (`object_center_image.dfy`). This module covers
  `__contained_in_subregion` (a boolean fold loop), `__make_key`, and `execute` as methods
  over a 5-d `array5` buffer. It proves that after `execute` every cell is 255 exactly where
  a non-background centre's cross meets the roi, and 0 elsewhere. It also covers the dirty
  rule.
- **OpObjectExtraction** (`object_extraction.dfy`). This module covers the feature-name union
  and the composite operators' unreachable `execute`.

Failures the source signals with `assert`, `KeyError`, `ValueError` or `IndexError` become
`Err` values of `Common.Result`. Nothing that the caller can trigger is excluded by a
precondition. The exceptions are the txyzc axis order and the one-channel roi of
OpObjectCenterImage; both are listed below.

Slot metadata is assumed well formed: one extent per axis letter, and no letter twice. vigra
axistags guarantee this.

Contents of upstream slots are parameters:
- the raw and label volumes;
- the (t,c) record array, as a function `cells` from coordinate to record;
- the region centres, as a function from time to per-channel centre rows.

The model assumes two upstream contracts:
- a box request to an upstream slot fails when the box is unordered or reaches past the shape
  (`AdaptTimeList.Fetch`);
- the stackers publish the t and c entries of the input (`RegionFeatures.CompositeOutputMeta`).

## Model

| member | source | states |
|---|---|---|
| TaggedShapes.Lookup | ilastik/applets/objectExtraction/opObjectExtraction.py:249 | `taggedShape[k]` succeeds iff k is a key, with KeyError(k) otherwise, and returns a value stored under k |
| TaggedShapes.IndexOf | ilastik/applets/objectExtraction/opObjectExtraction.py:250 | `keys().index(k)` is the first position holding k, or KeyMissing when k is absent |
| TaggedShapes.Del | ilastik/applets/objectExtraction/opObjectExtraction.py:40-42 | OrderedDict `del d[k]` fails exactly when k is not a key and otherwise removes one entry |
| TaggedShapes.DelIsWithout | ilastik/applets/objectExtraction/opObjectExtraction.py:40-42 | for distinct keys, `del d[k]` equals the order-preserving filter of d without k |
| TaggedShapes.DelSpatialIsWithout | ilastik/applets/objectExtraction/opObjectExtraction.py:40-42 | deleting x, then y, then z equals filtering out the spatial letters while keeping order |
| TaggedShapes.DistinctWithout | ilastik/applets/objectExtraction/opObjectExtraction.py:40-42 | filtering keeps keys distinct and keeps only original keys outside the dropped set |
| TaggedShapes.KeysWithout | ilastik/applets/objectExtraction/opObjectExtraction.py:88-94 | a key not being dropped survives the filter |
| TaggedShapes.WithoutUnaffected | ilastik/applets/objectExtraction/opObjectExtraction.py:88-94 | filtering out letters that do not occur leaves the dictionary unchanged |
| TaggedShapes.WithoutWithout | ilastik/applets/objectExtraction/opObjectExtraction.py:88-94 | two successive filters equal one filter by the union, so successive `del`s compose |
| TaggedShapes.WithoutAppend | ilastik/applets/objectExtraction/opObjectExtraction.py:88-94 | filtering distributes over concatenation |
| TaggedShapes.WithoutZip | ilastik/applets/objectExtraction/opObjectExtraction.py:84-96 | the values and the keys of a filtered `zip(axes, s)` are the entries of s and of axes at positions whose letter is kept |
| TaggedShapes.DropBox | ilastik/applets/objectExtraction/opObjectExtraction.py:84-96 | dropping the same axes from a point and from a box keeps the point inside the box |
| TaggedShapes.DropAxesKept | ilastik/applets/objectExtraction/opObjectExtraction.py:44-45 | every surviving axis letter is an input letter outside the dropped set |
| TaggedShapes.DropConstant | ilastik/applets/objectExtraction/opObjectExtraction.py:33-36 | if every kept position holds v, every entry of the result is v |
| TaggedShapes.LookupZip | ilastik/applets/objectExtraction/opObjectExtraction.py:243 | with distinct tags, looking up tag i in the tagged shape gives extent i |
| RegionFeatures3d.SetupOutputs | ilastik/applets/objectExtraction/opObjectExtraction.py:28-45 | succeeds iff shapes and tags are equal, t and c have extent 1, and the other axes are exactly x, y, z, with each failure reported in the source's order; the output shape and tags are the input's with x, y, z deleted in order, all extents 1 and only t/c tags |
| RegionFeatures3d.SetupTagged | ilastik/applets/objectExtraction/opObjectExtraction.py:32-42 | the tagged-shape part of setup accepts exactly when extents and axis letters are as required |
| RegionFeatures3d.Execute | ilastik/applets/objectExtraction/opObjectExtraction.py:49-72 | succeeds iff the roi has the output's rank and `prod(stop-start) == 1`; then the record computed from the whole volumes, viewed with only their x, y, z axes in their order, is written at `roi.start` and every other cell is unchanged |
| RegionFeatures3d.OneCellIffUnitExtents | ilastik/applets/objectExtraction/opObjectExtraction.py:69 | for an ordered roi the product of extents is 1 exactly when every extent is 1 |
| RegionFeatures3d.OneCellRoiIsOrigin | ilastik/applets/objectExtraction/opObjectExtraction.py:44-71 | after a successful setup, a one-cell roi inside the output is the origin cell covering the whole output |
| RegionFeatures3d.PropagateDirty | ilastik/applets/objectExtraction/opObjectExtraction.py:82-96 | succeeds iff x, y, z are axes, otherwise the KeyError of the first of x, y, z that is missing; the dirty box is the input box with x, y, z coordinates removed, in order |
| RegionFeatures3d.DirtyCoversChangedVoxels | ilastik/applets/objectExtraction/opObjectExtraction.py:82-96 | every voxel of the dirty input box maps into the dirty output box |
| RegionFeatures3d.DirtyCellsComeFromVoxels | ilastik/applets/objectExtraction/opObjectExtraction.py:82-96 | when the spatial extents are non-empty, every cell of the dirty output box is the image of a voxel of the dirty input box |
| RegionFeatures3d.DelSpatialFails | ilastik/applets/objectExtraction/opObjectExtraction.py:88-90 | when a spatial letter is missing, the `del` chain fails with the KeyError of the first missing letter in the order x, y, z |
| RegionFeatures.CachedSetupOutputs | ilastik/applets/objectExtraction/opObjectExtraction.py:218-224 | the two equality asserts, then a block shape of 1s, one per axis of the composite output |
| RegionFeatures.UnitBlocksAreCells | ilastik/applets/objectExtraction/opObjectExtraction.py:222-223 | with the all-ones block shape a block holds exactly the one cell it is indexed by |
| RegionFeatures.RegionFeaturesLevels | ilastik/applets/objectExtraction/opObjectExtraction.py:109-178 | the chain time slicer, wrapped channel slicer, doubly wrapped extractor, wrapped channel stacker, time stacker connects, and its output levels are 1, 2, 2, 1, 0 as the constructor asserts |
| RegionFeatures.WrapConnects | ilastik/applets/objectExtraction/opObjectExtraction.py:118-178 | wrapping every stage k more times yields a chain that connects k levels higher, with every output level raised by k |
| AdaptTimeList.SetupOutputs | ilastik/applets/objectExtraction/opObjectExtraction.py:241-243 | the output shape is the input's t extent; KeyError when there is no t axis |
| AdaptTimeList.PerTimeRequestIsTimeSlice | ilastik/applets/objectExtraction/opObjectExtraction.py:262-265 | the corrected per-time request contains exactly the input cells at time t |
| AdaptTimeList.AsWrittenRequestIsEmpty | ilastik/applets/objectExtraction/opObjectExtraction.py:256-265 | the request as written contains no cell for any t >= 1 |
| AdaptTimeList.AsWrittenCounterexample | ilastik/applets/objectExtraction/opObjectExtraction.py:262-265 | for a (t=2, c=1) input and time 1, the request as written is box [1,0)-[1,1), which misses the cell (1,0) that the corrected request holds |
| AdaptTimeList.Fetch | ilastik/applets/objectExtraction/opObjectExtraction.py:266 | a box request succeeds iff the box is ordered and inside the input shape |
| AdaptTimeList.Split | ilastik/applets/objectExtraction/opObjectExtraction.py:268 | `numpy.split` into n pieces succeeds iff n > 0 divides the extent, giving n consecutive equal pieces in order |
| AdaptTimeList.First | ilastik/applets/objectExtraction/opObjectExtraction.py:271 | `.flat[0]` is the record at the piece's start, an IndexError for an empty piece |
| AdaptTimeList.RequestPieces | ilastik/applets/objectExtraction/opObjectExtraction.py:262-271 | the corrected request is fetchable iff t < T and its split along c yields n pieces, piece i starting at the (t, channel i) cell and ending one channel later |
| AdaptTimeList.PieceNonEmpty | ilastik/applets/objectExtraction/opObjectExtraction.py:268-271 | piece i of the per-time request is non-empty exactly when no axis other than t and c has extent 0 |
| AdaptTimeList.ChannelsAt | ilastik/applets/objectExtraction/opObjectExtraction.py:262-271 | for one time, succeeds iff that time can be fetched and returns the records of channel 0, 1, ... in channel order |
| AdaptTimeList.ChannelsAtAsWritten | ilastik/applets/objectExtraction/opObjectExtraction.py:256-271 | on the request as written, time 0 behaves as `ChannelsAt`; every time t >= 1 fails: t >= 2 with an unordered request, and t = 1 with the IndexError of `.flat[0]` whenever the input has a time step and a channel |
| AdaptTimeList.Execute | ilastik/applets/objectExtraction/opObjectExtraction.py:246-272 | succeeds iff there are c and t axes and every requested time is fetchable, where an empty list means every time; a missing c or t axis gives the error of the statement that meets it first; the result has exactly one key per requested time, and each value is the list of per-channel records in channel order |
| AdaptTimeList.PropagateDirty | ilastik/applets/objectExtraction/opObjectExtraction.py:274-277 | the dirty time list holds exactly the times in [start[t], stop[t]) along the t axis, ascending |
| ObjectCenterImage.ContainedInSubregion | ilastik/applets/objectExtraction/opObjectExtraction.py:288-293 | the fold returns true iff every coordinate lies in [start[i], stop[i]) |
| ObjectCenterImage.MakeKey | ilastik/applets/objectExtraction/opObjectExtraction.py:295-298 | the key has the roi's rank and adds to `roi.start` to give the coordinates |
| ObjectCenterImage.MakeKeyInBounds | ilastik/applets/objectExtraction/opObjectExtraction.py:316-318 | every key written satisfies `0 <= key[i] < stop[i]-start[i]` |
| ObjectCenterImage.MakeKeyPoint | ilastik/applets/objectExtraction/opObjectExtraction.py:295-298 | `__make_key` and `roi.start + key` are inverse |
| ObjectCenterImage.NonBackground | ilastik/applets/objectExtraction/opObjectExtraction.py:308-309 | row 0 is dropped when there are rows; no rows stay no rows |
| ObjectCenterImage.ShiftedIsSegment | ilastik/applets/objectExtraction/opObjectExtraction.py:313-315 | `c[dim] += offset` yields the point at that offset along that axis and at the centre elsewhere |
| ObjectCenterImage.CrossIsShifts | ilastik/applets/objectExtraction/opObjectExtraction.py:310-318 | the cross is exactly the set of points the dim and offset loops produce |
| ObjectCenterImage.CrossHasSevenVoxels | ilastik/applets/objectExtraction/opObjectExtraction.py:312-315 | the nine (dim, offset) pairs mark exactly seven distinct voxels per centre |
| ObjectCenterImage.WriteIfContained | ilastik/applets/objectExtraction/opObjectExtraction.py:316-318 | the cell of a point inside the roi becomes 255, and no other cell changes |
| ObjectCenterImage.PaintCross | ilastik/applets/objectExtraction/opObjectExtraction.py:312-318 | after the two loops, the cross cells of one centre inside the roi are 255 and all other cells are unchanged |
| ObjectCenterImage.Execute | ilastik/applets/objectExtraction/opObjectExtraction.py:300-319 | succeeds iff every time has an entry for the roi's channel; then every cell is 255 iff its point lies on the cross of a non-background centre of its time and channel, and 0 otherwise; even on failure every cell is 0 or 255 |
| ObjectCenterImage.MarkedIsShiftedCenter | ilastik/applets/objectExtraction/opObjectExtraction.py:306-318 | a marked cell is a non-background centre with one of x, y, z shifted by -1, 0 or +1 that lies inside the roi, and every such point is marked |
| ObjectCenterImage.BackgroundOnlyMarksNothing | ilastik/applets/objectExtraction/opObjectExtraction.py:308-310 | centre lists with no row beyond the background mark nothing |
| ObjectCenterImage.BackgroundRowIgnored | ilastik/applets/objectExtraction/opObjectExtraction.py:308-309 | what row 0 holds never changes the image |
| ObjectCenterImage.PropagateDirty | ilastik/applets/objectExtraction/opObjectExtraction.py:321-323 | a RegionCenters change dirties everything, a BinaryImage change nothing |
| ObjectCenterImage.DirtyRuleIsSound | ilastik/applets/objectExtraction/opObjectExtraction.py:300-323 | any input change that alters what `execute` paints dirties the affected cells |
| ObjectExtraction.FeatureNames | ilastik/applets/objectExtraction/opObjectExtraction.py:338-356 | the feature set holds the configured and the default features, and nothing else |
| ObjectExtraction.RegionCenterAlwaysExtracted | ilastik/applets/objectExtraction/opObjectExtraction.py:338-342 | `RegionCenter`, which the centre image reads, is always among the features |
| ObjectExtraction.CompositeExecute | ilastik/applets/objectExtraction/opObjectExtraction.py:384-385 | `execute` of a composite operator always fails with "Shouldn't get here." (the same at lines 153-154, 186-187 and 226-227) |

## Left out

- vigra's `extractRegionFeatures` (lines 74-80) and the `float32`/`uint32` casts. The
  accumulator is a free constructor of its inputs, because it is a foreign library computing
  in floating point.
- RegionFeatures3d.Execute: the destination is a map that the function returns updated. The
  numpy array written in place is not modelled.
- RegionFeatures3d.Execute: each volume is viewed with its own x, y, z letters, where the
  source takes the raw volume's letters for both. Setup asserts that the two axistags are
  equal. vigra's `withAxes` check that the dropped axes have extent 1 is not modelled.
- `OperatorWrapper`, `OpMultiArraySlicer2`, `OpMultiArrayStacker`, `OpArrayCache`,
  `OpCachedLabelImage`, `Slot.connect`, `setDirty` and `.wait()`. This lazyflow code is not
  part of this model. The model keeps only the slot levels these operators are asserted to
  have, the stackers' output metadata (`RegionFeatures.CompositeOutputMeta`) and the bounds
  check of a box request (`AdaptTimeList.Fetch`), each as an assumed contract.
- RegionFeatures.RegionFeaturesLevels: the checked levels are those the constructor asserts.
  The level rule itself is lazyflow's and is assumed.
- The `OperatorWrapper` slicing round-trip is not modelled. The composite's output equal to
  OpRegionFeatures3d applied per (t, c) cell is therefore not stated.
- AdaptTimeList.Execute: uses the corrected per-time request (stop[t] = t+1). The request as
  written is modelled as `PerTimeRequestAsWritten`; see "## Findings".
- AdaptTimeList.Execute: without a t axis, a non-empty list makes `taggedShape['t'] = 1` append
  a t entry. The request then has one axis more than the input and is taken to fail with
  RankMismatch. Lazyflow's own check of request rank is not part of this model.
- AdaptTimeList.Execute: starts with a membership test for the c axis. The `taggedShape['c']`
  lookup it stands for is `TaggedShapes.Lookup`, which fails exactly when the key is absent.
- The multi-channel path of OpObjectCenterImage.execute. Line 306 rebinds `centers`, so a
  second channel indexes the array already extracted. ObjectCenterImage.Execute requires a roi
  of at most one channel, and its channel loop becomes an `if`.
- ObjectCenterImage.Execute: assumes the txyzc axis order and a rank-5 roi. The code indexes
  t as `roi.start[0]` and c as `roi.start[-1]`, and the tracking workflow reorders its inputs
  to txyzc.
- ObjectCenterImage.Execute: the `['RegionCenter']` lookup into the per-channel record is
  assumed to succeed. Centres are natural-number triples after the `uint32` cast. A
  coordinate of 0 shifted by -1 is taken as -1, which falls outside the roi.
- `OpObjectCenterImage.setupOutputs` copies the binary image's metadata and has no logic
  beyond that.
- ObjectExtraction.FeatureNames: the configured list is a parameter, and its order as a
  `list` of a set is not modelled. `config` is not part of this model.
- `OpObjectExtraction.__init__` wiring and the empty `setupOutputs`/`propagateDirty` methods
  only connect slots.
- `chaingraphTrackingWorkflow.py`, the headless tracking test and the gurobi ctypes wrapper.
  They are orchestration, file I/O and foreign library loading.

## Findings

| source | as written | input that shows it | evidently intended | confidence | as-written member | corrected member |
|---|---|---|---|---|---|---|
| ilastik/applets/objectExtraction/opObjectExtraction.py:256-265 | the per-time request of OpAdaptTimeListRoi.execute sets `stop[timeIndex] = 1` (line 256 has already set the t extent to 1) while `start[timeIndex] = t` | an input of shape (t=2, c=1) and the list roi [1]: the request is start (1,0), stop (1,1), an empty box, so `.flat[0]` of the split raises IndexError; for t >= 2 start passes stop | `stop[timeIndex] = t + 1`, the one time slice at t | medium, not executed | AdaptTimeList.ChannelsAtAsWritten (on AdaptTimeList.PerTimeRequestAsWritten; AsWrittenRequestIsEmpty, AsWrittenCounterexample) | AdaptTimeList.PerTimeRequest (PerTimeRequestIsTimeSlice), used by AdaptTimeList.Execute |
