/** OpAdaptTimeListRoi: re-exposes the (t,c) array of feature records as a slot addressed by a
    list of time indices, answering with a dictionary from time to per-channel records. */
module AdaptTimeList {
  import opened Common
  import opened TaggedShapes

  /** `setupOutputs`: the output's shape is the input's t extent. */
  function SetupOutputs(m: Meta): (r: Result<nat>)
    requires WellFormed(m)
    ensures r.Ok? <==> 't' in m.tags
    ensures r.Err? ==> r.error == KeyMissing('t')
    ensures r.Ok? ==> forall i :: 0 <= i < |m.tags| && m.tags[i] == 't' ==> r.value == m.shape[i]
  {
    KeysZip(m.tags, m.shape);
    forall i | 0 <= i < |m.tags| ensures Lookup(Tagged(m), m.tags[i]) == Ok(m.shape[i]) {
      LookupZip(m.tags, m.shape, i);
    }
    Lookup(Tagged(m), 't')
  }

  /** `taggedShape.keys().index(k)`: the position of axis k. */
  function AxisIndex(m: Meta, k: char): (i: nat)
    requires k in m.tags
    ensures i < |m.tags| && m.tags[i] == k
  {
    IndexOf(m.tags, k).value
  }

  /** `taggedShape[k]`: the extent of axis k. */
  function Extent(m: Meta, k: char): nat
    requires WellFormed(m) && k in m.tags
  {
    m.shape[AxisIndex(m, k)]
  }

  /** The times a list roi asks for: an empty list means every time index. */
  function Requested(m: Meta, times: seq<nat>): seq<nat>
    requires WellFormed(m) && 't' in m.tags
  {
    if |times| == 0 then Range(0, Extent(m, 't')) else times
  }

  /** A time whose cells the input can deliver: inside the t extent, and no axis is empty. */
  predicate Fetchable(m: Meta, t: nat)
    requires WellFormed(m) && 't' in m.tags
  {
    t < Extent(m, 't') && forall j :: 0 <= j < |m.shape| ==> m.shape[j] > 0
  }

  predicate Succeeds(m: Meta, times: seq<nat>)
    requires WellFormed(m)
  {
    'c' in m.tags && 't' in m.tags && forall t :: t in Requested(m, times) ==> Fetchable(m, t)
  }

  /** The input coordinate of the record for time `t` and channel `i`: index 0 on every other axis. */
  function CellCoord(m: Meta, t: nat, i: nat): seq<nat>
    requires WellFormed(m) && 't' in m.tags && 'c' in m.tags
  {
    Zeros(|m.shape|)[AxisIndex(m, 't') := t][AxisIndex(m, 'c') := i]
  }

  /** Reference result for one time: channel i's record, for every channel, in channel order. */
  function ChannelRecords<R>(m: Meta, cells: seq<nat> -> R, t: nat): (rs: seq<R>)
    requires WellFormed(m) && 't' in m.tags && 'c' in m.tags
    ensures |rs| == Extent(m, 'c')
  {
    seq(Extent(m, 'c'), i requires 0 <= i < Extent(m, 'c') => cells(CellCoord(m, t, i)))
  }

  /** The per-time request of lines 262-265 as written: start[t] = t, but stop[t] = 1. */
  function PerTimeRequestAsWritten(m: Meta, t: nat): Box
    requires WellFormed(m) && 't' in m.tags
  {
    Box(Zeros(|m.shape|)[AxisIndex(m, 't') := t], m.shape[AxisIndex(m, 't') := 1])
  }

  /** The per-time request as intended: the whole input restricted to time t, stop[t] = t + 1. */
  function PerTimeRequest(m: Meta, t: nat): Box
    requires WellFormed(m) && 't' in m.tags
  {
    Box(Zeros(|m.shape|)[AxisIndex(m, 't') := t], m.shape[AxisIndex(m, 't') := t + 1])
  }

  /** All coordinates of the input. */
  function Whole(m: Meta): Box {
    Box(Zeros(|m.shape|), m.shape)
  }

  /** The intended request box holds exactly the input cells at time t. */
  lemma PerTimeRequestIsTimeSlice(m: Meta, t: nat, p: seq<int>)
    requires WellFormed(m) && 't' in m.tags && t < Extent(m, 't')
    ensures InBox(p, PerTimeRequest(m, t)) <==> InBox(p, Whole(m)) && p[AxisIndex(m, 't')] == t
  {
  }

  /** For every time after 0 the request as written holds no cell at all (t == 1 gives an empty
      box, t >= 2 a box whose start passes its stop), so `.flat[0]` cannot succeed. */
  lemma AsWrittenRequestIsEmpty(m: Meta, t: nat, p: seq<int>)
    requires WellFormed(m) && 't' in m.tags && t >= 1
    ensures !InBox(p, PerTimeRequestAsWritten(m, t))
  {
    var ti := AxisIndex(m, 't');
    var box := PerTimeRequestAsWritten(m, t);
    assert box.start[ti] >= box.stop[ti];
  }

  /** A concrete input: two time steps and one channel; the record of time 1 is never reached. */
  lemma AsWrittenCounterexample()
    ensures var m := Meta([2, 1], ['t', 'c']);
            WellFormed(m) && PerTimeRequestAsWritten(m, 1) == Box([1, 0], [1, 1]) &&
            PerTimeRequest(m, 1) == Box([1, 0], [2, 1]) &&
            InBox([1, 0], PerTimeRequest(m, 1)) && !InBox([1, 0], PerTimeRequestAsWritten(m, 1))
  {
    var m := Meta([2, 1], ['t', 'c']);
    assert IndexOf(m.tags, 't') == Ok(0);
    assert Zeros(2) == [0, 0];
    assert PerTimeRequest(m, 1) == Box([1, 0], [2, 1]);
    var asWritten := PerTimeRequestAsWritten(m, 1);
    assert asWritten == Box([1, 0], [1, 1]);
    assert asWritten.start[0] >= asWritten.stop[0];
  }

  /** `self.Input(start, stop).wait()`: the request box must be ordered and inside the input. */
  function Fetch(m: Meta, box: Box): (r: Result<Box>)
    requires |box.start| == |box.stop| == |m.shape|
    ensures r.Ok? <==> Ordered(box) && forall i :: 0 <= i < |m.shape| ==> box.stop[i] <= m.shape[i]
    ensures r.Ok? ==> r.value == box
  {
    if exists i :: 0 <= i < |box.start| && box.start[i] > box.stop[i] then Err(UnorderedRoi)
    else if exists i :: 0 <= i < |box.stop| && box.stop[i] > m.shape[i] then Err(RoiOutOfBounds)
    else Ok(box)
  }

  /** `numpy.split(a, n, axis)`: n equal pieces along `axis`, in order. */
  function Split(box: Box, axis: nat, n: nat): (r: Result<seq<Box>>)
    requires Ordered(box) && axis < |box.start|
    ensures r.Ok? <==> n > 0 && (box.stop[axis] - box.start[axis]) % n == 0
    ensures r.Ok? ==> |r.value| == n
    ensures r.Ok? ==> forall i :: 0 <= i < n ==>
              var w := (box.stop[axis] - box.start[axis]) / n;
              r.value[i] == Box(box.start[axis := box.start[axis] + i * w],
                                box.stop[axis := box.start[axis] + (i + 1) * w])
  {
    if n == 0 then Err(NoSections)
    else if (box.stop[axis] - box.start[axis]) % n != 0 then Err(UnequalSplit)
    else
      var w := (box.stop[axis] - box.start[axis]) / n;
      Ok(seq(n, i requires 0 <= i < n => Box(box.start[axis := box.start[axis] + i * w],
                                            box.stop[axis := box.start[axis] + (i + 1) * w])))
  }

  /** `piece.flat[0]`: the record at the piece's first coordinate, an IndexError when it is empty. */
  function First<R>(cells: seq<nat> -> R, piece: Box): (r: Result<R>)
    requires |piece.start| == |piece.stop|
    ensures r.Ok? <==> forall j :: 0 <= j < |piece.start| ==> piece.start[j] < piece.stop[j]
    ensures r.Ok? ==> r.value == cells(piece.start)
  {
    if exists j :: 0 <= j < |piece.start| && piece.start[j] >= piece.stop[j] then Err(EmptyCell)
    else Ok(cells(piece.start))
  }

  /** What the per-time request and the split give for a time the input can deliver. */
  lemma RequestPieces(m: Meta, t: nat)
    requires WellFormed(m) && 't' in m.tags && 'c' in m.tags
    ensures var box := PerTimeRequest(m, t);
            Ordered(box) && |box.start| == |m.shape| &&
            (Fetch(m, box).Ok? <==> t < Extent(m, 't')) &&
            box.stop[AxisIndex(m, 'c')] - box.start[AxisIndex(m, 'c')] == Extent(m, 'c')
    ensures var box := PerTimeRequest(m, t);
            var n := Extent(m, 'c');
            n > 0 ==> (Split(box, AxisIndex(m, 'c'), n).Ok? &&
                       forall i :: 0 <= i < n ==>
                         Split(box, AxisIndex(m, 'c'), n).value[i] == Box(CellCoord(m, t, i), box.stop[AxisIndex(m, 'c') := i + 1]))
  {
    var ti, ci := AxisIndex(m, 't'), AxisIndex(m, 'c');
    assert ti != ci;
    var n := Extent(m, 'c');
    if n > 0 {
      assert n / n == 1;
    }
  }

  /** Piece i of the corrected request is non-empty exactly when no axis other than t and c is. */
  lemma PieceNonEmpty(m: Meta, t: nat, i: nat)
    requires WellFormed(m) && 't' in m.tags && 'c' in m.tags
    ensures var ti, ci := AxisIndex(m, 't'), AxisIndex(m, 'c');
            (forall j :: 0 <= j < |m.shape| ==> CellCoord(m, t, i)[j] < PerTimeRequest(m, t).stop[ci := i + 1][j]) <==>
            (forall j :: 0 <= j < |m.shape| && j != ti && j != ci ==> m.shape[j] > 0)
  {
    var ti, ci := AxisIndex(m, 't'), AxisIndex(m, 'c');
    var c, e := CellCoord(m, t, i), PerTimeRequest(m, t).stop[ci := i + 1];
    assert ti != ci;
    assert c[ti] == t && e[ti] == t + 1 && c[ci] == i && e[ci] == i + 1;
    assert forall j :: 0 <= j < |m.shape| && j != ti && j != ci ==> c[j] == 0 && e[j] == m.shape[j];
    if forall j :: 0 <= j < |m.shape| && j != ti && j != ci ==> m.shape[j] > 0 {
      forall j | 0 <= j < |m.shape| ensures c[j] < e[j] {
        if j != ti && j != ci {
          assert c[j] == 0 && e[j] == m.shape[j] > 0;
        }
      }
    }
  }

  /** The inner loop of `execute` for one time: split the fetched request along c and append
      each piece's `.flat[0]` in channel order. */
  method ChannelsAt<R>(m: Meta, cells: seq<nat> -> R, t: nat) returns (r: Result<seq<R>>)
    requires WellFormed(m) && 't' in m.tags && 'c' in m.tags
    ensures r.Ok? <==> Fetchable(m, t)
    ensures r.Err? ==> r.error in {RoiOutOfBounds, NoSections, EmptyCell}
    ensures r.Ok? ==> r.value == ChannelRecords(m, cells, t)
  {
    RequestPieces(m, t);
    forall i | 0 <= i < Extent(m, 'c') {
      PieceNonEmpty(m, t, i);
    }
    var numChannels, channelIndex := Extent(m, 'c'), AxisIndex(m, 'c');
    var a := Fetch(m, PerTimeRequest(m, t));
    if a.Err? {
      return Err(a.error);
    }
    var pieces := Split(a.value, channelIndex, numChannels);
    if pieces.Err? {
      return Err(pieces.error);
    }
    var channels: seq<R> := [];
    var i := 0;
    while i < |pieces.value|
      invariant i <= |pieces.value| == numChannels
      invariant channels == ChannelRecords(m, cells, t)[..i]
      invariant i > 0 ==> forall j :: 0 <= j < |m.shape| && j != AxisIndex(m, 't') && j != channelIndex ==> m.shape[j] > 0
    {
      var value := First(cells, pieces.value[i]);
      if value.Err? {
        return Err(value.error);
      }
      channels := channels + [value.value];
      i := i + 1;
    }
    return Ok(channels);
  }

  /** The inner loop of `execute` as written, on the line-265 request: it agrees with `ChannelsAt`
      at time 0 and fails for every later time, with the IndexError of `.flat[0]` when the input
      has a time step and a channel. */
  method ChannelsAtAsWritten<R>(m: Meta, cells: seq<nat> -> R, t: nat) returns (r: Result<seq<R>>)
    requires WellFormed(m) && 't' in m.tags && 'c' in m.tags
    ensures t == 0 ==> (r.Ok? <==> Fetchable(m, 0)) && (r.Ok? ==> r.value == ChannelRecords(m, cells, 0))
    ensures t >= 1 ==> r.Err?
    ensures t >= 2 ==> r == Err(UnorderedRoi)
    ensures t == 1 && Extent(m, 't') >= 1 && Extent(m, 'c') > 0 ==> r == Err(EmptyCell)
    ensures r.Err? ==> r.error in {UnorderedRoi, RoiOutOfBounds, NoSections, EmptyCell}
  {
    var numChannels, channelIndex, timeIndex := Extent(m, 'c'), AxisIndex(m, 'c'), AxisIndex(m, 't');
    var box := PerTimeRequestAsWritten(m, t);
    assert timeIndex != channelIndex;
    assert box.start[timeIndex] == t && box.stop[timeIndex] == 1;
    if t == 0 {
      assert box == PerTimeRequest(m, 0);
      RequestPieces(m, 0);
      forall i | 0 <= i < numChannels {
        PieceNonEmpty(m, 0, i);
      }
    }
    var a := Fetch(m, box);
    if a.Err? {
      return Err(a.error);
    }
    if numChannels > 0 {
      assert numChannels / numChannels == 1;
    }
    var pieces := Split(a.value, channelIndex, numChannels);
    if pieces.Err? {
      return Err(pieces.error);
    }
    var channels: seq<R> := [];
    var i := 0;
    while i < |pieces.value|
      invariant i <= |pieces.value| == numChannels
      invariant t >= 1 ==> i == 0
      invariant t == 0 ==> channels == ChannelRecords(m, cells, 0)[..i]
      invariant t == 0 && i > 0 ==> forall j :: 0 <= j < |m.shape| && j != timeIndex && j != channelIndex ==> m.shape[j] > 0
    {
      assert pieces.value[i].start[timeIndex] == t && pieces.value[i].stop[timeIndex] == 1;
      var value := First(cells, pieces.value[i]);
      if value.Err? {
        return Err(value.error);
      }
      channels := channels + [value.value];
      i := i + 1;
    }
    return Ok(channels);
  }

  /** `execute`: for each requested time, request the input at that time, split the fetched cells
      along c and keep each piece's record; the result maps each requested time to its
      per-channel records in channel order. Uses the intended per-time request. */
  method Execute<R>(m: Meta, cells: seq<nat> -> R, times: seq<nat>) returns (r: Result<map<nat, seq<R>>>)
    requires WellFormed(m)
    ensures r.Ok? <==> Succeeds(m, times)
    ensures 'c' !in m.tags ==> r == Err(KeyMissing('c'))
    ensures 'c' in m.tags && 't' !in m.tags ==> r == Err(if |times| == 0 then KeyMissing('t') else RankMismatch)
    ensures r.Err? ==> r.error in {KeyMissing('c'), KeyMissing('t'), RankMismatch, RoiOutOfBounds, NoSections, EmptyCell}
    ensures r.Ok? ==> forall t :: t in r.value <==> t in Requested(m, times)
    ensures r.Ok? ==> forall t :: t in r.value ==> r.value[t] == ChannelRecords(m, cells, t)
  {
    if 'c' !in m.tags {
      return Err(KeyMissing('c'));
    }
    // Without a t axis an empty list fails at `taggedShape['t']`; otherwise `taggedShape['t'] = 1`
    // appends a t entry, and the request has one axis more than the input.
    if 't' !in m.tags {
      return Err(if |times| == 0 then KeyMissing('t') else RankMismatch);
    }
    var requested := Requested(m, times);
    var result: map<nat, seq<R>> := map[];
    var k := 0;
    while k < |requested|
      invariant k <= |requested|
      invariant forall j :: 0 <= j < k ==> requested[j] in result
      invariant forall j :: 0 <= j < k ==> Fetchable(m, requested[j])
      invariant forall t :: t in result ==> t in requested && result[t] == ChannelRecords(m, cells, t)
    {
      var t := requested[k];
      var channels :- ChannelsAt(m, cells, t);
      assert Fetchable(m, t);
      result := result[t := channels];
      k := k + 1;
    }
    assert forall t :: t in requested ==> t in result by {
      forall t | t in requested ensures t in result {
        var j :| 0 <= j < |requested| && requested[j] == t;
      }
    }
    return Ok(result);
  }

  /** `propagateDirty`: a box dirty notice on the input becomes the list of its time indices. */
  function PropagateDirty(tags: seq<char>, roi: Box): (r: Result<seq<nat>>)
    requires |roi.start| == |tags| && |roi.stop| == |tags| && Distinct(tags)
    ensures r.Ok? <==> 't' in tags
    ensures r.Ok? ==> forall i :: 0 <= i < |tags| && tags[i] == 't' ==>
              forall t :: t in r.value <==> roi.start[i] <= t < roi.stop[i]
    ensures r.Ok? ==> forall j :: 0 <= j < |r.value| - 1 ==> r.value[j] < r.value[j + 1]
  {
    var timeIndex :- IndexOf(tags, 't');
    assert forall i :: 0 <= i < |tags| && tags[i] == 't' ==> i == timeIndex;
    Ok(Range(roi.start[timeIndex], roi.stop[timeIndex]))
  }
}
