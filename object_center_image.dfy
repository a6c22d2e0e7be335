/** OpObjectCenterImage: paints a small cross (the centre and its six face neighbours) at the
    centre of every labelled object into a 5-d image of axis order t, x, y, z, c. */
module ObjectCenterImage {
  import opened Common

  /** A region centre `center[0:3]`, after the cast to unsigned integers. */
  datatype Center = Center(x: nat, y: nat, z: nat)

  /** The centre's coordinate on spatial axis d (1 = x, 2 = y, 3 = z of the txyzc order). */
  function Coord(c: Center, d: nat): nat
    requires 1 <= d <= 3
  {
    if d == 1 then c.x else if d == 2 then c.y else c.z
  }

  /** `c = [t, x, y, z, ch]; c[dim] += offset` */
  function Shifted(t: nat, ch: nat, c: Center, dim: nat, offset: int): (p: seq<int>)
    requires 1 <= dim <= 3
    ensures |p| == 5
  {
    [t, c.x, c.y, c.z, ch][dim := Coord(c, dim) + offset]
  }

  /** p agrees with the centre on the spatial axes other than d, and lies at offsets [lo, hi)
      from it along d. */
  predicate Segment(p: seq<int>, c: Center, d: nat, lo: int, hi: int)
    requires |p| == 5 && 1 <= d <= 3
  {
    (d == 1 || p[1] == c.x) && (d == 2 || p[2] == c.y) && (d == 3 || p[3] == c.z) &&
    Coord(c, d) + lo <= p[d] < Coord(c, d) + hi
  }

  /** The spatial part of p is the centre or one of its six face neighbours. */
  predicate NearCenter(p: seq<int>, c: Center)
    requires |p| == 5
  {
    Segment(p, c, 1, -1, 2) || Segment(p, c, 2, -1, 2) || Segment(p, c, 3, -1, 2)
  }

  /** The cross of a centre at time t and channel ch. */
  predicate InCross(p: seq<int>, t: nat, ch: nat, c: Center)
    requires |p| == 5
  {
    p[0] == t && p[4] == ch && NearCenter(p, c)
  }

  /** The points the (dim, offset) loops have visited before reaching (dim, offset). */
  predicate PaintedBefore(p: seq<int>, t: nat, ch: nat, c: Center, dim: nat, offset: int)
    requires |p| == 5 && 1 <= dim <= 4
  {
    p[0] == t && p[4] == ch &&
    ((dim > 1 && Segment(p, c, 1, -1, 2)) ||
     (dim > 2 && Segment(p, c, 2, -1, 2)) ||
     (dim > 3 && Segment(p, c, 3, -1, 2)) ||
     (dim <= 3 && Segment(p, c, dim, -1, offset)))
  }

  /** A shifted point is a one-offset segment of the cross. */
  lemma ShiftedIsSegment(p: seq<int>, t: nat, ch: nat, c: Center, dim: nat, offset: int)
    requires |p| == 5 && 1 <= dim <= 3
    ensures p == Shifted(t, ch, c, dim, offset) <==>
            p[0] == t && p[4] == ch && Segment(p, c, dim, offset, offset + 1)
  {
    var s := Shifted(t, ch, c, dim, offset);
    if p[0] == t && p[4] == ch && Segment(p, c, dim, offset, offset + 1) {
      assert forall i :: 0 <= i < 5 ==> p[i] == s[i];
    }
  }

  /** The cross is exactly the set of points the two loops over dim in (1, 2, 3) and offset in
      (-1, 0, 1) produce. */
  lemma CrossIsShifts(p: seq<int>, t: nat, ch: nat, c: Center)
    requires |p| == 5
    ensures InCross(p, t, ch, c) <==>
            exists d, o :: 1 <= d <= 3 && -1 <= o <= 1 && p == Shifted(t, ch, c, d, o)
  {
    if InCross(p, t, ch, c) {
      var d := if Segment(p, c, 1, -1, 2) then 1 else if Segment(p, c, 2, -1, 2) then 2 else 3;
      var o := p[d] - Coord(c, d);
      ShiftedIsSegment(p, t, ch, c, d, o);
    }
    if exists d, o :: 1 <= d <= 3 && -1 <= o <= 1 && p == Shifted(t, ch, c, d, o) {
      var d, o :| 1 <= d <= 3 && -1 <= o <= 1 && p == Shifted(t, ch, c, d, o);
      ShiftedIsSegment(p, t, ch, c, d, o);
    }
  }

  /** The seven voxels of a cross: the centre, then its neighbours at -1 and +1 along x, y, z. */
  function CrossVoxels(t: nat, ch: nat, c: Center): seq<seq<int>> {
    var x, y, z := c.x as int, c.y as int, c.z as int;
    [[t, x, y, z, ch], [t, x - 1, y, z, ch], [t, x + 1, y, z, ch], [t, x, y - 1, z, ch],
     [t, x, y + 1, z, ch], [t, x, y, z - 1, ch], [t, x, y, z + 1, ch]]
  }

  /** The nine (dim, offset) pairs produce exactly the seven listed voxels. */
  lemma ShiftsAreCrossVoxels(t: nat, ch: nat, c: Center)
    ensures (set d, o | 1 <= d <= 3 && -1 <= o <= 1 :: Shifted(t, ch, c, d, o)) ==
            (set i | 0 <= i < 7 :: CrossVoxels(t, ch, c)[i])
  {
    var v := CrossVoxels(t, ch, c);
    assert Shifted(t, ch, c, 1, 0) == v[0] && Shifted(t, ch, c, 1, -1) == v[1] && Shifted(t, ch, c, 1, 1) == v[2];
    assert Shifted(t, ch, c, 2, -1) == v[3] && Shifted(t, ch, c, 2, 1) == v[4];
    assert Shifted(t, ch, c, 3, -1) == v[5] && Shifted(t, ch, c, 3, 1) == v[6];
    assert Shifted(t, ch, c, 2, 0) == v[0] && Shifted(t, ch, c, 3, 0) == v[0];
  }

  /** The seven listed voxels are pairwise distinct. */
  lemma CrossVoxelsDistinct(t: nat, ch: nat, c: Center)
    ensures forall i, j :: 0 <= i < j < 7 ==> CrossVoxels(t, ch, c)[i] != CrossVoxels(t, ch, c)[j]
  {
    var v := CrossVoxels(t, ch, c);
    forall i, j | 0 <= i < j < 7 ensures v[i] != v[j] {
      if v[i][1] == v[j][1] && v[i][2] == v[j][2] {
        assert v[i][3] != v[j][3];
      }
    }
  }

  /** A sequence of pairwise distinct elements has as many elements as its set. */
  lemma {:induction false} DistinctCard<T>(s: seq<T>)
    requires forall i, j :: 0 <= i < j < |s| ==> s[i] != s[j]
    ensures |set i | 0 <= i < |s| :: s[i]| == |s|
  {
    if |s| > 0 {
      var init := s[..|s| - 1];
      DistinctCard(init);
      var before := set i | 0 <= i < |init| :: init[i];
      assert (set i | 0 <= i < |s| :: s[i]) == before + {s[|s| - 1]};
      assert s[|s| - 1] !in before;
    }
  }

  /** The nine (dim, offset) pairs mark seven distinct voxels: offset 0 gives the centre on every
      axis. */
  lemma CrossHasSevenVoxels(t: nat, ch: nat, c: Center)
    ensures |set d, o | 1 <= d <= 3 && -1 <= o <= 1 :: Shifted(t, ch, c, d, o)| == 7
  {
    ShiftsAreCrossVoxels(t, ch, c);
    CrossVoxelsDistinct(t, ch, c);
    DistinctCard(CrossVoxels(t, ch, c));
  }

  /** `__contained_in_subregion`: folds `b and start[i] <= coords[i] < stop[i]` over the coordinates. */
  method ContainedInSubregion(roi: Box, coords: seq<int>) returns (b: bool)
    requires |coords| <= |roi.start| && |coords| <= |roi.stop|
    ensures b <==> forall i :: 0 <= i < |coords| ==> roi.start[i] <= coords[i] < roi.stop[i]
  {
    b := true;
    for i := 0 to |coords|
      invariant b <==> forall j :: 0 <= j < i ==> roi.start[j] <= coords[j] < roi.stop[j]
    {
      b := b && (roi.start[i] <= coords[i] && coords[i] < roi.stop[i]);
    }
  }

  /** `__make_key`: the coordinates relative to the roi's start, one per roi axis. */
  function MakeKey(roi: Box, coords: seq<int>): (key: seq<int>)
    requires |roi.start| <= |coords|
    ensures |key| == |roi.start|
    ensures forall i :: 0 <= i < |key| ==> roi.start[i] + key[i] == coords[i]
  {
    seq(|roi.start|, i requires 0 <= i < |roi.start| => coords[i] - roi.start[i])
  }

  /** A key made from a point inside the roi indexes the roi-shaped result buffer. */
  lemma MakeKeyInBounds(roi: Box, coords: seq<int>)
    requires InBox(coords, roi)
    ensures forall i :: 0 <= i < |roi.start| ==> 0 <= MakeKey(roi, coords)[i] < roi.stop[i] - roi.start[i]
  {
  }

  /** The buffer cell k of the roi-shaped result holds point `roi.start + k`. */
  function Point(start: seq<nat>, k0: int, k1: int, k2: int, k3: int, k4: int): (p: seq<int>)
    requires |start| == 5
    ensures |p| == 5
  {
    [start[0] + k0, start[1] + k1, start[2] + k2, start[3] + k3, start[4] + k4]
  }

  /** `MakeKey` and `Point` are inverse to one another. */
  lemma MakeKeyPoint(roi: Box, coords: seq<int>, k: seq<int>)
    requires |roi.start| == 5 && |coords| == 5 && |k| == 5
    ensures Point(roi.start, k[0], k[1], k[2], k[3], k[4]) == coords <==> MakeKey(roi, coords) == k
  {
    var key := MakeKey(roi, coords);
    var p := Point(roi.start, k[0], k[1], k[2], k[3], k[4]);
    if key == k {
      assert forall i :: 0 <= i < 5 ==> p[i] == coords[i];
    }
    if p == coords {
      assert forall i :: 0 <= i < 5 ==> key[i] == k[i];
    }
  }

  /** `if centers.size: centers = centers[1:,:]`: row 0 holds the background label's centre. */
  function NonBackground(rows: seq<Center>): (centers: seq<Center>)
    ensures |rows| > 0 ==> |centers| == |rows| - 1 && forall j :: 0 <= j < |centers| ==> centers[j] == rows[j + 1]
    ensures |rows| == 0 ==> centers == []
  {
    if |rows| == 0 then [] else rows[1..]
  }

  /** The result cell at point p is marked: it lies in the roi, and it is on the cross of some
      non-background centre of its own time and channel. */
  predicate Marked(roi: Box, regionCenters: nat -> seq<seq<Center>>, p: seq<int>)
    requires |roi.start| == 5 && |roi.stop| == 5 && |p| == 5
  {
    InBox(p, roi) && p[0] >= 0 && p[4] >= 0 &&
    var perChannel := regionCenters(p[0] as nat);
    p[4] < |perChannel| &&
    exists j :: 0 <= j < |NonBackground(perChannel[p[4]])| && NearCenter(p, NonBackground(perChannel[p[4]])[j])
  }

  /** Every time of the roi has an entry for the roi's channel, when the roi has a channel. */
  predicate ChannelsAvailable(roi: Box, regionCenters: nat -> seq<seq<Center>>)
    requires |roi.start| == 5 && |roi.stop| == 5
  {
    roi.start[4] < roi.stop[4] ==>
      forall t: nat :: roi.start[0] <= t < roi.stop[0] ==> roi.start[4] < |regionCenters(t)|
  }

  /** The shape of a result buffer for the roi. */
  predicate Fits(roi: Box, result: array5<int>)
    requires |roi.start| == 5 && |roi.stop| == 5
  {
    Ordered(roi) &&
    result.Length0 == roi.stop[0] - roi.start[0] && result.Length1 == roi.stop[1] - roi.start[1] &&
    result.Length2 == roi.stop[2] - roi.start[2] && result.Length3 == roi.stop[3] - roi.start[3] &&
    result.Length4 == roi.stop[4] - roi.start[4]
  }

  /** k is an index of the buffer. */
  predicate InBuffer(result: array5<int>, k0: int, k1: int, k2: int, k3: int, k4: int) {
    0 <= k0 < result.Length0 && 0 <= k1 < result.Length1 && 0 <= k2 < result.Length2 &&
    0 <= k3 < result.Length3 && 0 <= k4 < result.Length4
  }

  /** `if self.__contained_in_subregion(roi, c): result[self.__make_key(roi, c)] = 255`: the
      cell holding point `coords` becomes 255 when the point is in the roi; nothing else changes. */
  method WriteIfContained(roi: Box, result: array5<int>, coords: seq<int>)
    requires |roi.start| == 5 && |roi.stop| == 5 && |coords| == 5 && Fits(roi, result)
    modifies result
    ensures forall k0, k1, k2, k3, k4 | InBuffer(result, k0, k1, k2, k3, k4) ::
              result[k0, k1, k2, k3, k4] ==
                if Point(roi.start, k0, k1, k2, k3, k4) == coords then 255 else old(result[k0, k1, k2, k3, k4])
  {
    var inside := ContainedInSubregion(roi, coords);
    if inside {
      var key := MakeKey(roi, coords);
      MakeKeyInBounds(roi, coords);
      result[key[0], key[1], key[2], key[3], key[4]] := 255;
      forall k0, k1, k2, k3, k4 | InBuffer(result, k0, k1, k2, k3, k4)
        ensures Point(roi.start, k0, k1, k2, k3, k4) == coords <==>
                k0 == key[0] && k1 == key[1] && k2 == key[2] && k3 == key[3] && k4 == key[4]
      {
        var p := Point(roi.start, k0, k1, k2, k3, k4);
        if p != coords {
          var i :| 0 <= i < 5 && p[i] != coords[i];
        } else {
          assert p[0] == coords[0] && p[1] == coords[1] && p[2] == coords[2] && p[3] == coords[3] && p[4] == coords[4];
        }
      }
    } else {
      forall k0, k1, k2, k3, k4 | InBuffer(result, k0, k1, k2, k3, k4)
        ensures Point(roi.start, k0, k1, k2, k3, k4) != coords
      {
        assert InBox(Point(roi.start, k0, k1, k2, k3, k4), roi);
      }
    }
  }

  /** The two inner loops of `execute` for one centre: every cross voxel inside the roi is set to
      255 at its buffer key, and no other cell changes. */
  method PaintCross(roi: Box, result: array5<int>, t: nat, ch: nat, c: Center)
    requires |roi.start| == 5 && |roi.stop| == 5 && Fits(roi, result)
    modifies result
    ensures forall k0, k1, k2, k3, k4 | InBuffer(result, k0, k1, k2, k3, k4) ::
              result[k0, k1, k2, k3, k4] ==
                if InCross(Point(roi.start, k0, k1, k2, k3, k4), t, ch, c) then 255
                else old(result[k0, k1, k2, k3, k4])
  {
    for dim := 1 to 4
      invariant forall k0, k1, k2, k3, k4 | InBuffer(result, k0, k1, k2, k3, k4) ::
                  result[k0, k1, k2, k3, k4] ==
                    if PaintedBefore(Point(roi.start, k0, k1, k2, k3, k4), t, ch, c, dim, -1) then 255
                    else old(result[k0, k1, k2, k3, k4])
    {
      for offset := -1 to 2
        invariant forall k0, k1, k2, k3, k4 | InBuffer(result, k0, k1, k2, k3, k4) ::
                    result[k0, k1, k2, k3, k4] ==
                      if PaintedBefore(Point(roi.start, k0, k1, k2, k3, k4), t, ch, c, dim, offset) then 255
                      else old(result[k0, k1, k2, k3, k4])
      {
        var coords := Shifted(t, ch, c, dim, offset);
        PaintStep(roi, coords, t, ch, c, dim, offset);
        WriteIfContained(roi, result, coords);
      }
    }
  }

  /** One (dim, offset) step of the loops adds exactly its shifted point. */
  lemma PaintStep(roi: Box, coords: seq<int>, t: nat, ch: nat, c: Center, dim: nat, offset: int)
    requires |roi.start| == 5 && 1 <= dim <= 3 && -1 <= offset <= 1
    requires coords == Shifted(t, ch, c, dim, offset)
    ensures forall k0, k1, k2, k3, k4 ::
              PaintedBefore(Point(roi.start, k0, k1, k2, k3, k4), t, ch, c, dim, offset + 1) <==>
                PaintedBefore(Point(roi.start, k0, k1, k2, k3, k4), t, ch, c, dim, offset) ||
                Point(roi.start, k0, k1, k2, k3, k4) == coords
  {
    forall k0, k1, k2, k3, k4
      ensures PaintedBefore(Point(roi.start, k0, k1, k2, k3, k4), t, ch, c, dim, offset + 1) <==>
                PaintedBefore(Point(roi.start, k0, k1, k2, k3, k4), t, ch, c, dim, offset) ||
                Point(roi.start, k0, k1, k2, k3, k4) == coords
    {
      ShiftedIsSegment(Point(roi.start, k0, k1, k2, k3, k4), t, ch, c, dim, offset);
    }
  }

  /** Some centre among the first i lies on a cross through p, at time t and channel ch. */
  predicate MarkedBy(p: seq<int>, t: nat, ch: nat, centers: seq<Center>, i: nat)
    requires |p| == 5 && i <= |centers|
  {
    exists j :: 0 <= j < i && InCross(p, t, ch, centers[j])
  }

  lemma MarkedByStep(p: seq<int>, t: nat, ch: nat, centers: seq<Center>, i: nat)
    requires |p| == 5 && i < |centers|
    ensures MarkedBy(p, t, ch, centers, i + 1) <==> MarkedBy(p, t, ch, centers, i) || InCross(p, t, ch, centers[i])
  {
  }

  /** After the centres of time t are painted, the cells of time t hold exactly the marks of
      that time. */
  lemma TimeStep(roi: Box, regionCenters: nat -> seq<seq<Center>>, t: nat, p: seq<int>)
    requires |roi.start| == 5 && |roi.stop| == 5 && roi.stop[4] <= roi.start[4] + 1
    requires InBox(p, roi) && roi.start[4] < |regionCenters(t)|
    ensures var centers := NonBackground(regionCenters(t)[roi.start[4]]);
            (p[0] < t && Marked(roi, regionCenters, p)) || MarkedBy(p, t, roi.start[4], centers, |centers|) <==>
            p[0] < t + 1 && Marked(roi, regionCenters, p)
  {
    var centers := NonBackground(regionCenters(t)[roi.start[4]]);
    assert p[4] == roi.start[4];
    if p[0] == t && Marked(roi, regionCenters, p) {
      var j :| 0 <= j < |centers| && NearCenter(p, centers[j]);
      assert InCross(p, t, roi.start[4], centers[j]);
    }
  }

  /** `execute`: zero the buffer, then for every time of the roi and the roi's channel paint the
      cross of every non-background centre, clipped to the roi. Fails with an IndexError when
      the per-channel list of some time has no entry for the channel. */
  method Execute(roi: Box, regionCenters: nat -> seq<seq<Center>>, result: array5<int>) returns (ok: bool)
    requires |roi.start| == 5 && |roi.stop| == 5 && Fits(roi, result)
    requires roi.stop[4] <= roi.start[4] + 1
    modifies result
    ensures ok <==> ChannelsAvailable(roi, regionCenters)
    ensures ok ==> forall k0, k1, k2, k3, k4 | InBuffer(result, k0, k1, k2, k3, k4) ::
                     result[k0, k1, k2, k3, k4] ==
                       if Marked(roi, regionCenters, Point(roi.start, k0, k1, k2, k3, k4)) then 255 else 0
    ensures forall k0, k1, k2, k3, k4 | InBuffer(result, k0, k1, k2, k3, k4) ::
              result[k0, k1, k2, k3, k4] == 0 || result[k0, k1, k2, k3, k4] == 255
  {
    forall k0, k1, k2, k3, k4 |
      0 <= k0 < result.Length0 && 0 <= k1 < result.Length1 && 0 <= k2 < result.Length2 &&
      0 <= k3 < result.Length3 && 0 <= k4 < result.Length4
    {
      result[k0, k1, k2, k3, k4] := 0;
    }
    for t := roi.start[0] to roi.stop[0]
      invariant forall k0, k1, k2, k3, k4 | InBuffer(result, k0, k1, k2, k3, k4) ::
                  result[k0, k1, k2, k3, k4] ==
                    if Point(roi.start, k0, k1, k2, k3, k4)[0] < t &&
                       Marked(roi, regionCenters, Point(roi.start, k0, k1, k2, k3, k4)) then 255 else 0
      invariant roi.start[4] < roi.stop[4] ==>
                  forall u: nat :: roi.start[0] <= u < t ==> roi.start[4] < |regionCenters(u)|
    {
      var perChannel := regionCenters(t);
      var ch := roi.start[4];
      // The channel loop of the source, for a roi of at most one channel.
      if ch < roi.stop[4] {
        if ch >= |perChannel| {
          return false;
        }
        var centers := NonBackground(perChannel[ch]);
        for i := 0 to |centers|
          invariant forall k0, k1, k2, k3, k4 | InBuffer(result, k0, k1, k2, k3, k4) ::
                      result[k0, k1, k2, k3, k4] ==
                        if (Point(roi.start, k0, k1, k2, k3, k4)[0] < t &&
                            Marked(roi, regionCenters, Point(roi.start, k0, k1, k2, k3, k4))) ||
                           MarkedBy(Point(roi.start, k0, k1, k2, k3, k4), t, ch, centers, i) then 255 else 0
        {
          PaintCross(roi, result, t, ch, centers[i]);
          forall k0, k1, k2, k3, k4 | InBuffer(result, k0, k1, k2, k3, k4)
            ensures MarkedBy(Point(roi.start, k0, k1, k2, k3, k4), t, ch, centers, i + 1) <==>
                    MarkedBy(Point(roi.start, k0, k1, k2, k3, k4), t, ch, centers, i) ||
                    InCross(Point(roi.start, k0, k1, k2, k3, k4), t, ch, centers[i])
          {
            MarkedByStep(Point(roi.start, k0, k1, k2, k3, k4), t, ch, centers, i);
          }
        }
        forall k0, k1, k2, k3, k4 | InBuffer(result, k0, k1, k2, k3, k4)
          ensures var p := Point(roi.start, k0, k1, k2, k3, k4);
                  (p[0] < t && Marked(roi, regionCenters, p)) || MarkedBy(p, t, ch, centers, |centers|) <==>
                  p[0] < t + 1 && Marked(roi, regionCenters, p)
        {
          assert InBox(Point(roi.start, k0, k1, k2, k3, k4), roi);
          TimeStep(roi, regionCenters, t, Point(roi.start, k0, k1, k2, k3, k4));
        }
      }
    }
    return true;
  }

  /** p is centre c of p's own time and channel, with axis d shifted by o, as `execute` forms it. */
  predicate ShiftOf(p: seq<int>, c: Center, d: int, o: int)
    requires |p| == 5 && p[0] >= 0 && p[4] >= 0
  {
    1 <= d <= 3 && -1 <= o <= 1 && p == Shifted(p[0] as nat, p[4] as nat, c, d, o)
  }

  /** A marked cell is a non-background centre of its time and channel with one of x, y, z
      shifted by -1, 0 or +1, inside the roi; and every such point inside the roi is marked. */
  lemma MarkedIsShiftedCenter(roi: Box, regionCenters: nat -> seq<seq<Center>>, p: seq<int>)
    requires |roi.start| == 5 && |roi.stop| == 5 && |p| == 5
    ensures Marked(roi, regionCenters, p) <==>
            InBox(p, roi) && p[0] >= 0 && p[4] >= 0 && p[4] < |regionCenters(p[0] as nat)| &&
            var centers := NonBackground(regionCenters(p[0] as nat)[p[4]]);
            exists j, d, o :: 0 <= j < |centers| && ShiftOf(p, centers[j], d, o)
  {
    if InBox(p, roi) && p[0] >= 0 && p[4] >= 0 && p[4] < |regionCenters(p[0] as nat)| {
      var t, ch := p[0] as nat, p[4] as nat;
      var centers := NonBackground(regionCenters(t)[ch]);
      if Marked(roi, regionCenters, p) {
        var j :| 0 <= j < |centers| && NearCenter(p, centers[j]);
        CrossIsShifts(p, t, ch, centers[j]);
        var d, o :| 1 <= d <= 3 && -1 <= o <= 1 && p == Shifted(t, ch, centers[j], d, o);
        assert ShiftOf(p, centers[j], d, o);
      }
      if exists j, d, o :: 0 <= j < |centers| && ShiftOf(p, centers[j], d, o) {
        var j, d, o :| 0 <= j < |centers| && ShiftOf(p, centers[j], d, o);
        CrossIsShifts(p, t, ch, centers[j]);
      }
    }
  }

  /** Centre lists holding at most the background row mark nothing. */
  lemma BackgroundOnlyMarksNothing(roi: Box, regionCenters: nat -> seq<seq<Center>>, p: seq<int>)
    requires |roi.start| == 5 && |roi.stop| == 5 && |p| == 5
    requires forall t: nat, ch :: 0 <= ch < |regionCenters(t)| ==> |regionCenters(t)[ch]| <= 1
    ensures !Marked(roi, regionCenters, p)
  {
    if InBox(p, roi) && p[0] >= 0 && p[4] >= 0 && p[4] < |regionCenters(p[0] as nat)| {
      assert |NonBackground(regionCenters(p[0] as nat)[p[4]])| == 0;
    }
  }

  /** The background row never matters: centre lists that agree from row 1 on mark the same
      cells, whatever their row 0 holds. */
  lemma BackgroundRowIgnored(roi: Box, rc1: nat -> seq<seq<Center>>, rc2: nat -> seq<seq<Center>>, p: seq<int>)
    requires |roi.start| == 5 && |roi.stop| == 5 && |p| == 5
    requires forall t: nat :: |rc1(t)| == |rc2(t)|
    requires forall t: nat, ch :: 0 <= ch < |rc1(t)| ==>
               |rc1(t)[ch]| == |rc2(t)[ch]| && forall j :: 1 <= j < |rc1(t)[ch]| ==> rc1(t)[ch][j] == rc2(t)[ch][j]
    ensures Marked(roi, rc1, p) <==> Marked(roi, rc2, p)
  {
    if InBox(p, roi) && p[0] >= 0 && p[4] >= 0 && p[4] < |rc1(p[0] as nat)| {
      var t, ch := p[0] as nat, p[4] as nat;
      assert NonBackground(rc1(t)[ch]) == NonBackground(rc2(t)[ch]);
    }
  }

  /** The two inputs of OpObjectCenterImage. */
  datatype CenterImageInput = BinaryImage | RegionCenters

  /** The part of the output a dirty notice marks: nothing, or `slice(None)`, all of it. */
  datatype DirtyRegion = NothingDirty | EverythingDirty

  /** `propagateDirty`: a change of the region centres dirties the whole image; a change of the
      binary image dirties nothing. */
  function PropagateDirty(slot: CenterImageInput): (d: DirtyRegion)
    ensures d == EverythingDirty <==> slot == RegionCenters
  {
    if slot == RegionCenters then EverythingDirty else NothingDirty
  }

  predicate Covers(d: DirtyRegion, p: seq<int>) {
    d == EverythingDirty
  }

  /** The dirty rule is sound: a change of an input that alters the marks at a point dirties that
      point. The binary image is not read by `execute`, so its changes leave the marks alone. */
  lemma DirtyRuleIsSound(slot: CenterImageInput, roi: Box, rc1: nat -> seq<seq<Center>>,
                         rc2: nat -> seq<seq<Center>>, p: seq<int>)
    requires |roi.start| == 5 && |roi.stop| == 5 && |p| == 5
    requires slot == BinaryImage ==> rc1 == rc2
    ensures Marked(roi, rc1, p) != Marked(roi, rc2, p) ==> Covers(PropagateDirty(slot), p)
  {
  }
}
