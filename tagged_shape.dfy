/** Axis-tagged shapes: the ordered (axis letter, value) dictionaries that
    `meta.getTaggedShape()` returns, modelled as sequences of pairs. */
module TaggedShapes {
  import opened Common

  /** Slot metadata: the shape and the axis-tag letters, one per dimension. */
  datatype Meta = Meta(shape: seq<nat>, tags: seq<char>)

  const Spatial: set<char> := {'x', 'y', 'z'}

  predicate Distinct(ks: seq<char>) {
    forall i, j :: 0 <= i < j < |ks| ==> ks[i] != ks[j]
  }

  /** Axis tags never repeat a letter and there is one per dimension. */
  predicate WellFormed(m: Meta) {
    |m.shape| == |m.tags| && Distinct(m.tags)
  }

  function Keys<V>(d: seq<(char, V)>): (ks: seq<char>)
    ensures |ks| == |d|
    ensures forall i :: 0 <= i < |d| ==> ks[i] == d[i].0
  {
    if d == [] then [] else [d[0].0] + Keys(d[1..])
  }

  function Values<V>(d: seq<(char, V)>): (vs: seq<V>)
    ensures |vs| == |d|
    ensures forall i :: 0 <= i < |d| ==> vs[i] == d[i].1
  {
    if d == [] then [] else [d[0].1] + Values(d[1..])
  }

  /** `OrderedDict(zip(keys, values))` for sequences of equal length. */
  function Zip<V>(ks: seq<char>, vs: seq<V>): (d: seq<(char, V)>)
    requires |ks| == |vs|
    ensures |d| == |ks|
    ensures forall i :: 0 <= i < |d| ==> d[i] == (ks[i], vs[i])
  {
    if ks == [] then [] else [(ks[0], vs[0])] + Zip(ks[1..], vs[1..])
  }

  /** `meta.getTaggedShape()` */
  function Tagged(m: Meta): seq<(char, nat)>
    requires |m.shape| == |m.tags|
  {
    Zip(m.tags, m.shape)
  }

  /** `d[k]`: the value of the first entry with key `k`, or a KeyError. */
  function Lookup<V>(d: seq<(char, V)>, k: char): (r: Result<V>)
    ensures r.Ok? <==> k in Keys(d)
    ensures r.Err? ==> r.error == KeyMissing(k)
    ensures r.Ok? ==> exists i :: 0 <= i < |d| && d[i] == (k, r.value)
  {
    if d == [] then Err(KeyMissing(k))
    else if d[0].0 == k then Ok(d[0].1)
    else Lookup(d[1..], k)
  }

  /** `ks.index(k)`: the first position of `k`, or a ValueError. */
  function IndexOf(ks: seq<char>, k: char): (r: Result<nat>)
    ensures r.Ok? <==> k in ks
    ensures r.Err? ==> r.error == KeyMissing(k)
    ensures r.Ok? ==> r.value < |ks| && ks[r.value] == k
    ensures r.Ok? ==> forall j :: 0 <= j < r.value ==> ks[j] != k
  {
    if ks == [] then Err(KeyMissing(k))
    else if ks[0] == k then Ok(0)
    else match IndexOf(ks[1..], k)
      case Ok(i) => Ok(i + 1)
      case Err(e) => Err(e)
  }

  /** `del d[k]` on an OrderedDict: drops the entry with key `k`, a KeyError when there is none. */
  function Del<V>(d: seq<(char, V)>, k: char): (r: Result<seq<(char, V)>>)
    ensures r.Err? <==> k !in Keys(d)
    ensures r.Err? ==> r.error == KeyMissing(k)
    ensures r.Ok? ==> |r.value| + 1 == |d|
  {
    if d == [] then Err(KeyMissing(k))
    else if d[0].0 == k then Ok(d[1..])
    else match Del(d[1..], k)
      case Ok(rest) => Ok([d[0]] + rest)
      case Err(e) => Err(e)
  }

  /** The three `del` statements that remove x, y and z, in that order. */
  function DelSpatial<V>(d: seq<(char, V)>): Result<seq<(char, V)>> {
    var dx :- Del(d, 'x');
    var dy :- Del(dx, 'y');
    Del(dy, 'z')
  }

  /** The letter whose `del` fails first when x, y and z are not all keys. */
  function FirstMissingSpatial(keys: seq<char>): char {
    if 'x' !in keys then 'x' else if 'y' !in keys then 'y' else 'z'
  }

  /** Reference definition: the entries whose key is not in `drop`, in their original order. */
  function Without<V>(d: seq<(char, V)>, drop: set<char>): seq<(char, V)> {
    if d == [] then [] else (if d[0].0 in drop then [] else [d[0]]) + Without(d[1..], drop)
  }

  /** Reference definition on parallel sequences: the values whose axis is not in `drop`. */
  function Drop<V>(axes: seq<char>, s: seq<V>, drop: set<char>): seq<V>
    requires |axes| == |s|
  {
    if axes == [] then [] else (if axes[0] in drop then [] else [s[0]]) + Drop(axes[1..], s[1..], drop)
  }

  lemma {:induction false} WithoutUnaffected<V>(d: seq<(char, V)>, drop: set<char>)
    requires forall i :: 0 <= i < |d| ==> d[i].0 !in drop
    ensures Without(d, drop) == d
  {
    if d != [] {
      WithoutUnaffected(d[1..], drop);
    }
  }

  lemma {:induction false} KeysWithout<V>(d: seq<(char, V)>, drop: set<char>, k: char)
    requires k in Keys(d) && k !in drop
    ensures k in Keys(Without(d, drop))
  {
    var head := if d[0].0 in drop then [] else [d[0]];
    assert Without(d, drop) == head + Without(d[1..], drop);
    ValuesKeysAppend(head, Without(d[1..], drop));
    if d[0].0 != k {
      assert k in Keys(d[1..]);
      KeysWithout(d[1..], drop, k);
    } else {
      assert Keys(head) == [k];
    }
  }

  /** The tail of a dictionary with distinct keys has distinct keys, none of them the head's. */
  lemma DistinctTail<V>(d: seq<(char, V)>)
    requires Distinct(Keys(d)) && d != []
    ensures Distinct(Keys(d[1..])) && d[0].0 !in Keys(d[1..])
    ensures Keys(d) == [d[0].0] + Keys(d[1..])
  {
    forall i, j | 0 <= i < j < |d| - 1 ensures Keys(d[1..])[i] != Keys(d[1..])[j] {
      assert Keys(d)[i + 1] != Keys(d)[j + 1];
    }
  }

  lemma {:induction false} DistinctWithout<V>(d: seq<(char, V)>, drop: set<char>)
    requires Distinct(Keys(d))
    ensures Distinct(Keys(Without(d, drop)))
    ensures forall k :: k in Keys(Without(d, drop)) ==> k in Keys(d) && k !in drop
  {
    if d != [] {
      DistinctTail(d);
      DistinctWithout(d[1..], drop);
      var rest := Without(d[1..], drop);
      if d[0].0 !in drop {
        assert Without(d, drop) == [d[0]] + rest;
        ValuesKeysAppend([d[0]], rest);
        assert Keys(Without(d, drop)) == [d[0].0] + Keys(rest);
      } else {
        assert Without(d, drop) == rest;
      }
    }
  }

  /** On distinct keys, `del d[k]` is the filter that drops key `k`. */
  lemma {:induction false} DelIsWithout<V>(d: seq<(char, V)>, k: char)
    requires Distinct(Keys(d)) && k in Keys(d)
    ensures Del(d, k) == Ok(Without(d, {k}))
  {
    assert Distinct(Keys(d[1..])) by {
      forall i, j | 0 <= i < j < |d| - 1 ensures Keys(d[1..])[i] != Keys(d[1..])[j] {
        assert Keys(d)[i + 1] != Keys(d)[j + 1];
      }
    }
    if d[0].0 == k {
      forall i | 0 <= i < |d[1..]| ensures d[1..][i].0 !in {k} {
        assert Keys(d)[0] != Keys(d)[i + 1];
      }
      WithoutUnaffected(d[1..], {k});
      assert d[0].0 in {k};
      assert Without(d, {k}) == [] + Without(d[1..], {k});
      assert Without(d, {k}) == d[1..];
      assert Del(d, k) == Ok(d[1..]);
    } else {
      assert k in Keys(d[1..]);
      DelIsWithout(d[1..], k);
    }
  }

  lemma {:induction false} WithoutWithout<V>(d: seq<(char, V)>, a: set<char>, b: set<char>)
    ensures Without(Without(d, a), b) == Without(d, a + b)
  {
    if d != [] {
      WithoutWithout(d[1..], a, b);
      var head := if d[0].0 in a then [] else [d[0]];
      assert Without(d, a) == head + Without(d[1..], a);
      WithoutAppend(head, Without(d[1..], a), b);
      if d[0].0 !in a {
        assert Without(head, b) == (if d[0].0 in b then [] else [d[0]]) + Without([], b);
      }
    }
  }

  lemma {:induction false} WithoutAppend<V>(p: seq<(char, V)>, q: seq<(char, V)>, drop: set<char>)
    ensures Without(p + q, drop) == Without(p, drop) + Without(q, drop)
  {
    if p != [] {
      assert (p + q)[1..] == p[1..] + q;
      WithoutAppend(p[1..], q, drop);
    } else {
      assert p + q == q;
    }
  }

  /** The values and keys of the filtered dictionary are the filtered values and keys. */
  lemma {:induction false} WithoutZip<V>(axes: seq<char>, s: seq<V>, drop: set<char>)
    requires |axes| == |s|
    ensures Values(Without(Zip(axes, s), drop)) == Drop(axes, s, drop)
    ensures Keys(Without(Zip(axes, s), drop)) == Drop(axes, axes, drop)
  {
    if axes != [] {
      var z := Zip(axes, s);
      assert z[1..] == Zip(axes[1..], s[1..]);
      WithoutZip(axes[1..], s[1..], drop);
      var head := if axes[0] in drop then [] else [z[0]];
      assert Without(z, drop) == head + Without(z[1..], drop);
      ValuesKeysAppend(head, Without(z[1..], drop));
    }
  }

  lemma ValuesKeysAppend<V>(p: seq<(char, V)>, q: seq<(char, V)>)
    ensures Values(p + q) == Values(p) + Values(q)
    ensures Keys(p + q) == Keys(p) + Keys(q)
  {
  }

  /** Deleting x, y and z one after the other is the filter that drops the spatial axes,
      whenever all three are present and no key repeats. */
  lemma DelSpatialIsWithout<V>(d: seq<(char, V)>)
    requires Distinct(Keys(d))
    requires 'x' in Keys(d) && 'y' in Keys(d) && 'z' in Keys(d)
    ensures DelSpatial(d) == Ok(Without(d, Spatial))
  {
    var dx := Without(d, {'x'});
    var dy := Without(dx, {'y'});
    assert Del(d, 'x') == Ok(dx) by {
      DelIsWithout(d, 'x');
    }
    assert Distinct(Keys(dx)) && 'y' in Keys(dx) && 'z' in Keys(dx) by {
      DistinctWithout(d, {'x'});
      KeysWithout(d, {'x'}, 'y');
      KeysWithout(d, {'x'}, 'z');
    }
    assert Del(dx, 'y') == Ok(dy) by {
      DelIsWithout(dx, 'y');
    }
    assert Distinct(Keys(dy)) && 'z' in Keys(dy) by {
      DistinctWithout(dx, {'y'});
      KeysWithout(dx, {'y'}, 'z');
    }
    assert Del(dy, 'z') == Ok(Without(dy, {'z'})) by {
      DelIsWithout(dy, 'z');
    }
    assert Without(dy, {'z'}) == Without(d, Spatial) by {
      WithoutWithout(d, {'x'}, {'y'});
      WithoutWithout(d, {'x'} + {'y'}, {'z'});
      assert {'x'} + {'y'} + {'z'} == Spatial;
    }
  }

  /** Position-wise view of Drop: it keeps exactly the entries at the kept positions,
      so any relation that holds position by position between two sequences holds
      between their projections. */
  lemma {:induction false} DropBox(axes: seq<char>, p: seq<int>, b: Box, drop: set<char>)
    requires |axes| == |p| && InBox(p, b)
    ensures |Drop(axes, b.start, drop)| == |Drop(axes, p, drop)| == |Drop(axes, b.stop, drop)|
    ensures InBox(Drop(axes, p, drop), Box(Drop(axes, b.start, drop), Drop(axes, b.stop, drop)))
  {
    if axes != [] {
      var b' := Box(b.start[1..], b.stop[1..]);
      assert InBox(p[1..], b') by {
        forall i | 0 <= i < |p| - 1 ensures b'.start[i] <= p[1..][i] < b'.stop[i] {
          assert b.start[i + 1] <= p[i + 1] < b.stop[i + 1];
        }
      }
      DropBox(axes[1..], p[1..], b', drop);
      var dp, ds, de := Drop(axes[1..], p[1..], drop), Drop(axes[1..], b'.start, drop), Drop(axes[1..], b'.stop, drop);
      if axes[0] !in drop {
        assert Drop(axes, p, drop) == [p[0]] + dp;
        assert Drop(axes, b.start, drop) == [b.start[0]] + ds;
        assert Drop(axes, b.stop, drop) == [b.stop[0]] + de;
        assert b.start[0] <= p[0] < b.stop[0];
        forall i | 0 <= i < |dp| + 1
          ensures ([b.start[0]] + ds)[i] <= ([p[0]] + dp)[i] < ([b.stop[0]] + de)[i]
        {
          if i > 0 {
            assert ds[i - 1] <= dp[i - 1] < de[i - 1];
          }
        }
      } else {
        assert Drop(axes, p, drop) == dp;
        assert Drop(axes, b.start, drop) == ds;
        assert Drop(axes, b.stop, drop) == de;
      }
    }
  }

  lemma {:induction false} DropLength<V, W>(axes: seq<char>, s: seq<V>, u: seq<W>, drop: set<char>)
    requires |axes| == |s| == |u|
    ensures |Drop(axes, s, drop)| == |Drop(axes, u, drop)|
  {
    if axes != [] {
      DropLength(axes[1..], s[1..], u[1..], drop);
    }
  }

  /** Every kept value is one whose axis was not dropped. */
  lemma {:induction false} DropAxesKept(axes: seq<char>, drop: set<char>)
    ensures forall k :: k in Drop(axes, axes, drop) ==> k in axes && k !in drop
  {
    if axes != [] {
      DropAxesKept(axes[1..], drop);
    }
  }

  /** The kept values of a sequence that is constant on the kept axes are that constant. */
  lemma {:induction false} DropConstant(axes: seq<char>, s: seq<nat>, drop: set<char>, v: nat)
    requires |axes| == |s|
    requires forall i :: 0 <= i < |s| && axes[i] !in drop ==> s[i] == v
    ensures forall j :: 0 <= j < |Drop(axes, s, drop)| ==> Drop(axes, s, drop)[j] == v
  {
    if axes != [] {
      DropConstant(axes[1..], s[1..], drop, v);
    }
  }

  lemma {:induction false} LookupZip<V>(ks: seq<char>, vs: seq<V>, i: nat)
    requires |ks| == |vs| && Distinct(ks) && i < |ks|
    ensures Lookup(Zip(ks, vs), ks[i]) == Ok(vs[i])
  {
    var z := Zip(ks, vs);
    assert z[1..] == Zip(ks[1..], vs[1..]);
    if i > 0 {
      assert ks[0] != ks[i];
      LookupZip(ks[1..], vs[1..], i - 1);
    }
  }

  lemma KeysZip<V>(ks: seq<char>, vs: seq<V>)
    requires |ks| == |vs|
    ensures Keys(Zip(ks, vs)) == ks && Values(Zip(ks, vs)) == vs
  {
  }
}
