// Depth2Space.forward: a (B, a, b, r*r) array becomes a (B, a*r, b*r, 1)
// array whose every r x r block of pixels is one input pixel's channels.

module Depth2Space {
  import opened Shape
  import opened Ndarray

  // ---------------------------------------------------------------------
  // The split / squeeze / concatenate stage, used twice by the pipeline.

  /** `[squeeze(p, axis=1) for p in split(x, d, 1)]`, `d` being the length
      of axis 1: the slices of `x` along axis 1, in order. */
  function Slices<T>(x: Tensor<T>): (ps: seq<Tensor<T>>)
    requires x.Valid() && |x.shape| >= 2 && x.shape[1] > 0
    ensures |ps| == x.shape[1]
    ensures forall p :: 0 <= p < |ps| ==> ps[p].Valid() && ps[p].shape == x.shape[..1] + x.shape[2..]
  {
    var d := x.shape[1];
    SelfDivides(d);
    var parts := Split(x, 1, d);
    seq(d, p requires 0 <= p < d => SqueezeAxis(parts[p], 1))
  }

  /** The slices of `x` along axis 1 laid side by side along the axis that
      follows them (axis 3 of `x`, axis 2 of each slice). */
  function MergeSlices<T>(x: Tensor<T>): (y: Tensor<T>)
    requires x.Valid() && |x.shape| >= 4 && x.shape[1] > 0
    ensures y.Valid() && y.shape == [x.shape[0], x.shape[2], x.shape[1] * x.shape[3]] + x.shape[4..]
  {
    var ps := Slices(x);
    assert ps[0].shape == [x.shape[0], x.shape[2], x.shape[3]] + x.shape[4..];
    Concatenate(ps, 2)
  }

  /** Element `[n, i, ..]` of slice `p` is element `[n, p, i, ..]` of `x`. */
  lemma {:induction false} SlicesAt<T>(x: Tensor<T>, n: nat, p: nat, idx: seq<nat>)
    requires x.Valid() && |x.shape| >= 2 && x.shape[1] > 0
    requires InBounds(x.shape, [n, p] + idx)
    ensures p < x.shape[1] && InBounds(x.shape[..1] + x.shape[2..], [n] + idx)
    ensures At(Slices(x)[p], [n] + idx) == At(x, [n, p] + idx)
  {
    var s, d := x.shape, x.shape[1];
    SelfDivides(d);
    assert s == [s[0]] + [d] + s[2..];
    assert [n, p] + idx == [n] + [p] + idx;
    AxisBounds([s[0]], d, s[2..], [n], p, idx);
    InBoundsAppend([s[0]], s[2..], [n], idx);
    var part := Split(x, 1, d)[p];
    assert Slices(x)[p] == SqueezeAxis(part, 1);
    assert part.shape[..1] + part.shape[2..] == s[..1] + s[2..];
    SqueezeAxisAt(part, 1, [n], idx);
    SplitAt(x, 1, d, p, [n], 0, idx, p);
    assert [n] + [p] + idx == [n, p] + idx;
  }

  /** Element `[n, p, i, e, ..]` of `x` is element `[n, i, p * c + e, ..]` of
      the merged array, `c` being the length of axis 3 of `x`. */
  lemma {:induction false} MergeSlicesAt<T>(x: Tensor<T>, n: nat, p: nat, i: nat, e: nat, rest: seq<nat>, w: nat)
    requires x.Valid() && |x.shape| >= 4 && x.shape[1] > 0
    requires InBounds(x.shape, [n, p, i, e] + rest) && w == p * x.shape[3] + e
    ensures InBounds(MergeSlices(x).shape, [n, i, w] + rest)
    ensures At(MergeSlices(x), [n, i, w] + rest) == At(x, [n, p, i, e] + rest)
  {
    var s, c := x.shape, x.shape[3];
    var ps := Slices(x);
    assert [n, p, i, e] + rest == [n, p] + ([i, e] + rest);
    SlicesAt(x, n, p, [i, e] + rest);
    assert ps[0].shape == [s[0], s[2]] + [c] + s[4..] by {
      assert s == [s[0], s[1], s[2], c] + s[4..];
    }
    assert [n] + ([i, e] + rest) == [n, i] + [e] + rest;
    ConcatenateAt(ps, 2, p, [n, i], e, rest, w);
    assert [n, i] + [w] + rest == [n, i, w] + rest;
  }

  // ---------------------------------------------------------------------
  // The forward pass.

  /** `Depth2Space(r).forward`: reshape the channels into `(r, r)`, swap
      the two sub-axes, then interleave rows and columns by merging the
      slices along axis 1 twice, and append a unit channel axis. */
  function Forward<T>(x: Tensor<T>, r: nat): (y: Tensor<T>)
    requires x.Valid() && |x.shape| == 4 && x.shape[3] == r * r
    requires x.shape[1] > 0 && x.shape[2] > 0
    ensures y.Valid() && y.shape == OutputShape(x.shape, r)
    ensures r > 0 ==> y.shape[1] % r == 0 && y.shape[1] / r == x.shape[1]
    ensures r > 0 ==> y.shape[2] % r == 0 && y.shape[2] / r == x.shape[2]
  {
    var s := x.shape;
    ExactMultiple(s[1], r);
    ExactMultiple(s[2], r);
    assert s == s[..3] + [r * r];
    SplitLastAxis(s[..3], [0, 0, 0], r, r, 0, 0);
    var x1 := Reshape(x, s[..3] + [r, r]);
    var x2 := SwapLastAxes(x1);
    var x3 := MergeSlices(x2);
    var x4 := MergeSlices(x3);
    UnitAxis(x4.shape, [], [0, 0, 0], []);
    assert x4.shape + [] == x4.shape;
    Reshape(x4, x4.shape + [1] + [])
  }

  /** After the reshape into `(r, r)` and the swap of the two sub-axes,
      element `[n, i, j, u, v]` is channel `v * r + u` of input pixel `(i, j)`. */
  lemma {:induction false} SwappedChannelsAt<T>(x: Tensor<T>, r: nat, n: nat, i: nat, j: nat, u: nat, v: nat)
    requires x.Valid() && |x.shape| == 4 && x.shape[3] == r * r
    requires n < x.shape[0] && i < x.shape[1] && j < x.shape[2] && u < r && v < r
    ensures Prod(x.shape[..3] + [r, r]) == |x.data|
    ensures SwapLastAxes(Reshape(x, x.shape[..3] + [r, r])).shape == x.shape[..3] + [r, r]
    ensures InBounds(x.shape[..3] + [r, r], [n, i, j, u, v])
    ensures InBounds(x.shape, [n, i, j, v * r + u])
    ensures At(SwapLastAxes(Reshape(x, x.shape[..3] + [r, r])), [n, i, j, u, v]) == At(x, [n, i, j, v * r + u])
  {
    var s := x.shape;
    var pre := s[..3];
    assert s == pre + [r * r];
    assert InBounds(pre, [n, i, j]) by {
      assert pre == [s[0], s[1], s[2]];
    }
    assert InBounds(pre + [r, r], [n, i, j] + [v, u]) by {
      InBoundsAppend(pre, [r, r], [n, i, j], [v, u]);
      assert InBounds([r, r], [v, u]);
    }
    assert InBounds(pre + [r, r], [n, i, j] + [u, v]) by {
      InBoundsAppend(pre, [r, r], [n, i, j], [u, v]);
      assert InBounds([r, r], [u, v]);
    }
    ReshapeSplitLastAt(x, pre, r, r, [n, i, j], v, u);
    var x1 := Reshape(x, pre + [r, r]);
    SwapLastAxesAt(x1, [n, i, j], v, u);
    assert x1.shape[..|x1.shape| - 2] == pre;
    assert [n, i, j] + [u, v] == [n, i, j, u, v];
    assert [n, i, j] + [v * r + u] == [n, i, j, v * r + u];
  }

  /** The first merge brings row sub-position `u` next to row `i`:
      element `[n, i, j, u, v]` lands at `[n, j, y, v]`, `y` being `i * r + u`. */
  lemma {:induction false} RowsMergedAt<T>(x: Tensor<T>, r: nat, n: nat, i: nat, j: nat, u: nat, v: nat, y: nat)
    requires x.Valid() && |x.shape| == 5 && x.shape[1] > 0 && x.shape[3] == r && x.shape[4] == r
    requires InBounds(x.shape, [n, i, j, u, v]) && y == i * r + u
    ensures MergeSlices(x).shape == [x.shape[0], x.shape[2], x.shape[1] * r, r]
    ensures InBounds(MergeSlices(x).shape, [n, j, y, v])
    ensures At(MergeSlices(x), [n, j, y, v]) == At(x, [n, i, j, u, v])
  {
    assert x.shape[4..] == [r];
    assert [n, i, j, u, v] == [n, i, j, u] + [v];
    MergeSlicesAt(x, n, i, j, u, [v], y);
    assert [n, j, y] + [v] == [n, j, y, v];
  }

  /** The second merge brings column sub-position `v` next to column `j`:
      element `[n, j, y, v]` lands at `[n, y, z]`, `z` being `j * r + v`. */
  lemma {:induction false} ColumnsMergedAt<T>(x: Tensor<T>, r: nat, n: nat, j: nat, y: nat, v: nat, z: nat)
    requires x.Valid() && |x.shape| == 4 && x.shape[1] > 0 && x.shape[3] == r
    requires InBounds(x.shape, [n, j, y, v]) && z == j * r + v
    ensures MergeSlices(x).shape == [x.shape[0], x.shape[2], x.shape[1] * r]
    ensures InBounds(MergeSlices(x).shape, [n, y, z])
    ensures At(MergeSlices(x), [n, y, z]) == At(x, [n, j, y, v])
  {
    assert x.shape[4..] == [];
    assert [n, j, y, v] == [n, j, y, v] + [];
    MergeSlicesAt(x, n, j, y, v, [], z);
    assert [n, y, z] + [] == [n, y, z];
  }

  /** Merging the slices twice interleaves rows and columns: element
      `[n, i, j, u, v]` lands at `[n, y, z]`, `y` being `i * r + u` and `z`
      being `j * r + v`. */
  lemma {:induction false} InterleaveAt<T>(x: Tensor<T>, r: nat, n: nat, i: nat, j: nat, u: nat, v: nat, y: nat, z: nat)
    requires x.Valid() && |x.shape| == 5 && x.shape[1] > 0 && x.shape[2] > 0 && x.shape[3] == r && x.shape[4] == r
    requires InBounds(x.shape, [n, i, j, u, v]) && y == i * r + u && z == j * r + v
    ensures MergeSlices(MergeSlices(x)).shape == [x.shape[0], x.shape[1] * r, x.shape[2] * r]
    ensures InBounds(MergeSlices(MergeSlices(x)).shape, [n, y, z])
    ensures At(MergeSlices(MergeSlices(x)), [n, y, z]) == At(x, [n, i, j, u, v])
  {
    RowsMergedAt(x, r, n, i, j, u, v, y);
    ColumnsMergedAt(MergeSlices(x), r, n, j, y, v, z);
  }

  /** The closed form of the forward pass: channel `v * r + u` of input
      pixel `(i, j)` lands at output pixel `(i * r + u, j * r + v)`. */
  lemma {:induction false} ForwardAt<T>(x: Tensor<T>, r: nat, n: nat, i: nat, j: nat, u: nat, v: nat)
    requires x.Valid() && |x.shape| == 4 && x.shape[3] == r * r
    requires x.shape[1] > 0 && x.shape[2] > 0
    requires n < x.shape[0] && i < x.shape[1] && j < x.shape[2] && u < r && v < r
    ensures InBounds(x.shape, [n, i, j, Offset(v, r, u)])
    ensures InBounds(Forward(x, r).shape, [n, Offset(i, r, u), Offset(j, r, v), 0])
    ensures At(Forward(x, r), [n, Offset(i, r, u), Offset(j, r, v), 0]) == At(x, [n, i, j, Offset(v, r, u)])
  {
    PixelAt(x, r, n, i, j, u, v, Offset(i, r, u), Offset(j, r, v));
  }

  /** `ForwardAt` with the output pixel `(y, z)` named. */
  lemma {:induction false} PixelAt<T>(x: Tensor<T>, r: nat, n: nat, i: nat, j: nat, u: nat, v: nat, y: nat, z: nat)
    requires x.Valid() && |x.shape| == 4 && x.shape[3] == r * r
    requires x.shape[1] > 0 && x.shape[2] > 0
    requires n < x.shape[0] && i < x.shape[1] && j < x.shape[2] && u < r && v < r
    requires y == i * r + u && z == j * r + v
    ensures InBounds(x.shape, [n, i, j, Offset(v, r, u)])
    ensures InBounds(Forward(x, r).shape, [n, y, z, 0])
    ensures At(Forward(x, r), [n, y, z, 0]) == At(x, [n, i, j, Offset(v, r, u)])
  {
    var s := x.shape;
    SwappedChannelsAt(x, r, n, i, j, u, v);
    var x2 := SwapLastAxes(Reshape(x, s[..3] + [r, r]));
    InterleaveAt(x2, r, n, i, j, u, v, y, z);
    var x4 := MergeSlices(MergeSlices(x2));
    var idx := [n, y, z];
    assert Forward(x, r) == Reshape(x4, x4.shape + [1] + []);
    assert idx == idx + [];
    ReshapeAddUnitAt(x4, x4.shape, [], idx, []);
    assert idx + [0] + [] == [n, y, z, 0];
  }

  /** The input position the forward pass reads output position `idx`
      from: the inverse of the closed form. */
  function SourceIndex(idx: seq<nat>, r: nat): seq<nat>
    requires r > 0
  {
    if |idx| == 4 then [idx[0], idx[1] / r, idx[2] / r, Offset(idx[2] % r, r, idx[1] % r)] else idx
  }

  /** Reading the forward pass's output at `idx` reads the input at
      `SourceIndex(idx, r)`. */
  lemma {:induction false} ForwardReads<T>(x: Tensor<T>, r: nat, idx: seq<nat>)
    requires x.Valid() && |x.shape| == 4 && x.shape[3] == r * r
    requires x.shape[1] > 0 && x.shape[2] > 0 && r > 0
    requires InBounds(Forward(x, r).shape, idx)
    ensures InBounds(x.shape, SourceIndex(idx, r))
    ensures At(Forward(x, r), idx) == At(x, SourceIndex(idx, r))
  {
    var s := x.shape;
    var n, y, z := idx[0], idx[1], idx[2];
    assert idx[3] == 0 && y < s[1] * r && z < s[2] * r;
    var i, u, j, v := y / r, y % r, z / r, z % r;
    assert y == i * r + u && u < r by { DivMod(y, r); }
    assert z == j * r + v && v < r by { DivMod(z, r); }
    assert i < s[1] by { DivBelow(y, r, s[1]); }
    assert j < s[2] by { DivBelow(z, r, s[2]); }
    assert idx == [n, y, z, 0];
    ForwardAt(x, r, n, i, j, u, v);
  }

  /** No two output positions are read from the same input position. */
  lemma {:induction false} SourceIndexInjective(s: seq<nat>, r: nat, i1: seq<nat>, i2: seq<nat>)
    requires r > 0 && |s| == 4 && s[3] == 1
    requires InBounds(s, i1) && InBounds(s, i2) && SourceIndex(i1, r) == SourceIndex(i2, r)
    ensures i1 == i2
  {
    var c1, c2 := Offset(i1[2] % r, r, i1[1] % r), Offset(i2[2] % r, r, i2[1] % r);
    assert i1[1] / r == i2[1] / r && i1[2] / r == i2[2] / r && c1 == c2 by {
      assert SourceIndex(i1, r)[1..] == SourceIndex(i2, r)[1..];
    }
    assert i1[2] % r == i2[2] % r && i1[1] % r == i2[1] % r by {
      DivModUnique(c1, i1[2] % r, r, i1[1] % r);
      DivModUnique(c2, i2[2] % r, r, i2[1] % r);
    }
    assert i1[1] == i2[1] by { DivMod(i1[1], r); DivMod(i2[1], r); }
    assert i1[2] == i2[2] by { DivMod(i1[2], r); DivMod(i2[2], r); }
    assert i1[3] == 0 == i2[3];
    assert i1[0] == SourceIndex(i1, r)[0] == SourceIndex(i2, r)[0] == i2[0];
  }

  /** The forward pass moves every input element to exactly one output
      position: the output is a permutation of the input. */
  lemma {:induction false} ForwardPermutes<T>(x: Tensor<T>, r: nat)
    requires x.Valid() && |x.shape| == 4 && x.shape[3] == r * r
    requires x.shape[1] > 0 && x.shape[2] > 0 && r > 0
    ensures |Forward(x, r).data| == |x.data|
    ensures multiset(Forward(x, r).data) == multiset(x.data)
  {
    var y := Forward(x, r);
    var s := x.shape;
    assert s == [s[0], s[1], s[2], r * r];
    BlockSize(s[0], s[1], s[2], r);
    var g := (idx: seq<nat>) => if r > 0 then SourceIndex(idx, r) else idx;
    forall idx | InBounds(y.shape, idx)
      ensures InBounds(x.shape, g(idx)) && At(y, idx) == At(x, g(idx))
    {
      ForwardReads(x, r, idx);
    }
    forall i1, i2 | InBounds(y.shape, i1) && InBounds(y.shape, i2) && g(i1) == g(i2)
      ensures i1 == i2
    {
      SourceIndexInjective(y.shape, r, i1, i2);
    }
    ReadsPermute(x, y, g);
  }

  /** With `r = 1` the forward pass changes nothing. */
  lemma {:induction false} ForwardIdentity<T>(x: Tensor<T>)
    requires x.Valid() && |x.shape| == 4 && x.shape[3] == 1
    requires x.shape[1] > 0 && x.shape[2] > 0
    ensures Forward(x, 1) == x
  {
    var y := Forward(x, 1);
    assert y.shape == x.shape;
    forall idx | InBounds(x.shape, idx)
      ensures At(y, idx) == At(x, idx)
    {
      var n, i, j := idx[0], idx[1], idx[2];
      assert idx == [n, i, j, 0];
      ForwardAt(x, 1, n, i, j, 0, 0);
      assert i * 1 + 0 == i && j * 1 + 0 == j && 0 * 1 + 0 == 0;
    }
    Extensionality(y, x);
  }

  // ---------------------------------------------------------------------
  // The forward pass as written, with numpy's `squeeze`.

  /** `numpy.squeeze` of every array in `ps`: each loses all its unit axes. */
  function SqueezeAll<T>(ps: seq<Tensor<T>>): (qs: seq<Tensor<T>>)
    requires forall p :: 0 <= p < |ps| ==> ps[p].Valid()
    ensures |qs| == |ps|
    ensures forall p :: 0 <= p < |qs| ==> qs[p].Valid() && qs[p].shape == DropUnitAxes(ps[p].shape)
  {
    seq(|ps|, p requires 0 <= p < |ps| => Squeeze(ps[p]))
  }

  /** One split / squeeze / concatenate stage as written,
      `concatenate([squeeze(p) for p in split(x, d, 1)], 2)`; `None` where
      a numpy call raises, which the split does unless axis 1 exists and a
      positive `d` divides it. */
  function SqueezeStage<T>(x: Tensor<T>, d: nat): (y: Option<Tensor<T>>)
    requires x.Valid()
    ensures y.Some? ==> y.value.Valid()
    ensures y.Some? ==> 1 < |x.shape| && d > 0 && x.shape[1] % d == 0
  {
    var ps :- TrySplit(x, 1, d);
    TryConcatenate(SqueezeAll(ps), 2)
  }

  /** `Depth2Space(r).forward` as written: the slices are squeezed with
      numpy's `squeeze`, which drops every unit axis and not only the split
      one; `None` where a numpy call raises. */
  function ForwardAsWritten<T>(x: Tensor<T>, r: nat): (y: Option<Tensor<T>>)
    requires x.Valid() && |x.shape| == 4
    ensures y.Some? ==> y.value.Valid()
  {
    var s := x.shape;
    var x1 :- TryReshape(x, s[..3] + [r, r]);
    var x2 := SwapLastAxes(x1);
    var x3 :- SqueezeStage(x2, s[1]);
    var x4 :- SqueezeStage(x3, s[2]);
    TryReshape(x4, OutputShape(s, r))
  }

  /** The shape `(B, a * r, b * r, 1)` the forward pass reshapes its result to. */
  function OutputShape(s: seq<nat>, r: nat): seq<nat>
    requires |s| == 4
  {
    [s[0], s[1] * r, s[2] * r, 1]
  }

  /** When no axis other than the split one has length 1, numpy's
      `squeeze` of the slices is the squeeze of axis 1 alone. */
  lemma {:induction false} SqueezeAllSlices<T>(x: Tensor<T>)
    requires x.Valid() && |x.shape| >= 2 && x.shape[1] > 0
    requires forall k :: 0 <= k < |x.shape| && k != 1 ==> x.shape[k] != 1
    ensures x.shape[1] % x.shape[1] == 0
    ensures SqueezeAll(Split(x, 1, x.shape[1])) == Slices(x)
  {
    var d := x.shape[1];
    SelfDivides(d);
    var ps := Split(x, 1, d);
    forall p | 0 <= p < d
      ensures SqueezeAll(ps)[p] == Slices(x)[p]
    {
      var sh := ps[p].shape;
      assert sh == x.shape[1 := 1];
      forall k | 0 <= k < |sh| && k != 1
        ensures sh[k] != 1
      {
        assert sh[k] == x.shape[k];
      }
      DropOnlyUnitAxis(sh, 1);
    }
  }

  /** One split / squeeze / concatenate stage as written succeeds and
      merges the slices when no axis but axis 1 has length 1. */
  lemma {:induction false} MergeAsWritten<T>(x: Tensor<T>)
    requires x.Valid() && |x.shape| >= 4 && x.shape[1] > 0
    requires forall k :: 0 <= k < |x.shape| && k != 1 ==> x.shape[k] != 1
    ensures SqueezeStage(x, x.shape[1]) == Some(MergeSlices(x))
  {
    SqueezeAllSlices(x);
  }

  /** With a batch and a width above 1 and `r > 1`, the forward pass as
      written succeeds and agrees with `Forward`. */
  lemma {:induction false} ForwardAsWrittenAgrees<T>(x: Tensor<T>, r: nat)
    requires x.Valid() && |x.shape| == 4 && x.shape[3] == r * r
    requires x.shape[1] > 0 && x.shape[2] > 0
    requires x.shape[0] > 1 && x.shape[2] > 1 && r > 1
    ensures ForwardAsWritten(x, r) == Some(Forward(x, r))
  {
    var s := x.shape;
    var B, a, b := s[0], s[1], s[2];
    assert s == s[..3] + [r * r];
    SplitLastAxis(s[..3], [0, 0, 0], r, r, 0, 0);
    var x2 := SwapLastAxes(Reshape(x, s[..3] + [r, r]));
    assert x2.shape == [B, a, b, r, r];
    MergeAsWritten(x2);
    var x3 := MergeSlices(x2);
    assert x3.shape == [B, b, a * r, r];
    assert a * r > 1 by { MulAtLeastOne(a, r); }
    MergeAsWritten(x3);
    var x4 := MergeSlices(x3);
    assert x4.shape + [1] + [] == OutputShape(s, r);
  }

  /** The input of shape `(1, 2, 2, 4)` with `r = 2`:
      `Forward` is defined on it, but the forward pass as written raises,
      because squeezing the slices also drops the batch axis and the second
      `concatenate(..., 2)` then names an axis the two-axis pieces do not have. */
  lemma {:induction false} BatchOfOneRaises<T>(x: Tensor<T>)
    requires x.Valid() && x.shape == [1, 2, 2, 4]
    ensures Forward(x, 2).shape == [1, 4, 4, 1]
    ensures ForwardAsWritten(x, 2) == None
  {
    var s := x.shape;
    assert s[..3] + [2, 2] == [1, 2, 2, 2, 2];
    SplitLastAxis([1, 2, 2], [0, 0, 0], 2, 2, 0, 0);
    assert s == [1, 2, 2] + [2 * 2];
    var x2 := SwapLastAxes(Reshape(x, [1, 2, 2, 2, 2]));
    assert x2.shape == [1, 2, 2, 2, 2];
    BatchOfOneFirstStage(x2);
    BatchOfOneSecondStage(SqueezeStage(x2, 2).value);
  }

  /** On the input of shape `(1, 2, 2, 4)` with `r = 2` the first stage
      succeeds: its pieces
      `(1, 1, 2, 2, 2)` squeeze to `(2, 2, 2)`, batch axis included. */
  lemma {:induction false} BatchOfOneFirstStage<T>(x: Tensor<T>)
    requires x.Valid() && x.shape == [1, 2, 2, 2, 2]
    ensures SqueezeStage(x, 2).Some? && SqueezeStage(x, 2).value.shape == [2, 2, 4]
  {
    SelfDivides(2);
    var ps := Split(x, 1, 2);
    assert DropUnitAxes([1, 1, 2, 2, 2]) == [2, 2, 2] by {
      NoUnitAxis([2, 2, 2]);
      assert [1, 1, 2, 2, 2][1..] == [1, 2, 2, 2] && [1, 2, 2, 2][1..] == [2, 2, 2];
    }
    assert ps[0].shape == [1, 1, 2, 2, 2];
    var qs := SqueezeAll(ps);
    assert qs[0].shape == [2, 2, 2];
  }

  /** The second stage then raises: its pieces `(2, 1, 4)` squeeze to
      `(2, 4)`, which has no axis 2 to concatenate on. */
  lemma {:induction false} BatchOfOneSecondStage<T>(x: Tensor<T>)
    requires x.Valid() && x.shape == [2, 2, 4]
    ensures SqueezeStage(x, 2) == None
  {
    SelfDivides(2);
    var ps := Split(x, 1, 2);
    assert ps[0].shape == [2, 1, 4];
    assert DropUnitAxes([2, 1, 4]) == [2, 4] by {
      NoUnitAxis([4]);
      assert [2, 1, 4][1..] == [1, 4] && [1, 4][1..] == [4];
    }
    var qs := SqueezeAll(ps);
    assert qs[0].shape == [2, 4];
    assert !Uniform(qs, 2);
  }

  /** A batch of 1 does not always raise: on an input of shape
      `(1, 1, 2, 16)` with `r = 4`, `squeeze` drops the batch and height
      axes in the first stage, yet both stages and the final reshape
      succeed. */
  lemma {:induction false} BatchOfOneSucceeds<T>(x: Tensor<T>)
    requires x.Valid() && x.shape == [1, 1, 2, 16]
    ensures ForwardAsWritten(x, 4).Some?
    ensures ForwardAsWritten(x, 4).value.shape == Forward(x, 4).shape == [1, 4, 8, 1]
  {
    var s := x.shape;
    assert s[..3] + [4, 4] == [1, 1, 2, 4, 4];
    SplitLastAxis([1, 1, 2], [0, 0, 0], 4, 4, 0, 0);
    assert s == [1, 1, 2] + [4 * 4];
    var x2 := SwapLastAxes(Reshape(x, [1, 1, 2, 4, 4]));
    assert x2.shape == [1, 1, 2, 4, 4];
    BatchOfOneLongStages(x2);
    assert OutputShape(s, 4) == [1, 4, 8, 1];
    Prod4(1, 4, 8, 1);
  }

  /** On that input both stages succeed and leave 32 elements. */
  lemma {:induction false} BatchOfOneLongStages<T>(x: Tensor<T>)
    requires x.Valid() && x.shape == [1, 1, 2, 4, 4]
    ensures SqueezeStage(x, 1).Some?
    ensures SqueezeStage(SqueezeStage(x, 1).value, 2).Some?
    ensures |SqueezeStage(SqueezeStage(x, 1).value, 2).value.data| == 32
  {
    BatchOfOneLongFirstStage(x);
    var x3 := SqueezeStage(x, 1).value;
    BatchOfOneLongSecondStage(x3);
    assert [2, 2, 8][1..] == [2, 8] && [2, 8][1..] == [8] && [8][1..] == [];
  }

  /** On that input the first stage's one piece `(1, 1, 2, 4, 4)` squeezes
      to `(2, 4, 4)`, which the concatenation of one piece keeps. */
  lemma {:induction false} BatchOfOneLongFirstStage<T>(x: Tensor<T>)
    requires x.Valid() && x.shape == [1, 1, 2, 4, 4]
    ensures SqueezeStage(x, 1).Some? && SqueezeStage(x, 1).value.shape == [2, 4, 4]
  {
    assert x.shape[1 := 1 / 1] == x.shape;
    var ps := Split(x, 1, 1);
    assert DropUnitAxes([1, 1, 2, 4, 4]) == [2, 4, 4] by {
      NoUnitAxis([2, 4, 4]);
      assert [1, 1, 2, 4, 4][1..] == [1, 2, 4, 4] && [1, 2, 4, 4][1..] == [2, 4, 4];
    }
    var qs := SqueezeAll(ps);
    assert qs[0].shape == [2, 4, 4];
  }

  /** The second stage splits the `(2, 4, 4)` array into two `(2, 2, 4)`
      pieces, which have no unit axis, and joins them into `(2, 2, 8)`. */
  lemma {:induction false} BatchOfOneLongSecondStage<T>(x: Tensor<T>)
    requires x.Valid() && x.shape == [2, 4, 4]
    ensures SqueezeStage(x, 2).Some? && SqueezeStage(x, 2).value.shape == [2, 2, 8]
  {
    assert x.shape[1 := 4 / 2] == [2, 2, 4];
    var ps := Split(x, 1, 2);
    NoUnitAxis([2, 2, 4]);
    var qs := SqueezeAll(ps);
    assert qs[0].shape == [2, 2, 4] && qs[1].shape == [2, 2, 4];
  }

  /** On that input the pass as written also misplaces elements: element
      `[0, 2, 0, 0]` of its result is `X[0, 0, 1, 0]`, where `Forward`
      holds `X[0, 0, 0, 2]`. */
  lemma {:induction false} BatchOfOneMisplaces<T>(x: Tensor<T>)
    requires x.Valid() && x.shape == [1, 1, 2, 16]
    requires At(x, [0, 0, 1, 0]) != At(x, [0, 0, 0, 2])
    ensures ForwardAsWritten(x, 4).Some?
    ensures ForwardAsWritten(x, 4).value.shape == Forward(x, 4).shape
    ensures ForwardAsWritten(x, 4).value != Forward(x, 4)
  {
    BatchOfOneAsWrittenAt(x);
    ForwardAt(x, 4, 0, 0, 0, 2, 0);
    assert Offset(0, 4, 2) == 2 && Offset(0, 4, 0) == 0;
  }

  /** Element `[0, 2, 0, 0]` of the result as written on that input. */
  lemma {:induction false} BatchOfOneAsWrittenAt<T>(x: Tensor<T>)
    requires x.Valid() && x.shape == [1, 1, 2, 16]
    ensures ForwardAsWritten(x, 4).Some?
    ensures ForwardAsWritten(x, 4).value.shape == [1, 4, 8, 1]
    ensures At(ForwardAsWritten(x, 4).value, [0, 2, 0, 0]) == At(x, [0, 0, 1, 0])
  {
    BatchOfOneSucceeds(x);
    var x2 := BatchOfOneLongSwapAt(x);
    BatchOfOneLongFirstAt(x2);
    var x3 := SqueezeStage(x2, 1).value;
    BatchOfOneLongSecondAt(x3);
    var x4 := SqueezeStage(x3, 2).value;
    var y := ForwardAsWritten(x, 4).value;
    assert y == Reshape(x4, [1, 4, 8, 1]);
    assert Flat([1, 4, 8, 1], [0, 2, 0, 0]) == 16 by { FlatOutput(); }
    assert Flat([2, 2, 8], [1, 0, 0]) == 16 by {
      assert [2, 2, 8][1..] == [2, 8] && [2, 8][1..] == [8] && [8][1..] == [];
      assert [1, 0, 0][1..] == [0, 0] && [0, 0][1..] == [0] && [0][1..] == [];
    }
  }

  /** The reshape and axis swap at the head of the pass as written, on that
      input, leave `X[0, 0, 1, 0]` at `[0, 0, 1, 0, 0]`. */
  lemma {:induction false} BatchOfOneLongSwapAt<T>(x: Tensor<T>) returns (x2: Tensor<T>)
    requires x.Valid() && x.shape == [1, 1, 2, 16]
    ensures Prod(x.shape[..3] + [4, 4]) == |x.data|
    ensures x2 == SwapLastAxes(Reshape(x, x.shape[..3] + [4, 4]))
    ensures x2.shape == [1, 1, 2, 4, 4]
    ensures At(x2, [0, 0, 1, 0, 0]) == At(x, [0, 0, 1, 0])
  {
    SwappedChannelsAt(x, 4, 0, 0, 1, 0, 0);
    assert x.shape[..3] + [4, 4] == [1, 1, 2, 4, 4];
    var x1 := Reshape(x, [1, 1, 2, 4, 4]);
    x2 := SwapLastAxes(x1);
    assert [0, 0, 1] + [0, 0] == [0, 0, 1, 0, 0];
    SwapLastAxesAt(x1, [0, 0, 1], 0, 0);
    FlatLong();
    FlatInput();
  }

  /** The row-major offset of `[0, 0, 1, 0, 0]` in a `(1, 1, 2, 4, 4)` array. */
  lemma {:induction false} FlatLong()
    ensures Flat([1, 1, 2, 4, 4], [0, 0, 1, 0, 0]) == 16
  {
    assert [1, 1, 2, 4, 4][1..] == [1, 2, 4, 4] && [1, 2, 4, 4][1..] == [2, 4, 4];
    assert [2, 4, 4][1..] == [4, 4] && [4, 4][1..] == [4] && [4][1..] == [];
    assert [0, 0, 1, 0, 0][1..] == [0, 1, 0, 0] && [0, 1, 0, 0][1..] == [1, 0, 0];
    assert [1, 0, 0][1..] == [0, 0] && [0, 0][1..] == [0] && [0][1..] == [];
  }

  /** The row-major offset of `[0, 0, 1, 0]` in a `(1, 1, 2, 16)` array. */
  lemma {:induction false} FlatInput()
    ensures Flat([1, 1, 2, 16], [0, 0, 1, 0]) == 16
  {
    assert [1, 1, 2, 16][1..] == [1, 2, 16] && [1, 2, 16][1..] == [2, 16];
    assert [2, 16][1..] == [16] && [16][1..] == [];
    assert [0, 0, 1, 0][1..] == [0, 1, 0] && [0, 1, 0][1..] == [1, 0];
    assert [1, 0][1..] == [0] && [0][1..] == [];
  }

  /** The row-major offset of `[0, 2, 0, 0]` in a `(1, 4, 8, 1)` array. */
  lemma {:induction false} FlatOutput()
    ensures Flat([1, 4, 8, 1], [0, 2, 0, 0]) == 16
  {
    assert [1, 4, 8, 1][1..] == [4, 8, 1] && [4, 8, 1][1..] == [8, 1];
    assert [8, 1][1..] == [1] && [1][1..] == [];
    assert [0, 2, 0, 0][1..] == [2, 0, 0] && [2, 0, 0][1..] == [0, 0];
    assert [0, 0][1..] == [0] && [0][1..] == [];
  }

  /** The row-major offset of `[1, 0, 0]` in a `(2, 4, 4)` array. */
  lemma {:induction false} FlatPiece()
    ensures Flat([2, 4, 4], [1, 0, 0]) == 16
  {
    assert [2, 4, 4][1..] == [4, 4] && [4, 4][1..] == [4] && [4][1..] == [];
    assert [1, 0, 0][1..] == [0, 0] && [0, 0][1..] == [0] && [0][1..] == [];
  }

  /** The first stage on a `(1, 1, 2, 4, 4)` array puts `[0, 0, 1, 0, 0]`
      at `[1, 0, 0]`: the squeeze keeps the buffer of the one piece. */
  lemma {:induction false} BatchOfOneLongFirstAt<T>(x: Tensor<T>)
    requires x.Valid() && x.shape == [1, 1, 2, 4, 4]
    ensures SqueezeStage(x, 1).Some? && SqueezeStage(x, 1).value.shape == [2, 4, 4]
    ensures At(SqueezeStage(x, 1).value, [1, 0, 0]) == At(x, [0, 0, 1, 0, 0])
  {
    BatchOfOneLongFirstStage(x);
    assert x.shape[1 := 1 / 1] == x.shape;
    var ps := Split(x, 1, 1);
    var qs := SqueezeAll(ps);
    assert qs[0].shape == [2, 4, 4] && qs[0].data == ps[0].data;
    assert [1, 0] + [0] + [] == [1, 0, 0];
    ConcatenateAt(qs, 2, 0, [1, 0], 0, [], 0);
    assert At(qs[0], [1, 0, 0]) == At(ps[0], [0, 0, 1, 0, 0]) by {
      FlatPiece();
      FlatLong();
    }
    assert [0] + [0] + [1, 0, 0] == [0, 0, 1, 0, 0];
    SplitAt(x, 1, 1, 0, [0], 0, [1, 0, 0], 0);
  }

  /** The second stage on a `(2, 4, 4)` array keeps `[1, 0, 0]` in place:
      it is in the first of the two `(2, 2, 4)` pieces, which `squeeze`
      leaves whole. */
  lemma {:induction false} BatchOfOneLongSecondAt<T>(x: Tensor<T>)
    requires x.Valid() && x.shape == [2, 4, 4]
    ensures SqueezeStage(x, 2).Some? && SqueezeStage(x, 2).value.shape == [2, 2, 8]
    ensures At(SqueezeStage(x, 2).value, [1, 0, 0]) == At(x, [1, 0, 0])
  {
    BatchOfOneLongSecondStage(x);
    assert x.shape[1 := 4 / 2] == [2, 2, 4];
    var ps := Split(x, 1, 2);
    NoUnitAxis([2, 2, 4]);
    var qs := SqueezeAll(ps);
    assert qs[0] == ps[0];
    assert [1, 0] + [0] + [] == [1, 0, 0];
    ConcatenateAt(qs, 2, 0, [1, 0], 0, [], 0);
    assert [1] + [0] + [0] == [1, 0, 0];
    SplitAt(x, 1, 2, 0, [1], 0, [0], 0);
  }

  /** Squeezing a `(B, 1, b, 1, 1)` piece leaves at most two axes. */
  lemma {:induction false} UnitScalePieceAxes(B: nat, b: nat)
    ensures |DropUnitAxes([B, 1, b, 1, 1])| <= 2
  {
    assert [B, 1, b, 1, 1][1..] == [1, b, 1, 1] && [1, b, 1, 1][1..] == [b, 1, 1];
    assert [b, 1, 1][1..] == [1, 1] && [1, 1][1..] == [1] && [1][1..] == [];
    assert DropUnitAxes([1]) == [];
    assert DropUnitAxes([1, 1]) == [];
    assert |DropUnitAxes([b, 1, 1])| <= 1;
  }

  /** With `r = 1` the forward pass as written raises on every input. The
      first stage's pieces have shape `(B, 1, b, 1, 1)` and squeeze to at
      most two axes, so `concatenate(..., 2)` names an axis they lack
      (unless the reshape or the split has already raised). */
  lemma {:induction false} UnitScaleRaises<T>(x: Tensor<T>)
    requires x.Valid() && |x.shape| == 4
    ensures ForwardAsWritten(x, 1) == None
  {
    var s := x.shape;
    var B, a, b := s[0], s[1], s[2];
    if Prod(s[..3] + [1, 1]) == |x.data| && a > 0 {
      assert s[..3] + [1, 1] == [B, a, b, 1, 1];
      var x2 := SwapLastAxes(Reshape(x, [B, a, b, 1, 1]));
      assert x2.shape == [B, a, b, 1, 1];
      SelfDivides(a);
      var ps := Split(x2, 1, a);
      assert ps[0].shape == [B, 1, b, 1, 1];
      UnitScalePieceAxes(B, b);
      assert !Uniform(SqueezeAll(ps), 2);
    }
  }

  /** The first stage with a width of 1: the pieces are `(B, 1, 1, r, r)`
      and numpy's `squeeze` drops the width axis along with the split one,
      leaving equally-shaped `(B, r, r)` pieces, so the stage succeeds. */
  lemma {:induction false} WidthOneRows<T>(x: Tensor<T>)
    requires x.Valid() && |x.shape| == 5 && x.shape[1] > 0 && x.shape[2] == 1
    requires x.shape[0] > 1 && x.shape[3] > 1 && x.shape[4] == x.shape[3]
    ensures x.shape[1] % x.shape[1] == 0
    ensures Uniform(SqueezeAll(Split(x, 1, x.shape[1])), 2)
    ensures SqueezeAll(Split(x, 1, x.shape[1]))[0].shape == [x.shape[0], x.shape[3], x.shape[3]]
    ensures SqueezeStage(x, x.shape[1]) == Some(Concatenate(SqueezeAll(Split(x, 1, x.shape[1])), 2))
  {
    var s := x.shape;
    var B, a, r := s[0], s[1], s[3];
    SelfDivides(a);
    var piece := [B, 1, 1, r, r];
    assert s[1 := a / a] == piece;
    assert DropUnitAxes(piece) == [B, r, r] by {
      assert piece[1..] == [1, 1, r, r] && [1, 1, r, r][1..] == [1, r, r] && [1, r, r][1..] == [r, r];
      NoUnitAxis([r, r]);
      assert DropUnitAxes([1, r, r]) == [r, r];
      assert DropUnitAxes([1, 1, r, r]) == [r, r];
      assert DropUnitAxes(piece) == [B] + [r, r];
    }
    var qs := SqueezeAll(Split(x, 1, a));
    assert forall j :: 0 <= j < a ==> qs[j].shape == [B, r, r];
  }

  /** The same stage, element by element: it puts `[n, i, 0, u, v]` at
      `[n, u, i * r + v]`, row `u` of every input row's block side by side. */
  lemma {:induction false} WidthOneRowsAt<T>(x: Tensor<T>, n: nat, i: nat, u: nat, v: nat)
    requires x.Valid() && |x.shape| == 5 && x.shape[1] > 0 && x.shape[2] == 1
    requires x.shape[0] > 1 && x.shape[3] > 1 && x.shape[4] == x.shape[3]
    requires InBounds(x.shape, [n, i, 0, u, v])
    ensures SqueezeStage(x, x.shape[1]).Some?
    ensures SqueezeStage(x, x.shape[1]).value.shape == [x.shape[0], x.shape[3], x.shape[1] * x.shape[3]]
    ensures InBounds(SqueezeStage(x, x.shape[1]).value.shape, [n, u, Offset(i, x.shape[3], v)])
    ensures At(SqueezeStage(x, x.shape[1]).value, [n, u, Offset(i, x.shape[3], v)]) == At(x, [n, i, 0, u, v])
  {
    var s := x.shape;
    var B, a, r := s[0], s[1], s[3];
    WidthOneRows(x);
    var ps := Split(x, 1, a);
    var qs := SqueezeAll(ps);
    var w := Offset(i, r, v);
    assert [n, u] + [v] + [] == [n] + [u, v];
    ConcatenateAt(qs, 2, i, [n, u], v, [], w);
    assert [n, u] + [w] + [] == [n, u, w];
    var once := SqueezeAxis(ps[i], 1);
    assert ps[i].shape == [B, 1, 1, r, r];
    assert once.shape[..1] + once.shape[2..] == [B, r, r];
    assert qs[i] == SqueezeAxis(once, 1);
    SqueezeAxisAt(once, 1, [n], [u, v]);
    assert [n] + [0] + [u, v] == [n] + [0, u, v];
    SqueezeAxisAt(ps[i], 1, [n], [0, u, v]);
    assert [n] + [0] + [0, u, v] == [n, 0, 0, u, v];
    SplitAt(x, 1, a, i, [n], 0, [0, u, v], i);
    assert [n] + [i] + [0, u, v] == [n, i, 0, u, v];
  }

  /** A stage as written on an array of at least three axes without unit
      axes, split into a single slice, gives its input back: the one piece
      is the whole array, `squeeze` drops nothing and one piece
      concatenated is that piece. */
  lemma {:induction false} SingleSliceStage<T>(x: Tensor<T>)
    requires x.Valid() && |x.shape| >= 3
    requires forall k :: 0 <= k < |x.shape| ==> x.shape[k] != 1
    ensures SqueezeStage(x, 1) == Some(x)
  {
    var s := x.shape;
    assert s[1] % 1 == 0 && s[1 := s[1] / 1] == s;
    var ps := Split(x, 1, 1);
    NoUnitAxis(s);
    var qs := SqueezeAll(ps);
    assert qs[0] == ps[0];
    assert Uniform(qs, 2);
    var y := Concatenate(qs, 2);
    assert SqueezeStage(x, 1) == Some(y);
    assert y.shape == s;
    forall idx | InBounds(s, idx)
      ensures At(y, idx) == At(x, idx)
    {
      var n, u, t, rest := idx[0], idx[1], idx[2], idx[3..];
      assert idx == [n] + [u] + ([t] + rest) && idx == [n, u] + [t] + rest;
      ConcatenateAt(qs, 2, 0, [n, u], t, rest, t);
      SplitAt(x, 1, 1, 0, [n], u, [t] + rest, u);
    }
    Extensionality(y, x);
  }

  /** The row-major offsets of `[n, u, i * r + v]` in `(B, r, a * r)` and of
      `[n, u * a + i, v]` in `(B, a * r, r)` coincide. */
  lemma {:induction false} WidthOneOffset(n: nat, a: nat, r: nat, u: nat, i: nat, v: nat)
    ensures (n * r + u) * (a * r) + (i * r + v) == (n * (a * r) + (u * a + i)) * r + v
  {
    calc {
      (n * r + u) * (a * r) + (i * r + v);
      n * r * (a * r) + u * (a * r) + i * r + v;
      { assert n * r * (a * r) == n * (a * r) * r; assert u * (a * r) == u * a * r; }
      n * (a * r) * r + u * a * r + i * r + v;
      (n * (a * r) + (u * a + i)) * r + v;
    }
  }

  /** Swapping the last two factors of a product. */
  lemma {:induction false} Commute(p: nat, q: nat, t: nat)
    ensures p * q * t == p * t * q
  {
  }

  /** The final reshape in the width-1 case: element `[n, u, i * r + v]` of
      the `(B, r, a * r)` array is element `[n, u * a + i, v, 0]` of the
      `(B, a * r, r, 1)` result. */
  lemma {:induction false} WidthOneReshapeAt<T>(x: Tensor<T>, a: nat, r: nat, n: nat, i: nat, u: nat, v: nat)
    requires x.Valid() && |x.shape| == 3 && x.shape[1] == r && x.shape[2] == a * r
    requires n < x.shape[0] && i < a && u < r && v < r
    ensures Prod([x.shape[0], a * r, r, 1]) == |x.data|
    ensures InBounds(x.shape, [n, u, Offset(i, r, v)])
    ensures InBounds([x.shape[0], a * r, r, 1], [n, Offset(u, a, i), v, 0])
    ensures At(Reshape(x, [x.shape[0], a * r, r, 1]), [n, Offset(u, a, i), v, 0]) == At(x, [n, u, Offset(i, r, v)])
  {
    var B, A := x.shape[0], a * r;
    var t, y := Offset(i, r, v), Offset(u, a, i);
    assert t < A by { MulStrict(i, a, r, v); }
    assert y < A by { MulStrict(u, r, a, i); assert r * a == A; }
    assert x.shape == [B] + [r, A];
    LastAxesFlat([B], r, A, [n], u, t);
    LastAxesFlat([B], A, r, [n], y, v);
    assert [B][1..] == [] && [n][1..] == [];
    assert Prod([B]) == B && Flat([B], [n]) == n;
    assert [B] + [A, r] == [B, A, r] && [n] + [y, v] == [n, y, v] && [n] + [u, t] == [n, u, t];
    assert B * r * A == B * A * r by { Commute(B, r, A); }
    WidthOneOffset(n, a, r, u, i, v);
    var z := Reshape(x, [B, A, r]);
    assert InBounds([B, A, r] + [], [n, y, v] + []);
    ReshapeAddUnitAt(z, [B, A, r], [], [n, y, v], []);
    assert [B, A, r] + [1] + [] == [B, A, r, 1];
    assert [n, y, v] + [0] + [] == [n, y, v, 0] && [n, y, v] + [] == [n, y, v];
  }

  /** With a width of 1, a batch above 1 and `r > 1`, the forward pass as
      written runs both stages and the final reshape without raising. */
  lemma {:induction false} WidthOnePipeline<T>(x: Tensor<T>, r: nat)
    requires x.Valid() && |x.shape| == 4 && x.shape[2] == 1 && x.shape[3] == r * r
    requires x.shape[0] > 1 && x.shape[1] > 0 && r > 1
    ensures Prod(x.shape[..3] + [r, r]) == |x.data|
    ensures SqueezeStage(SwapLastAxes(Reshape(x, x.shape[..3] + [r, r])), x.shape[1]).Some?
    ensures SqueezeStage(SwapLastAxes(Reshape(x, x.shape[..3] + [r, r])), x.shape[1]).value.shape
         == [x.shape[0], r, x.shape[1] * r]
    ensures ForwardAsWritten(x, r)
         == TryReshape(SqueezeStage(SwapLastAxes(Reshape(x, x.shape[..3] + [r, r])), x.shape[1]).value, OutputShape(x.shape, r))
    ensures ForwardAsWritten(x, r).Some? && ForwardAsWritten(x, r).value.shape == OutputShape(x.shape, r)
  {
    var s := x.shape;
    var B, a := s[0], s[1];
    SwappedChannelsAt(x, r, 0, 0, 0, 0, 0);
    var x2 := SwapLastAxes(Reshape(x, s[..3] + [r, r]));
    assert x2.shape == [B, a, 1, r, r];
    WidthOneRows(x2);
    var x3 := SqueezeStage(x2, a).value;
    assert x3.shape == [B, r, a * r];
    assert a * r > 1 by { MulAtLeastOne(a, r); }
    assert forall k :: 0 <= k < |x3.shape| ==> x3.shape[k] != 1;
    SingleSliceStage(x3);
    assert OutputShape(s, r) == [B, a * r, r, 1];
    WidthOneReshapeAt(x3, a, r, 0, 0, 0, 0);
  }

  /** With a width of 1 (and a batch above 1, `r > 1`) the forward pass as
      written succeeds, but channel `v * r + u` of input pixel `(i, 0)`
      lands at output pixel `(u * a + i, v)`, not at `(i * r + u, v)` as in
      `ForwardAt`. The two agree only when `a = 1`. */
  lemma {:induction false} WidthOneAt<T>(x: Tensor<T>, r: nat, n: nat, i: nat, u: nat, v: nat)
    requires x.Valid() && |x.shape| == 4 && x.shape[2] == 1 && x.shape[3] == r * r
    requires x.shape[0] > 1 && x.shape[1] > 0 && r > 1
    requires n < x.shape[0] && i < x.shape[1] && u < r && v < r
    ensures ForwardAsWritten(x, r).Some?
    ensures ForwardAsWritten(x, r).value.shape == OutputShape(x.shape, r)
    ensures InBounds(x.shape, [n, i, 0, Offset(v, r, u)])
    ensures InBounds(OutputShape(x.shape, r), [n, Offset(u, x.shape[1], i), v, 0])
    ensures At(ForwardAsWritten(x, r).value, [n, Offset(u, x.shape[1], i), v, 0]) == At(x, [n, i, 0, Offset(v, r, u)])
  {
    var s := x.shape;
    var B, a := s[0], s[1];
    SwappedChannelsAt(x, r, n, i, 0, u, v);
    var x2 := SwapLastAxes(Reshape(x, s[..3] + [r, r]));
    assert x2.shape == [B, a, 1, r, r];
    WidthOneRowsAt(x2, n, i, u, v);
    var x3 := SqueezeStage(x2, a).value;
    WidthOnePipeline(x, r);
    assert OutputShape(s, r) == [B, a * r, r, 1];
    WidthOneReshapeAt(x3, a, r, n, i, u, v);
    assert ForwardAsWritten(x, r).value == Reshape(x3, [B, a * r, r, 1]);
    assert Offset(v, r, u) == v * r + u;
  }

  /** A `(2, 2, 1, 4)` input with `r = 2` whose channel 1 of pixel `(0, 0)`
      differs from channel 0 of pixel `(1, 0)` (the values 0 to 15, say):
      the forward pass as written returns an array of the right shape whose
      element `[0, 1, 0, 0]` is the latter where `Forward` holds the former. */
  lemma {:induction false} WidthOneMisplaces<T>(x: Tensor<T>)
    requires x.Valid() && x.shape == [2, 2, 1, 4]
    requires At(x, [0, 0, 0, 1]) != At(x, [0, 1, 0, 0])
    ensures ForwardAsWritten(x, 2).Some?
    ensures ForwardAsWritten(x, 2).value.shape == Forward(x, 2).shape
    ensures ForwardAsWritten(x, 2).value != Forward(x, 2)
  {
    WidthOneAt(x, 2, 0, 1, 0, 0);
    ForwardAt(x, 2, 0, 0, 0, 1, 0);
    assert Offset(0, 2, 1) == 1 && Offset(0, 2, 0) == 0;
    assert At(ForwardAsWritten(x, 2).value, [0, 1, 0, 0]) == At(x, [0, 1, 0, 0]);
    assert At(Forward(x, 2), [0, 1, 0, 0]) == At(x, [0, 0, 0, 1]);
  }
}
