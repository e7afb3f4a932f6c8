// Space2Depth.forward: a (B, a, b, 1) array becomes a (B, a/r, b/r, r*r)
// array whose every pixel holds, as channels, one r x r block of input pixels.

module Space2Depth {
  import opened Shape
  import opened Ndarray

  // ---------------------------------------------------------------------
  // The split / expand_dims / concatenate stage, used twice by the pipeline.

  /** `[expand_dims(p, 1) for p in split(x, m, 2)]`: the `m` sections of
      `x` along axis 2, in order, each given a new unit axis 1. */
  function Sections<T>(x: Tensor<T>, m: nat): (ps: seq<Tensor<T>>)
    requires x.Valid() && |x.shape| >= 3 && m > 0 && x.shape[2] % m == 0
    ensures |ps| == m
    ensures forall p :: 0 <= p < m ==>
      ps[p].Valid() && ps[p].shape == [x.shape[0], 1, x.shape[1], x.shape[2] / m] + x.shape[3..]
  {
    var parts := Split(x, 2, m);
    seq(m, p requires 0 <= p < m => ExpandDims(parts[p], 1))
  }

  /** The `m` sections of `x` along axis 2 stacked along a new axis 1. */
  function StackSections<T>(x: Tensor<T>, m: nat): (y: Tensor<T>)
    requires x.Valid() && |x.shape| >= 3 && m > 0 && x.shape[2] % m == 0
    ensures y.Valid() && y.shape == [x.shape[0], m, x.shape[1], x.shape[2] / m] + x.shape[3..]
  {
    var ps := Sections(x, m);
    assert ps[0].shape[1 := m * 1] == [x.shape[0], m, x.shape[1], x.shape[2] / m] + x.shape[3..];
    Concatenate(ps, 1)
  }

  /** Element `[n, 0, i, e, ..]` of section `p` is element `[n, i, w, ..]`
      of `x`, `w` being `p * c + e` for the section length `c`. */
  lemma {:induction false} SectionsAt<T>(x: Tensor<T>, m: nat, n: nat, p: nat, i: nat, e: nat, rest: seq<nat>, w: nat)
    requires x.Valid() && |x.shape| >= 3 && m > 0 && x.shape[2] % m == 0 && p < m
    requires InBounds([x.shape[0], x.shape[1], x.shape[2] / m] + x.shape[3..], [n, i, e] + rest)
    requires w == p * (x.shape[2] / m) + e
    ensures InBounds(Sections(x, m)[p].shape, [n, 0, i, e] + rest)
    ensures InBounds(x.shape, [n, i, w] + rest)
    ensures At(Sections(x, m)[p], [n, 0, i, e] + rest) == At(x, [n, i, w] + rest)
  {
    var s, c := x.shape, x.shape[2] / m;
    var part := Split(x, 2, m)[p];
    assert part.shape == s[2 := c];
    assert s[2 := c] == [s[0], s[1], c] + s[3..];
    assert Sections(x, m)[p] == ExpandDims(part, 1);
    assert [n, i, e] + rest == [n] + ([i, e] + rest);
    ExpandDimsAt(part, 1, [n], [i, e] + rest);
    assert [n] + [0] + ([i, e] + rest) == [n, 0, i, e] + rest;
    assert [n, i, e] + rest == [n, i] + [e] + rest;
    SplitAt(x, 2, m, p, [n, i], e, rest, w);
    assert [n, i] + [w] + rest == [n, i, w] + rest;
  }

  /** Element `[n, p, i, e, ..]` of the stacked array is element
      `[n, i, w, ..]` of `x`, `w` being `p * c + e` for the section length `c`. */
  lemma {:induction false} StackSectionsAt<T>(x: Tensor<T>, m: nat, n: nat, p: nat, i: nat, e: nat, rest: seq<nat>, w: nat)
    requires x.Valid() && |x.shape| >= 3 && m > 0 && x.shape[2] % m == 0
    requires InBounds(StackSections(x, m).shape, [n, p, i, e] + rest)
    requires w == p * (x.shape[2] / m) + e
    ensures InBounds(x.shape, [n, i, w] + rest)
    ensures At(StackSections(x, m), [n, p, i, e] + rest) == At(x, [n, i, w] + rest)
  {
    var ps := Sections(x, m);
    StackedBounds(x.shape, m, n, p, i, e, rest);
    SectionsAt(x, m, n, p, i, e, rest, w);
    PieceAt(ps, n, p, [i, e] + rest);
    assert [n, p] + ([i, e] + rest) == [n, p, i, e] + rest;
    assert [n, 0] + ([i, e] + rest) == [n, 0, i, e] + rest;
  }

  /** An index of the stacked shape names a section `p < m` and an index
      `[n, i, e, ..]` within it. */
  lemma {:induction false} StackedBounds(s: seq<nat>, m: nat, n: nat, p: nat, i: nat, e: nat, rest: seq<nat>)
    requires |s| >= 3 && m > 0
    requires InBounds([s[0], m, s[1], s[2] / m] + s[3..], [n, p, i, e] + rest)
    ensures p < m && InBounds([s[0], s[1], s[2] / m] + s[3..], [n, i, e] + rest)
  {
    var c := s[2] / m;
    var tail := [s[1], c] + s[3..];
    assert [s[0], m, s[1], c] + s[3..] == [s[0]] + [m] + tail;
    assert [n, p, i, e] + rest == [n] + [p] + ([i, e] + rest);
    AxisBounds([s[0]], m, tail, [n], p, [i, e] + rest);
    InBoundsAppend([s[0]], tail, [n], [i, e] + rest);
    assert [s[0]] + tail == [s[0], s[1], c] + s[3..];
    assert [n] + ([i, e] + rest) == [n, i, e] + rest;
  }

  /** Element `[n, 0, ..]` of piece `p` is element `[n, p, ..]` of the pieces
      concatenated along axis 1, the pieces having a unit axis 1. */
  lemma {:induction false} PieceAt<T>(ps: seq<Tensor<T>>, n: nat, p: nat, idx: seq<nat>)
    requires Uniform(ps, 1) && ps[0].shape[1] == 1 && p < |ps|
    requires InBounds(ps[0].shape, [n, 0] + idx)
    ensures InBounds(Concatenate(ps, 1).shape, [n, p] + idx)
    ensures At(Concatenate(ps, 1), [n, p] + idx) == At(ps[p], [n, 0] + idx)
  {
    var s := ps[0].shape;
    assert s == [s[0]] + [1] + s[2..];
    assert [n, 0] + idx == [n] + [0] + idx;
    AxisBounds([s[0]], 1, s[2..], [n], 0, idx);
    ConcatenateAt(ps, 1, p, [n], 0, idx, p);
    assert [n] + [p] + idx == [n, p] + idx;
  }

  // ---------------------------------------------------------------------
  // The forward pass.

  /** The two stacking stages on a `(B, a, b)` array: first the `b / r`
      column sections, then the `a / r` row sections, which leaves every
      `r x r` block of pixels as the two last axes. */
  function Blocks<T>(x: Tensor<T>, r: nat): (y: Tensor<T>)
    requires x.Valid() && |x.shape| == 3 && r > 0
    requires x.shape[1] > 0 && x.shape[2] > 0 && x.shape[1] % r == 0 && x.shape[2] % r == 0
    ensures y.Valid() && y.shape == [x.shape[0], x.shape[1] / r, x.shape[2] / r, r, r]
  {
    var a, b := x.shape[1], x.shape[2];
    Cofactor(a, r);
    Cofactor(b, r);
    var x2 := StackSections(x, b / r);
    assert x2.shape == [x.shape[0], b / r, a, r];
    StackSections(x2, a / r)
  }

  /** `Space2Depth(r).forward`: drop the unit channel axis, stack the
      column sections and then the row sections, swap the two block axes
      and flatten each `r x r` block into the channel axis. */
  function Forward<T>(x: Tensor<T>, r: nat): (y: Tensor<T>)
    requires x.Valid() && |x.shape| == 4 && x.shape[3] == 1 && r > 0
    requires x.shape[1] > 0 && x.shape[2] > 0 && x.shape[1] % r == 0 && x.shape[2] % r == 0
    ensures y.Valid() && y.shape == OutputShape(x.shape, r)
    ensures y.shape[1] * r == x.shape[1] && y.shape[2] * r == x.shape[2]
    ensures y.shape[1] > 0 && y.shape[2] > 0
  {
    DivMod(x.shape[1], r);
    DivMod(x.shape[2], r);
    Cofactor(x.shape[1], r);
    Cofactor(x.shape[2], r);
    var x3 := Blocks(DropChannel(x), r);
    assert x3.shape[..3] + [r * r] == OutputShape(x.shape, r);
    BlockChannels(x3, r)
  }

  /** `reshape(X, (B, a, b))`: the unit channel axis dropped. */
  function DropChannel<T>(x: Tensor<T>): (y: Tensor<T>)
    requires x.Valid() && |x.shape| == 4 && x.shape[3] == 1
    ensures y.Valid() && y.shape == x.shape[..3]
  {
    var s, pre := x.shape, x.shape[..3];
    UnitAxis(pre, [], [0, 0, 0], []);
    assert s == pre + [1] + [] && pre + [] == pre;
    Reshape(x, pre)
  }

  /** `reshape(transpose(X, (0, 1, 2, 4, 3)), (B, a / r, b / r, r * r))`:
      the two block axes swapped and flattened into one channel axis. */
  function BlockChannels<T>(x: Tensor<T>, r: nat): (y: Tensor<T>)
    requires x.Valid() && |x.shape| == 5 && x.shape[3] == r && x.shape[4] == r
    ensures y.Valid() && y.shape == Merged(x.shape[..3], r)
  {
    var pre := x.shape[..3];
    SplitLastAxis(pre, [0, 0, 0], r, r, 0, 0);
    assert x.shape == pre + [r, r];
    Reshape(SwapLastAxes(x), Merged(pre, r))
  }

  /** The shape `(B, a / r, b / r, r * r)` the forward pass reshapes its result to. */
  function OutputShape(s: seq<nat>, r: nat): seq<nat>
    requires |s| == 4 && r > 0
  {
    [s[0], s[1] / r, s[2] / r, r * r]
  }

  /** `pre` followed by one axis of length `r * r`. */
  function Merged(pre: seq<nat>, r: nat): seq<nat>
  {
    pre + [r * r]
  }

  /** The column stage, with `w` sections of length `r`: element
      `[n, k, y, v]` of the stacked array is pixel `(y, z)` of `x`, `z`
      being `k * r + v`. */
  lemma {:induction false} ColumnsStackedAt<T>(x: Tensor<T>, r: nat, w: nat, n: nat, k: nat, y: nat, v: nat, z: nat)
    requires x.Valid() && |x.shape| == 3 && w > 0 && x.shape[2] % w == 0 && x.shape[2] / w == r
    requires n < x.shape[0] && y < x.shape[1] && k < w && v < r && z == k * r + v
    ensures InBounds(x.shape, [n, y, z])
    ensures At(StackSections(x, w), [n, k, y, v]) == At(x, [n, y, z])
  {
    var s := x.shape;
    assert StackSections(x, w).shape == [s[0], w, s[1], r];
    assert [n, k, y, v] == [n, k, y, v] + [];
    StackSectionsAt(x, w, n, k, y, v, [], z);
    assert [n, y, z] + [] == [n, y, z];
  }

  /** The row stage, with `q` sections of length `r`: element
      `[n, m, k, u, v]` of the stacked array is element `[n, k, y, v]` of
      `x`, `y` being `m * r + u`. */
  lemma {:induction false} RowsStackedAt<T>(x: Tensor<T>, r: nat, q: nat, n: nat, m: nat, k: nat, u: nat, v: nat, y: nat)
    requires x.Valid() && |x.shape| == 4 && q > 0 && x.shape[2] % q == 0 && x.shape[2] / q == r && x.shape[3] == r
    requires n < x.shape[0] && m < q && k < x.shape[1] && u < r && v < r && y == m * r + u
    ensures InBounds(x.shape, [n, k, y, v])
    ensures At(StackSections(x, q), [n, m, k, u, v]) == At(x, [n, k, y, v])
  {
    var s := x.shape;
    assert StackSections(x, q).shape == [s[0], q, s[1], r] + [r];
    assert [n, m, k, u, v] == [n, m, k, u] + [v];
    StackSectionsAt(x, q, n, m, k, u, [v], y);
    assert [n, k, y] + [v] == [n, k, y, v];
  }

  /** Element `[n, m, k, u, v]` of the blocks is pixel `(y, z)` of `x`, `y`
      being `m * r + u` and `z` being `k * r + v`. */
  lemma {:induction false} BlocksAt<T>(x: Tensor<T>, r: nat, n: nat, m: nat, k: nat, u: nat, v: nat, y: nat, z: nat)
    requires x.Valid() && |x.shape| == 3 && r > 0
    requires x.shape[1] > 0 && x.shape[2] > 0 && x.shape[1] % r == 0 && x.shape[2] % r == 0
    requires n < x.shape[0] && m < x.shape[1] / r && k < x.shape[2] / r && u < r && v < r
    requires y == m * r + u && z == k * r + v
    ensures InBounds(x.shape, [n, y, z])
    ensures At(Blocks(x, r), [n, m, k, u, v]) == At(x, [n, y, z])
  {
    var s := x.shape;
    var q, w := s[1] / r, s[2] / r;
    assert y < s[1] by {
      MulStrict(m, q, r, u);
      DivMod(s[1], r);
    }
    Cofactor(s[1], r);
    Cofactor(s[2], r);
    ColumnsStackedAt(x, r, w, n, k, y, v, z);
    var x2 := StackSections(x, w);
    assert x2.shape == [s[0], w, s[1], r];
    RowsStackedAt(x2, r, q, n, m, k, u, v, y);
  }

  /** The final swap and reshape: element `[n, m, k, u, v]` of the blocks
      becomes channel `v * r + u` of output pixel `(m, k)`. */
  lemma {:induction false} BlockChannelsAt<T>(x: Tensor<T>, r: nat, n: nat, m: nat, k: nat, u: nat, v: nat)
    requires x.Valid() && |x.shape| == 5 && x.shape[3] == r && x.shape[4] == r
    requires n < x.shape[0] && m < x.shape[1] && k < x.shape[2] && u < r && v < r
    ensures InBounds(BlockChannels(x, r).shape, [n, m, k, Offset(v, r, u)])
    ensures At(BlockChannels(x, r), [n, m, k, Offset(v, r, u)]) == At(x, [n, m, k, u, v])
  {
    var pre := x.shape[..3];
    assert x.shape == pre + [r, r];
    assert InBounds(pre + [r, r], [n, m, k] + [u, v]) by {
      InBoundsAppend(pre, [r, r], [n, m, k], [u, v]);
      assert InBounds([r, r], [u, v]);
    }
    SwapLastAxesAt(x, [n, m, k], u, v);
    var x4 := SwapLastAxes(x);
    assert x4.shape == pre + [r, r];
    ReshapeMergeLastAt(x4, pre, r, r, [n, m, k], v, u);
    assert [n, m, k] + [u, v] == [n, m, k, u, v];
    assert [n, m, k] + [v * r + u] == [n, m, k, Offset(v, r, u)];
  }

  /** Dropping the unit channel axis: pixel `(y, z)` of the `(B, a, b)`
      array is element `[n, y, z, 0]` of `x`. */
  lemma {:induction false} UnitChannelAt<T>(x: Tensor<T>, n: nat, y: nat, z: nat)
    requires x.Valid() && |x.shape| == 4 && x.shape[3] == 1
    requires n < x.shape[0] && y < x.shape[1] && z < x.shape[2]
    ensures InBounds(x.shape, [n, y, z, 0])
    ensures At(DropChannel(x), [n, y, z]) == At(x, [n, y, z, 0])
  {
    var s, pre := x.shape, x.shape[..3];
    assert s == pre + [1] + [] && pre + [] == pre;
    assert InBounds(pre + [], [n, y, z] + []);
    ReshapeDropUnitAt(x, pre, [], [n, y, z], []);
    assert [n, y, z] + [0] + [] == [n, y, z, 0] && [n, y, z] + [] == [n, y, z];
  }

  /** The closed form of the forward pass: input pixel `(m * r + u, k * r + v)`
      lands in channel `v * r + u` of output pixel `(m, k)`. */
  lemma {:induction false} ForwardAt<T>(x: Tensor<T>, r: nat, n: nat, m: nat, k: nat, u: nat, v: nat)
    requires x.Valid() && |x.shape| == 4 && x.shape[3] == 1 && r > 0
    requires x.shape[1] > 0 && x.shape[2] > 0 && x.shape[1] % r == 0 && x.shape[2] % r == 0
    requires n < x.shape[0] && m < x.shape[1] / r && k < x.shape[2] / r && u < r && v < r
    ensures InBounds(x.shape, [n, Offset(m, r, u), Offset(k, r, v), 0])
    ensures InBounds(Forward(x, r).shape, [n, m, k, Offset(v, r, u)])
    ensures At(Forward(x, r), [n, m, k, Offset(v, r, u)]) == At(x, [n, Offset(m, r, u), Offset(k, r, v), 0])
  {
    PixelAt(x, r, n, m, k, u, v, Offset(m, r, u), Offset(k, r, v));
  }

  /** `ForwardAt` with the input pixel `(y, z)` named. */
  lemma {:induction false} PixelAt<T>(x: Tensor<T>, r: nat, n: nat, m: nat, k: nat, u: nat, v: nat, y: nat, z: nat)
    requires x.Valid() && |x.shape| == 4 && x.shape[3] == 1 && r > 0
    requires x.shape[1] > 0 && x.shape[2] > 0 && x.shape[1] % r == 0 && x.shape[2] % r == 0
    requires n < x.shape[0] && m < x.shape[1] / r && k < x.shape[2] / r && u < r && v < r
    requires y == m * r + u && z == k * r + v
    ensures InBounds(x.shape, [n, y, z, 0])
    ensures InBounds(Forward(x, r).shape, [n, m, k, Offset(v, r, u)])
    ensures At(Forward(x, r), [n, m, k, Offset(v, r, u)]) == At(x, [n, y, z, 0])
  {
    var s := x.shape;
    assert y < s[1] && z < s[2] by {
      MulStrict(m, s[1] / r, r, u);
      DivMod(s[1], r);
      MulStrict(k, s[2] / r, r, v);
      DivMod(s[2], r);
    }
    UnitChannelAt(x, n, y, z);
    var x1 := DropChannel(x);
    BlocksAt(x1, r, n, m, k, u, v, y, z);
    var x3 := Blocks(x1, r);
    BlockChannelsAt(x3, r, n, m, k, u, v);
  }

  /** The input position the forward pass reads output position `idx`
      from: the inverse of the closed form. */
  function SourceIndex(idx: seq<nat>, r: nat): seq<nat>
    requires r > 0
  {
    if |idx| == 4 then [idx[0], idx[1] * r + idx[3] % r, idx[2] * r + idx[3] / r, 0] else idx
  }

  /** Reading the forward pass's output at `idx` reads the input at
      `SourceIndex(idx, r)`. */
  lemma {:induction false} ForwardReads<T>(x: Tensor<T>, r: nat, idx: seq<nat>)
    requires x.Valid() && |x.shape| == 4 && x.shape[3] == 1 && r > 0
    requires x.shape[1] > 0 && x.shape[2] > 0 && x.shape[1] % r == 0 && x.shape[2] % r == 0
    requires InBounds(Forward(x, r).shape, idx)
    ensures InBounds(x.shape, SourceIndex(idx, r))
    ensures At(Forward(x, r), idx) == At(x, SourceIndex(idx, r))
  {
    var n, m, k, ch := idx[0], idx[1], idx[2], idx[3];
    assert m < x.shape[1] / r && k < x.shape[2] / r && ch < r * r;
    var v, u := ChannelParts(ch, r);
    ForwardAt(x, r, n, m, k, u, v);
    assert idx == [n, m, k, v * r + u];
  }

  /** A channel of an `r * r` block is `v * r + u` for its quotient `v`
      and remainder `u` by `r`, both below `r`. */
  lemma {:induction false} ChannelParts(ch: nat, r: nat) returns (v: nat, u: nat)
    requires r > 0 && ch < r * r
    ensures v == ch / r && u == ch % r
    ensures ch == v * r + u && v < r && u < r
  {
    DivMod(ch, r);
    DivBelow(ch, r, r);
    v, u := ch / r, ch % r;
  }

  /** A position `y` along an axis of length `d`, a multiple of `r`, is
      offset `u` in block `m` of the `d / r` blocks of length `r`. */
  lemma {:induction false} PositionParts(y: nat, r: nat, d: nat) returns (m: nat, u: nat)
    requires r > 0 && d % r == 0 && y < d
    ensures y == m * r + u && m < d / r && u < r
  {
    DivMod(y, r);
    DivMod(d, r);
    m, u := y / r, y % r;
    DivBelow(y, r, d / r);
  }

  /** Position `m * r + u` with `u < r` determines `m` and `u`. */
  lemma {:induction false} PositionUnique(m1: nat, u1: nat, m2: nat, u2: nat, r: nat)
    requires u1 < r && u2 < r && m1 * r + u1 == m2 * r + u2
    ensures m1 == m2 && u1 == u2
  {
    DivModUnique(m1 * r + u1, m1, r, u1);
    DivModUnique(m2 * r + u2, m2, r, u2);
  }

  /** No two output positions are read from the same input position. */
  lemma {:induction false} SourceIndexInjective(s: seq<nat>, r: nat, i1: seq<nat>, i2: seq<nat>)
    requires r > 0 && |s| == 4 && s[3] == r * r
    requires InBounds(s, i1) && InBounds(s, i2) && SourceIndex(i1, r) == SourceIndex(i2, r)
    ensures i1 == i2
  {
    var v1, u1 := ChannelParts(i1[3], r);
    var v2, u2 := ChannelParts(i2[3], r);
    assert i1[1] * r + u1 == i2[1] * r + u2 && i1[2] * r + v1 == i2[2] * r + v2 by {
      assert SourceIndex(i1, r)[1] == SourceIndex(i2, r)[1];
      assert SourceIndex(i1, r)[2] == SourceIndex(i2, r)[2];
    }
    PositionUnique(i1[1], u1, i2[1], u2, r);
    PositionUnique(i1[2], v1, i2[2], v2, r);
    assert i1[0] == SourceIndex(i1, r)[0] == SourceIndex(i2, r)[0] == i2[0];
  }

  /** The forward pass moves every input element to exactly one output
      position: the output is a permutation of the input. */
  lemma {:induction false} ForwardPermutes<T>(x: Tensor<T>, r: nat)
    requires x.Valid() && |x.shape| == 4 && x.shape[3] == 1 && r > 0
    requires x.shape[1] > 0 && x.shape[2] > 0 && x.shape[1] % r == 0 && x.shape[2] % r == 0
    ensures |Forward(x, r).data| == |x.data|
    ensures multiset(Forward(x, r).data) == multiset(x.data)
  {
    var y := Forward(x, r);
    var s := x.shape;
    var q, w := s[1] / r, s[2] / r;
    assert q * r == s[1] && w * r == s[2] by { DivMod(s[1], r); DivMod(s[2], r); }
    assert s == [s[0], q * r, w * r, 1];
    BlockSize(s[0], q, w, r);
    assert y.shape == [s[0], q, w, r * r];
    var g := (idx: seq<nat>) => if r > 0 then SourceIndex(idx, r) else idx;
    forall idx | InBounds(y.shape, idx)
      ensures InBounds(x.shape, g(idx)) && At(y, idx) == At(x, g(idx))
    {
      ForwardReads(x, r, idx);
    }
    forall i1, i2 | InBounds(y.shape, i1) && InBounds(y.shape, i2) && g(i1) == g(i2)
      ensures i1 == i2
    {
      SourceIndexInjective(y.shape, r, i1, i2);
    }
    ReadsPermute(x, y, g);
  }

  /** With `r = 1` the forward pass changes nothing. */
  lemma {:induction false} ForwardIdentity<T>(x: Tensor<T>)
    requires x.Valid() && |x.shape| == 4 && x.shape[3] == 1
    requires x.shape[1] > 0 && x.shape[2] > 0
    ensures Forward(x, 1) == x
  {
    var y := Forward(x, 1);
    assert y.shape == x.shape;
    forall idx | InBounds(x.shape, idx)
      ensures At(y, idx) == At(x, idx)
    {
      var n, i, j := idx[0], idx[1], idx[2];
      assert idx == [n, i, j, 0];
      ForwardAt(x, 1, n, i, j, 0, 0);
      assert i * 1 + 0 == i && j * 1 + 0 == j && 0 * 1 + 0 == 0;
    }
    Extensionality(y, x);
  }
}
