// The user-facing functions `depth2space` and `space2depth`: cut the
// channel axis into groups, apply the transform to each group and lay the
// results side by side along the channel axis, in order.

module Wrappers {
  import opened Shape
  import opened Ndarray
  import Depth2Space
  import Space2Depth

  /** `r * r` is positive, and a positive multiple `c` of it splits into
      `c / (r * r)` groups of `r * r` channels. */
  lemma {:induction false} GroupCount(c: nat, r: nat)
    requires r > 0 && c > 0 && c % (r * r) == 0
    ensures r * r > 0 && c / (r * r) > 0
    ensures c % (c / (r * r)) == 0 && c / (c / (r * r)) == r * r
  {
    MulAtLeastOne(r, r);
    Cofactor(c, r * r);
  }

  /** The shapes `depth2space` accepts: four axes, positive lengths, and a
      channel count that is a positive multiple of `r * r`. */
  predicate Upscalable(s: seq<nat>, r: nat)
  {
    |s| == 4 && r > 0 && s[1] > 0 && s[2] > 0 && s[3] > 0 && s[3] % (r * r) == 0
  }

  /** The shapes `space2depth` accepts: four axes, positive lengths, and a
      height and width that are multiples of `r`. */
  predicate Downscalable(s: seq<nat>, r: nat)
  {
    |s| == 4 && r > 0 && s[1] > 0 && s[2] > 0 && s[3] > 0 && s[1] % r == 0 && s[2] % r == 0
  }

  /** The shape `depth2space` produces: `r` times the height and width,
      `r * r` times fewer channels. */
  function Upscaled(s: seq<nat>, r: nat): (t: seq<nat>)
    requires Upscalable(s, r)
    ensures Downscalable(t, r) && t[0] == s[0]
    ensures t[1] / r == s[1] && t[2] / r == s[2] && t[3] * (r * r) == s[3]
  {
    GroupCount(s[3], r);
    assert (s[1] * r) / r == s[1] && (s[2] * r) / r == s[2] && (s[1] * r) % r == 0 && (s[2] * r) % r == 0 by {
      ExactMultiple(s[1], r);
      ExactMultiple(s[2], r);
    }
    assert s[1] * r > 0 && s[2] * r > 0 by {
      MulAtLeastOne(s[1], r);
      MulAtLeastOne(s[2], r);
    }
    assert (s[3] / (r * r)) * (r * r) == s[3] by {
      DivMod(s[3], r * r);
    }
    [s[0], s[1] * r, s[2] * r, s[3] / (r * r)]
  }

  /** The shape `space2depth` produces: `r` times smaller height and width,
      `r * r` times as many channels. */
  function Downscaled(s: seq<nat>, r: nat): (t: seq<nat>)
    requires Downscalable(s, r)
    ensures Upscalable(t, r) && t[0] == s[0]
    ensures t[1] * r == s[1] && t[2] * r == s[2] && t[3] / (r * r) == s[3]
  {
    assert (s[1] / r) * r == s[1] && (s[2] / r) * r == s[2] by {
      DivMod(s[1], r);
      DivMod(s[2], r);
    }
    assert s[1] / r > 0 && s[2] / r > 0 by {
      Cofactor(s[1], r);
      Cofactor(s[2], r);
    }
    assert (s[3] * (r * r)) / (r * r) == s[3] && (s[3] * (r * r)) % (r * r) == 0 by {
      MulAtLeastOne(r, r);
      ExactMultiple(s[3], r * r);
    }
    assert s[3] * (r * r) > 0 by {
      MulAtLeastOne(r, r);
      MulAtLeastOne(s[3], r * r);
    }
    [s[0], s[1] / r, s[2] / r, s[3] * (r * r)]
  }

  /** Shrinking an enlarged shape gives the shape back. */
  lemma {:induction false} UpscaledInverse(s: seq<nat>, r: nat)
    requires Upscalable(s, r)
    ensures Downscaled(Upscaled(s, r), r) == s
  {
    var t := Upscaled(s, r);
    assert s == [s[0], s[1], s[2], s[3]];
    assert Downscaled(t, r) == [t[0], t[1] / r, t[2] / r, t[3] * (r * r)];
  }

  /** Enlarging a shrunk shape gives the shape back. */
  lemma {:induction false} DownscaledInverse(s: seq<nat>, r: nat)
    requires Downscalable(s, r)
    ensures Upscaled(Downscaled(s, r), r) == s
  {
    var t := Downscaled(s, r);
    assert s == [s[0], s[1], s[2], s[3]];
    assert Upscaled(t, r) == [t[0], t[1] * r, t[2] * r, t[3] / (r * r)];
  }

  // ---------------------------------------------------------------------
  // depth2space

  /** `[d2s(x) for x in split_axis(X, m, 3)]`: the depth-to-space transform
      of each of the `m` groups of `r * r` channels. */
  function GroupsUpscaled<T>(x: Tensor<T>, r: nat, m: nat): (ys: seq<Tensor<T>>)
    requires x.Valid() && |x.shape| == 4 && x.shape[1] > 0 && x.shape[2] > 0
    requires m > 0 && x.shape[3] % m == 0 && x.shape[3] / m == r * r
    ensures |ys| == m
    ensures forall g :: 0 <= g < m ==>
      ys[g].Valid() && ys[g].shape == [x.shape[0], x.shape[1] * r, x.shape[2] * r, 1]
  {
    var parts := Split(x, 3, m);
    seq(m, g requires 0 <= g < m => Depth2Space.Forward(parts[g], r))
  }

  /** `depth2space(X, r)`: with `c / r²` channel groups, each group is
      transformed on its own and the results are concatenated along the
      channel axis; a single group is transformed directly. */
  function DepthToSpace<T>(x: Tensor<T>, r: nat): (y: Tensor<T>)
    requires x.Valid() && Upscalable(x.shape, r)
    ensures y.Valid() && y.shape == Upscaled(x.shape, r)
  {
    var channel := x.shape[3] / (r * r);
    GroupCount(x.shape[3], r);
    if channel > 1 then
      Concatenate(GroupsUpscaled(x, r, channel), 3)
    else
      Depth2Space.Forward(x, r)
  }

  /** Channel `e` of piece `p` is channel `w = p * d + e` of the pieces
      concatenated along the channel axis, `d` being the pieces' channel count. */
  lemma {:induction false} PlacedAt<T>(ys: seq<Tensor<T>>, p: nat, n: nat, y: nat, z: nat, e: nat, w: nat)
    requires Uniform(ys, 3) && |ys[0].shape| == 4 && p < |ys|
    requires InBounds(ys[0].shape, [n, y, z, e]) && w == p * ys[0].shape[3] + e
    ensures InBounds(Concatenate(ys, 3).shape, [n, y, z, w])
    ensures At(Concatenate(ys, 3), [n, y, z, w]) == At(ys[p], [n, y, z, e])
  {
    assert [n, y, z, e] == [n, y, z] + [e] + [];
    ConcatenateAt(ys, 3, p, [n, y, z], e, [], w);
    assert [n, y, z] + [w] + [] == [n, y, z, w];
  }

  /** Channel `e` of group `g` is channel `g * (r * r) + e` of `x`. */
  lemma {:induction false} GroupChannelAt<T>(x: Tensor<T>, m: nat, g: nat, n: nat, i: nat, j: nat, e: nat, ch: nat)
    requires x.Valid() && |x.shape| == 4 && m > 0 && x.shape[3] % m == 0 && g < m
    requires n < x.shape[0] && i < x.shape[1] && j < x.shape[2] && e < x.shape[3] / m
    requires ch == g * (x.shape[3] / m) + e
    ensures InBounds(x.shape, [n, i, j, ch])
    ensures At(Split(x, 3, m)[g], [n, i, j, e]) == At(x, [n, i, j, ch])
  {
    assert [n, i, j, e] == [n, i, j] + [e] + [];
    SplitAt(x, 3, m, g, [n, i, j], e, [], ch);
    assert [n, i, j] + [ch] + [] == [n, i, j, ch];
  }

  /** The closed form of `depth2space`: channel `v * r + u` of group `g` of
      input pixel `(i, j)`, that is channel `ch`, lands in channel `g` of
      output pixel `(y, z) = (i * r + u, j * r + v)`. */
  lemma {:induction false} DepthToSpaceAt<T>(x: Tensor<T>, r: nat, n: nat, i: nat, j: nat, u: nat, v: nat, g: nat, y: nat, z: nat, ch: nat)
    requires x.Valid() && |x.shape| == 4 && r > 0 && x.shape[1] > 0 && x.shape[2] > 0
    requires x.shape[3] > 0 && x.shape[3] % (r * r) == 0
    requires n < x.shape[0] && i < x.shape[1] && j < x.shape[2] && u < r && v < r && g < x.shape[3] / (r * r)
    requires y == i * r + u && z == j * r + v && ch == g * (r * r) + v * r + u
    ensures InBounds(x.shape, [n, i, j, ch])
    ensures InBounds(DepthToSpace(x, r).shape, [n, y, z, g])
    ensures At(DepthToSpace(x, r), [n, y, z, g]) == At(x, [n, i, j, ch])
  {
    var m := x.shape[3] / (r * r);
    GroupCount(x.shape[3], r);
    if m > 1 {
      GroupUpscaledAt(x, r, m, n, i, j, u, v, g, y, z, Offset(v, r, u), ch);
    } else {
      assert g == 0 && ch == v * r + u;
      Depth2Space.ForwardAt(x, r, n, i, j, u, v);
    }
  }

  /** `DepthToSpaceAt` with more than one group. */
  lemma {:induction false} GroupUpscaledAt<T>(x: Tensor<T>, r: nat, m: nat, n: nat, i: nat, j: nat, u: nat, v: nat, g: nat, y: nat, z: nat, e: nat, ch: nat)
    requires x.Valid() && |x.shape| == 4 && x.shape[1] > 0 && x.shape[2] > 0
    requires m > 0 && x.shape[3] % m == 0 && x.shape[3] / m == r * r
    requires n < x.shape[0] && i < x.shape[1] && j < x.shape[2] && u < r && v < r && g < m
    requires y == i * r + u && z == j * r + v && e == v * r + u && ch == g * (r * r) + e
    ensures InBounds(x.shape, [n, i, j, ch])
    ensures InBounds(Concatenate(GroupsUpscaled(x, r, m), 3).shape, [n, y, z, g])
    ensures At(Concatenate(GroupsUpscaled(x, r, m), 3), [n, y, z, g]) == At(x, [n, i, j, ch])
  {
    var ys := GroupsUpscaled(x, r, m);
    var part := Split(x, 3, m)[g];
    Depth2Space.PixelAt(part, r, n, i, j, u, v, y, z);
    PlacedAt(ys, g, n, y, z, 0, g);
    GroupChannelAt(x, m, g, n, i, j, e, ch);
  }

  // ---------------------------------------------------------------------
  // space2depth

  /** `[s2d(x) for x in split_axis(X, c, 3)]`: the space-to-depth transform
      of each of the `c` single channels. */
  function ChannelsDownscaled<T>(x: Tensor<T>, r: nat): (ys: seq<Tensor<T>>)
    requires x.Valid() && |x.shape| == 4 && r > 0 && x.shape[3] > 0
    requires x.shape[1] > 0 && x.shape[2] > 0 && x.shape[1] % r == 0 && x.shape[2] % r == 0
    ensures |ys| == x.shape[3]
    ensures forall k :: 0 <= k < |ys| ==>
      ys[k].Valid() && ys[k].shape == Space2Depth.OutputShape(x.shape, r)
  {
    var c := x.shape[3];
    SelfDivides(c);
    var parts := Split(x, 3, c);
    seq(c, k requires 0 <= k < c => Space2Depth.Forward(parts[k], r))
  }

  /** `space2depth(X, r)`: with `c > 1` channels, each channel is
      transformed on its own and the results, `r * r` channels each, are
      concatenated along the channel axis; a single channel is transformed
      directly. */
  function SpaceToDepth<T>(x: Tensor<T>, r: nat): (y: Tensor<T>)
    requires x.Valid() && Downscalable(x.shape, r)
    ensures y.Valid() && y.shape == Downscaled(x.shape, r)
  {
    if x.shape[3] > 1 then
      Concatenate(ChannelsDownscaled(x, r), 3)
    else
      Space2Depth.Forward(x, r)
  }

  /** The closed form of `space2depth`: input pixel
      `(y, z) = (m * r + u, k * r + v)` of channel `ch` lands in channel
      `w = ch * (r * r) + v * r + u` of output pixel `(m, k)`. */
  lemma {:induction false} SpaceToDepthAt<T>(x: Tensor<T>, r: nat, n: nat, m: nat, k: nat, u: nat, v: nat, ch: nat, y: nat, z: nat, w: nat)
    requires x.Valid() && |x.shape| == 4 && r > 0 && x.shape[3] > 0
    requires x.shape[1] > 0 && x.shape[2] > 0 && x.shape[1] % r == 0 && x.shape[2] % r == 0
    requires n < x.shape[0] && m < x.shape[1] / r && k < x.shape[2] / r && u < r && v < r && ch < x.shape[3]
    requires y == m * r + u && z == k * r + v && w == ch * (r * r) + v * r + u
    ensures InBounds(x.shape, [n, y, z, ch])
    ensures InBounds(SpaceToDepth(x, r).shape, [n, m, k, w])
    ensures At(SpaceToDepth(x, r), [n, m, k, w]) == At(x, [n, y, z, ch])
  {
    if x.shape[3] > 1 {
      ChannelDownscaledAt(x, r, n, m, k, u, v, ch, y, z, Offset(v, r, u), w);
    } else {
      assert ch == 0 && w == v * r + u;
      Space2Depth.ForwardAt(x, r, n, m, k, u, v);
    }
  }

  /** `SpaceToDepthAt` with more than one channel. */
  lemma {:induction false} ChannelDownscaledAt<T>(x: Tensor<T>, r: nat, n: nat, m: nat, k: nat, u: nat, v: nat, ch: nat, y: nat, z: nat, e: nat, w: nat)
    requires x.Valid() && |x.shape| == 4 && r > 0 && x.shape[3] > 1
    requires x.shape[1] > 0 && x.shape[2] > 0 && x.shape[1] % r == 0 && x.shape[2] % r == 0
    requires n < x.shape[0] && m < x.shape[1] / r && k < x.shape[2] / r && u < r && v < r && ch < x.shape[3]
    requires y == m * r + u && z == k * r + v && e == v * r + u && w == ch * (r * r) + e
    ensures InBounds(x.shape, [n, y, z, ch])
    ensures InBounds(Concatenate(ChannelsDownscaled(x, r), 3).shape, [n, m, k, w])
    ensures At(Concatenate(ChannelsDownscaled(x, r), 3), [n, m, k, w]) == At(x, [n, y, z, ch])
  {
    var ys := ChannelsDownscaled(x, r);
    ChannelSliceAt(x, r, n, m, k, u, v, ch, y, z, e);
    assert ys[0].shape[3] == r * r;
    PlacedAt(ys, ch, n, m, k, e, w);
  }

  /** Channel `e` of output pixel `(m, k)` of the transform of channel `ch`
      is pixel `(y, z)` of channel `ch` of `x`. */
  lemma {:induction false} ChannelSliceAt<T>(x: Tensor<T>, r: nat, n: nat, m: nat, k: nat, u: nat, v: nat, ch: nat, y: nat, z: nat, e: nat)
    requires x.Valid() && |x.shape| == 4 && r > 0 && x.shape[3] > 0
    requires x.shape[1] > 0 && x.shape[2] > 0 && x.shape[1] % r == 0 && x.shape[2] % r == 0
    requires n < x.shape[0] && m < x.shape[1] / r && k < x.shape[2] / r && u < r && v < r && ch < x.shape[3]
    requires y == m * r + u && z == k * r + v && e == v * r + u
    ensures InBounds(x.shape, [n, y, z, ch])
    ensures InBounds(ChannelsDownscaled(x, r)[ch].shape, [n, m, k, e])
    ensures At(ChannelsDownscaled(x, r)[ch], [n, m, k, e]) == At(x, [n, y, z, ch])
  {
    var c := x.shape[3];
    SelfDivides(c);
    var part := Split(x, 3, c)[ch];
    assert ChannelsDownscaled(x, r)[ch] == Space2Depth.Forward(part, r);
    assert part.shape == [x.shape[0], x.shape[1], x.shape[2], 1];
    Space2Depth.PixelAt(part, r, n, m, k, u, v, y, z);
    assert InBounds(part.shape, [n, y, z] + [0] + []) && [n, y, z] + [0] + [] == [n, y, z, 0];
    assert ch * (c / c) + 0 == ch;
    SplitAt(x, 3, c, ch, [n, y, z], 0, [], ch);
    assert [n, y, z] + [ch] + [] == [n, y, z, ch];
  }

  // ---------------------------------------------------------------------
  // Round trips

  /** `space2depth` undoes `depth2space`. */
  lemma {:induction false} UpThenDown<T>(x: Tensor<T>, r: nat)
    requires x.Valid() && Upscalable(x.shape, r)
    ensures SpaceToDepth(DepthToSpace(x, r), r) == x
  {
    var y := SpaceToDepth(DepthToSpace(x, r), r);
    UpscaledInverse(x.shape, r);
    forall idx | InBounds(x.shape, idx)
      ensures At(y, idx) == At(x, idx)
    {
      UpThenDownAt(x, r, idx);
    }
    Extensionality(y, x);
  }

  /** One element of `UpThenDown`: the element at `idx` comes back to `idx`. */
  lemma {:induction false} UpThenDownAt<T>(x: Tensor<T>, r: nat, idx: seq<nat>)
    requires x.Valid() && Upscalable(x.shape, r) && InBounds(x.shape, idx)
    ensures InBounds(SpaceToDepth(DepthToSpace(x, r), r).shape, idx)
    ensures At(SpaceToDepth(DepthToSpace(x, r), r), idx) == At(x, idx)
  {
    var s := x.shape;
    var n, i, j, q := idx[0], idx[1], idx[2], idx[3];
    assert idx == [n, i, j, q];
    GroupCount(s[3], r);
    var g, e := Space2Depth.PositionParts(q, r * r, s[3]);
    var v, u := Space2Depth.ChannelParts(e, r);
    var y, z := Offset(i, r, u), Offset(j, r, v);
    DepthToSpaceAt(x, r, n, i, j, u, v, g, y, z, q);
    var up := DepthToSpace(x, r);
    ExactMultiple(s[1], r);
    ExactMultiple(s[2], r);
    SpaceToDepthAt(up, r, n, i, j, u, v, g, y, z, q);
  }

  /** `depth2space` undoes `space2depth`. */
  lemma {:induction false} DownThenUp<T>(x: Tensor<T>, r: nat)
    requires x.Valid() && Downscalable(x.shape, r)
    ensures DepthToSpace(SpaceToDepth(x, r), r) == x
  {
    var y := DepthToSpace(SpaceToDepth(x, r), r);
    DownscaledInverse(x.shape, r);
    forall idx | InBounds(x.shape, idx)
      ensures At(y, idx) == At(x, idx)
    {
      DownThenUpAt(x, r, idx);
    }
    Extensionality(y, x);
  }

  /** One element of `DownThenUp`: the element at `idx` comes back to `idx`. */
  lemma {:induction false} DownThenUpAt<T>(x: Tensor<T>, r: nat, idx: seq<nat>)
    requires x.Valid() && Downscalable(x.shape, r) && InBounds(x.shape, idx)
    ensures InBounds(DepthToSpace(SpaceToDepth(x, r), r).shape, idx)
    ensures At(DepthToSpace(SpaceToDepth(x, r), r), idx) == At(x, idx)
  {
    var s := x.shape;
    var n, y, z, ch := idx[0], idx[1], idx[2], idx[3];
    assert idx == [n, y, z, ch];
    var m, u := Space2Depth.PositionParts(y, r, s[1]);
    var k, v := Space2Depth.PositionParts(z, r, s[2]);
    MulAtLeastOne(r, r);
    var w := Offset(ch, r * r, Offset(v, r, u));
    SpaceToDepthAt(x, r, n, m, k, u, v, ch, y, z, w);
    var down := SpaceToDepth(x, r);
    ExactMultiple(s[3], r * r);
    DepthToSpaceAt(down, r, n, m, k, u, v, ch, y, z, w);
  }
}
