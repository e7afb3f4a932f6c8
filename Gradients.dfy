// The backward passes. Each class's `backward` runs, line for line, the
// other class's forward pipeline on the output gradient; since both passes
// only move values, the gradient of each is the inverse rearrangement.

module Gradients {
  import opened Shape
  import opened Ndarray
  import Depth2Space
  import Space2Depth

  /** `Depth2Space(r).backward`: the space-to-depth pipeline applied to the
      output gradient `gy` of shape `(B, A, W, 1)`. The result is the one
      input gradient the forward pass maps to `gy`. */
  function Depth2SpaceBackward<T>(gy: Tensor<T>, r: nat): (gx: Tensor<T>)
    requires gy.Valid() && |gy.shape| == 4 && gy.shape[3] == 1 && r > 0
    requires gy.shape[1] > 0 && gy.shape[2] > 0 && gy.shape[1] % r == 0 && gy.shape[2] % r == 0
    ensures gx.Valid() && gx.shape == Space2Depth.OutputShape(gy.shape, r)
    ensures gx.shape[1] * r == gy.shape[1] && gx.shape[2] * r == gy.shape[2]
    ensures Depth2Space.Forward(gx, r) == gy
  {
    var gx := Space2Depth.Forward(gy, r);
    SpaceThenDepth(gy, r);
    gx
  }

  /** `Space2Depth(r).backward`: the depth-to-space pipeline applied to the
      output gradient `gy` of shape `(B, a, b, r * r)`. For `r > 0` the
      result is the one input gradient the forward pass maps to `gy`. */
  function Space2DepthBackward<T>(gy: Tensor<T>, r: nat): (gx: Tensor<T>)
    requires gy.Valid() && |gy.shape| == 4 && gy.shape[3] == r * r
    requires gy.shape[1] > 0 && gy.shape[2] > 0
    ensures gx.Valid() && gx.shape == [gy.shape[0], gy.shape[1] * r, gy.shape[2] * r, 1]
    ensures r > 0 ==> gx.shape[1] % r == 0 && gx.shape[2] % r == 0
    ensures r > 0 ==> Space2Depth.Forward(gx, r) == gy
  {
    var gx := Depth2Space.Forward(gy, r);
    if r > 0 then DepthThenSpace(gy, r); gx else gx
  }

  /** `Space2Depth(r).backward` as written: its split / squeeze /
      concatenate steps use numpy's `squeeze`, exactly as the depth-to-space
      forward pass does; `None` where a numpy call raises. */
  function Space2DepthBackwardAsWritten<T>(gy: Tensor<T>, r: nat): (gx: Option<Tensor<T>>)
    requires gy.Valid() && |gy.shape| == 4
    ensures gx.Some? ==> gx.value.Valid()
  {
    Depth2Space.ForwardAsWritten(gy, r)
  }

  /** With a batch and a width above 1 and `r > 1`, the backward pass as
      written succeeds and agrees with `Space2DepthBackward`. */
  lemma {:induction false} BackwardAsWrittenAgrees<T>(gy: Tensor<T>, r: nat)
    requires gy.Valid() && |gy.shape| == 4 && gy.shape[3] == r * r
    requires gy.shape[1] > 0 && gy.shape[2] > 0
    requires gy.shape[0] > 1 && gy.shape[2] > 1 && r > 1
    ensures Space2DepthBackwardAsWritten(gy, r) == Some(Space2DepthBackward(gy, r))
  {
    Depth2Space.ForwardAsWrittenAgrees(gy, r);
  }

  /** A gradient of shape `(1, 2, 2, 4)` with `r = 2`: `Space2DepthBackward`
      maps it to a `(1, 4, 4, 1)` gradient, but the backward pass as written
      raises, for the same reason as the depth-to-space forward pass. */
  lemma {:induction false} BackwardBatchOfOneRaises<T>(gy: Tensor<T>)
    requires gy.Valid() && gy.shape == [1, 2, 2, 4]
    ensures Space2DepthBackward(gy, 2).shape == [1, 4, 4, 1]
    ensures Space2DepthBackwardAsWritten(gy, 2) == None
  {
    Depth2Space.BatchOfOneRaises(gy);
  }

  /** With `r = 1` the backward pass as written raises on every gradient,
      for the same reason as the depth-to-space forward pass. */
  lemma {:induction false} BackwardUnitScaleRaises<T>(gy: Tensor<T>)
    requires gy.Valid() && |gy.shape| == 4
    ensures Space2DepthBackwardAsWritten(gy, 1) == None
  {
    Depth2Space.UnitScaleRaises(gy);
  }

  /** A `(2, 2, 1, 4)` gradient with `r = 2` whose channel 1 of pixel
      `(0, 0)` differs from channel 0 of pixel `(1, 0)`: the backward pass as
      written returns a gradient of the right shape, but a different one
      from `Space2DepthBackward`. */
  lemma {:induction false} BackwardWidthOneMisplaces<T>(gy: Tensor<T>)
    requires gy.Valid() && gy.shape == [2, 2, 1, 4]
    requires At(gy, [0, 0, 0, 1]) != At(gy, [0, 1, 0, 0])
    ensures Space2DepthBackwardAsWritten(gy, 2).Some?
    ensures Space2DepthBackwardAsWritten(gy, 2).value.shape == Space2DepthBackward(gy, 2).shape
    ensures Space2DepthBackwardAsWritten(gy, 2).value != Space2DepthBackward(gy, 2)
  {
    Depth2Space.WidthOneMisplaces(gy);
  }

  /** A `(1, 1, 2, 16)` gradient with `r = 4` whose elements `[0, 0, 1, 0]`
      and `[0, 0, 0, 2]` differ: with this batch of 1 the backward pass as
      written does not raise, but returns a gradient of the right shape
      that is not `Space2DepthBackward`'s. */
  lemma {:induction false} BackwardBatchOfOneMisplaces<T>(gy: Tensor<T>)
    requires gy.Valid() && gy.shape == [1, 1, 2, 16]
    requires At(gy, [0, 0, 1, 0]) != At(gy, [0, 0, 0, 2])
    ensures Space2DepthBackwardAsWritten(gy, 4).Some?
    ensures Space2DepthBackwardAsWritten(gy, 4).value.shape == Space2DepthBackward(gy, 4).shape
    ensures Space2DepthBackwardAsWritten(gy, 4).value != Space2DepthBackward(gy, 4)
  {
    Depth2Space.BatchOfOneMisplaces(gy);
  }

  /** `Depth2Space(r).backward` undoes the forward pass: the gradient of
      the forward pass's output, taken back, is the input arrangement. */
  lemma {:induction false} Depth2SpaceBackwardUndoesForward<T>(x: Tensor<T>, r: nat)
    requires x.Valid() && |x.shape| == 4 && x.shape[3] == r * r && r > 0
    requires x.shape[1] > 0 && x.shape[2] > 0
    ensures Depth2Space.Forward(x, r).shape[1] % r == 0 && Depth2Space.Forward(x, r).shape[2] % r == 0
    ensures Depth2SpaceBackward(Depth2Space.Forward(x, r), r) == x
  {
    DepthThenSpace(x, r);
  }

  /** `Space2Depth(r).backward` undoes the forward pass. */
  lemma {:induction false} Space2DepthBackwardUndoesForward<T>(x: Tensor<T>, r: nat)
    requires x.Valid() && |x.shape| == 4 && x.shape[3] == 1 && r > 0
    requires x.shape[1] > 0 && x.shape[2] > 0 && x.shape[1] % r == 0 && x.shape[2] % r == 0
    ensures Space2Depth.Forward(x, r).shape[1] > 0 && Space2Depth.Forward(x, r).shape[2] > 0
    ensures Space2DepthBackward(Space2Depth.Forward(x, r), r) == x
  {
    SpaceThenDepth(x, r);
  }

  /** Space-to-depth followed by depth-to-space gives back the input. */
  lemma {:induction false} SpaceThenDepth<T>(x: Tensor<T>, r: nat)
    requires x.Valid() && |x.shape| == 4 && x.shape[3] == 1 && r > 0
    requires x.shape[1] > 0 && x.shape[2] > 0 && x.shape[1] % r == 0 && x.shape[2] % r == 0
    ensures Space2Depth.Forward(x, r).shape[1] > 0 && Space2Depth.Forward(x, r).shape[2] > 0
    ensures Depth2Space.Forward(Space2Depth.Forward(x, r), r) == x
  {
    var y := Depth2Space.Forward(Space2Depth.Forward(x, r), r);
    SpaceThenDepthShape(x, r);
    forall idx | InBounds(x.shape, idx)
      ensures At(y, idx) == At(x, idx)
    {
      SpaceThenDepthAt(x, r, idx);
    }
    Extensionality(y, x);
  }

  /** The shape part of `SpaceThenDepth`. */
  lemma {:induction false} SpaceThenDepthShape<T>(x: Tensor<T>, r: nat)
    requires x.Valid() && |x.shape| == 4 && x.shape[3] == 1 && r > 0
    requires x.shape[1] > 0 && x.shape[2] > 0 && x.shape[1] % r == 0 && x.shape[2] % r == 0
    ensures Space2Depth.Forward(x, r).shape[1] > 0 && Space2Depth.Forward(x, r).shape[2] > 0
    ensures Depth2Space.Forward(Space2Depth.Forward(x, r), r).shape == x.shape
  {
    var s, z := x.shape, Space2Depth.Forward(x, r);
    assert Depth2Space.Forward(z, r).shape == [s[0], z.shape[1] * r, z.shape[2] * r, 1];
  }

  /** One element of `SpaceThenDepth`: the element at `idx` comes back to `idx`. */
  lemma {:induction false} SpaceThenDepthAt<T>(x: Tensor<T>, r: nat, idx: seq<nat>)
    requires x.Valid() && |x.shape| == 4 && x.shape[3] == 1 && r > 0
    requires x.shape[1] > 0 && x.shape[2] > 0 && x.shape[1] % r == 0 && x.shape[2] % r == 0
    requires InBounds(x.shape, idx)
    ensures Space2Depth.Forward(x, r).shape[1] > 0 && Space2Depth.Forward(x, r).shape[2] > 0
    ensures InBounds(Depth2Space.Forward(Space2Depth.Forward(x, r), r).shape, idx)
    ensures At(Depth2Space.Forward(Space2Depth.Forward(x, r), r), idx) == At(x, idx)
  {
    var s := x.shape;
    var n, y, z := idx[0], idx[1], idx[2];
    assert idx == [n, y, z, 0];
    var m, u := Space2Depth.PositionParts(y, r, s[1]);
    var k, v := Space2Depth.PositionParts(z, r, s[2]);
    Space2Depth.ForwardAt(x, r, n, m, k, u, v);
    Depth2Space.ForwardAt(Space2Depth.Forward(x, r), r, n, m, k, u, v);
  }

  /** Depth-to-space followed by space-to-depth gives back the input. */
  lemma {:induction false} DepthThenSpace<T>(x: Tensor<T>, r: nat)
    requires x.Valid() && |x.shape| == 4 && x.shape[3] == r * r && r > 0
    requires x.shape[1] > 0 && x.shape[2] > 0
    ensures Depth2Space.Forward(x, r).shape[1] % r == 0 && Depth2Space.Forward(x, r).shape[2] % r == 0
    ensures Space2Depth.Forward(Depth2Space.Forward(x, r), r) == x
  {
    var s := x.shape;
    var z := Depth2Space.Forward(x, r);
    var y := Space2Depth.Forward(z, r);
    assert y.shape == s;
    forall idx | InBounds(s, idx)
      ensures At(y, idx) == At(x, idx)
    {
      DepthThenSpaceAt(x, r, idx);
    }
    Extensionality(y, x);
  }

  /** One element of `DepthThenSpace`: the element at `idx` comes back to `idx`. */
  lemma {:induction false} DepthThenSpaceAt<T>(x: Tensor<T>, r: nat, idx: seq<nat>)
    requires x.Valid() && |x.shape| == 4 && x.shape[3] == r * r && r > 0
    requires x.shape[1] > 0 && x.shape[2] > 0
    requires InBounds(x.shape, idx)
    ensures Depth2Space.Forward(x, r).shape[1] % r == 0 && Depth2Space.Forward(x, r).shape[2] % r == 0
    ensures InBounds(Space2Depth.Forward(Depth2Space.Forward(x, r), r).shape, idx)
    ensures At(Space2Depth.Forward(Depth2Space.Forward(x, r), r), idx) == At(x, idx)
  {
    var n, i, j, c := idx[0], idx[1], idx[2], idx[3];
    assert idx == [n, i, j, c];
    var v, u := Space2Depth.ChannelParts(c, r);
    Depth2Space.ForwardAt(x, r, n, i, j, u, v);
    Space2Depth.ForwardAt(Depth2Space.Forward(x, r), r, n, i, j, u, v);
  }
}
