# Sub-pixel depth2space / space2depth, modelled in Dafny

This project models chainer's sub-pixel rearrangements in
`chainer/functions/subpixel/`. These are two 4-D array transforms used for
sub-pixel super-resolution (arXiv:1609.05158).

- `Depth2Space(r).forward` turns a `(B, a, b, r²)` array into
  `(B, a·r, b·r, 1)`. Each pixel's `r²` channels become an `r × r` block of
  pixels.
- `Space2Depth(r).forward` turns `(B, a, b, 1)` into `(B, a/r, b/r, r²)`.
  Each `r × r` block of pixels becomes the channels of one pixel.
- Each class's `backward` runs, line for line, the other class's forward
  pipeline on the output gradient.
- The wrappers `depth2space(X, r)` and `space2depth(X, r)` split the channel
  axis into groups. They transform each group with the class above and
  concatenate the results in order along the channel axis.

These functions only move values and never compute on them, so elements have
a generic type `T`. An array is a `Tensor(shape, data)`: a shape plus its
elements in row-major order. The numpy calls the pipelines use are modelled
once, generically, in `Ndarray.dfy`:

- `reshape`;
- `transpose(…, (0, 1, 2, 4, 3))`;
- `split`;
- `concatenate`;
- `squeeze`, both on one axis and numpy's "all unit axes";
- `expand_dims`.

Each call has an element lemma that says where an element goes. The
arithmetic of row-major offsets is in `Shape.dfy`.

Files:

- `Shape.dfy`: products, row-major offsets, index bounds, and the
  arithmetic on them.
- `Ndarray.dfy`: the array type and the numpy calls, with their element
  lemmas. This file also holds the `Option`-valued versions that fail where
  numpy raises, and the lemma that a rearrangement reading every output
  position from a distinct input position is a permutation.
- `Depth2Space.dfy`: the depth-to-space pipeline, its closed form, its
  permutation and identity properties, and the pipeline as written with
  numpy's `squeeze`.
- `Space2Depth.dfy`: the space-to-depth pipeline, with the same properties.
- `Gradients.dfy`: both backward passes, and the round trips between the two
  forward passes.
- `Wrappers.dfy`: `depth2space` and `space2depth` with their channel
  grouping, their closed forms, and their round trips.

## Model

| member | source | states |
|---|---|---|
| Ndarray.Reshape | chainer/functions/subpixel/depth2space.py:22 | `reshape` to a shape with the same element count keeps the row-major buffer as it is, under the new shape |
| Ndarray.SwapLastAxes | chainer/functions/subpixel/depth2space.py:23 | `transpose(0, 1, 2, 4, 3)` gives the shape with its last two axes exchanged |
| Ndarray.Split | chainer/functions/subpixel/depth2space.py:24 | `split(x, m, k)` gives `m` sections, each of `x`'s shape with axis `k` divided by `m` |
| Ndarray.SqueezeAxis | chainer/functions/subpixel/depth2space.py:25 | `squeeze(x, axis=k)` of a unit axis removes that axis from the shape and keeps the buffer |
| Ndarray.Concatenate | chainer/functions/subpixel/depth2space.py:25 | `concatenate(xs, k)` of equally-shaped arrays has their shape with axis `k` multiplied by their number |
| Ndarray.ExpandDims | chainer/functions/subpixel/space2depth.py:23 | `expand_dims(x, k)` inserts a unit axis before axis `k` and keeps the buffer |
| Ndarray.ReshapeSplitLastAt | chainer/functions/subpixel/depth2space.py:22 | after `reshape` of the channel axis `r·r` into `(r, r)`, element `[.., v, u]` is channel `v·r + u` |
| Ndarray.SwapLastAxesAt | chainer/functions/subpixel/depth2space.py:23 | `transpose(0, 1, 2, 4, 3)` puts element `[.., i, j]` at `[.., j, i]` |
| Ndarray.SplitAt | chainer/functions/subpixel/depth2space.py:24 | element `[.., e, ..]` of section `p` of `split(x, m, k)` is element `[.., p·c + e, ..]` of `x`, `c` being the section length |
| Ndarray.SqueezeAxisAt | chainer/functions/subpixel/depth2space.py:25 | squeezing a unit axis keeps every element, minus the `0` index on that axis |
| Ndarray.ConcatenateAt | chainer/functions/subpixel/depth2space.py:25 | element `[.., e, ..]` of piece `p` is element `[.., p·c + e, ..]` of `concatenate(xs, k)` |
| Ndarray.ReshapeAddUnitAt | chainer/functions/subpixel/depth2space.py:28 | reshaping to append a unit axis keeps every element at the same index plus a trailing `0` |
| Ndarray.ReshapeDropUnitAt | chainer/functions/subpixel/space2depth.py:21 | reshaping to drop the unit channel axis keeps every element at the same index minus the `0` |
| Ndarray.ExpandDimsAt | chainer/functions/subpixel/space2depth.py:23 | `expand_dims(x, k)` keeps every element, with an added `0` index on axis `k` |
| Ndarray.ReshapeMergeLastAt | chainer/functions/subpixel/space2depth.py:27 | after a `reshape` that merges the last two axes `(p, q)` into `p·q`, element `[.., v·q + u]` is element `[.., v, u]` of the input |
| Ndarray.Squeeze | chainer/functions/subpixel/depth2space.py:25 | numpy's `squeeze` drops every unit axis: the new shape has no unit axis and the same element count, and the buffer is kept |
| Ndarray.DropOnlyUnitAxis | chainer/functions/subpixel/depth2space.py:25 | when axis `k` is the only unit axis, numpy's `squeeze` drops exactly axis `k` |
| Ndarray.ReadsPermute | chainer/functions/subpixel/depth2space.py:22-28 | an output of the input's size whose every position is read from a distinct input position is a permutation of the input (equal multisets) |
| Depth2Space.Slices | chainer/functions/subpixel/depth2space.py:24-25 | `split(X, a, 1)` with each piece squeezed on axis 1 gives `a` slices of shape `X.shape` without axis 1 |
| Depth2Space.SlicesAt | chainer/functions/subpixel/depth2space.py:24-25 | element `[n, ..]` of slice `p` is element `[n, p, ..]` of `X` |
| Depth2Space.MergeSlices | chainer/functions/subpixel/depth2space.py:24-25 | concatenating the slices on axis 2 gives shape `(B, X2, X1·X3, ..)` |
| Depth2Space.MergeSlicesAt | chainer/functions/subpixel/depth2space.py:24-25 | element `[n, p, i, e, ..]` lands at `[n, i, p·X3 + e, ..]` |
| Depth2Space.Forward | chainer/functions/subpixel/depth2space.py:18-29 | the forward pipeline maps `(B, a, b, r²)` to `(B, a·r, b·r, 1)`, and `r` divides the new height and width back to `a` and `b` |
| Depth2Space.SwappedChannelsAt | chainer/functions/subpixel/depth2space.py:22-23 | after the reshape and the transpose, element `[n, i, j, u, v]` is channel `v·r + u` of pixel `(i, j)` |
| Depth2Space.RowsMergedAt | chainer/functions/subpixel/depth2space.py:24-25 | the first split / squeeze / concatenate puts `[n, i, j, u, v]` at `[n, j, i·r + u, v]` |
| Depth2Space.ColumnsMergedAt | chainer/functions/subpixel/depth2space.py:26-27 | the second puts `[n, j, y, v]` at `[n, y, j·r + v]` |
| Depth2Space.InterleaveAt | chainer/functions/subpixel/depth2space.py:24-27 | the two stages together put `[n, i, j, u, v]` at `[n, i·r + u, j·r + v]` |
| Depth2Space.ForwardAt | chainer/functions/subpixel/depth2space.py:22-28 | closed form: `Out[n, i·r + u, j·r + v, 0] = X[n, i, j, v·r + u]` for all `u, v < r`, both indices in bounds |
| Depth2Space.PixelAt | chainer/functions/subpixel/depth2space.py:22-28 | the closed form with the output pixel `(y, z)` named |
| Depth2Space.ForwardReads | chainer/functions/subpixel/depth2space.py:22-28 | every in-bounds output position reads the input at `SourceIndex`, the inverse of the closed form |
| Depth2Space.SourceIndexInjective | chainer/functions/subpixel/depth2space.py:22-28 | no two output positions are read from the same input position |
| Depth2Space.ForwardPermutes | chainer/functions/subpixel/depth2space.py:22-28 | the output has the input's element count and is a permutation of it (equal multisets) |
| Depth2Space.ForwardIdentity | chainer/functions/subpixel/depth2space.py:22-28 | for the corrected pass `Forward`: with `r = 1` it returns its input unchanged. The pass as written raises instead (`Depth2Space.UnitScaleRaises`) |
| Depth2Space.SqueezeAll | chainer/functions/subpixel/depth2space.py:25 | `[xp.squeeze(x) for x in X]`: each piece loses all its unit axes |
| Depth2Space.ForwardAsWritten | chainer/functions/subpixel/depth2space.py:18-29 | the pipeline with numpy's `squeeze`, failing exactly where numpy raises; `Ndarray.TryReshape`, `Ndarray.TrySplit` and `Ndarray.TryConcatenate` define those failure conditions. Any result it gives is a valid array |
| Depth2Space.SqueezeAllSlices | chainer/functions/subpixel/depth2space.py:24-25 | when no axis but axis 1 has length 1, numpy's `squeeze` of the pieces gives `Slices` |
| Depth2Space.MergeAsWritten | chainer/functions/subpixel/depth2space.py:24-25 | under the same condition, one split / squeeze / concatenate stage as written succeeds and equals `MergeSlices` |
| Depth2Space.ForwardAsWrittenAgrees | chainer/functions/subpixel/depth2space.py:22-28 | with `B > 1`, `b > 1` and `r > 1` the pipeline as written succeeds and equals `Forward` |
| Depth2Space.BatchOfOneRaises | chainer/functions/subpixel/depth2space.py:24-27 | on a `(1, 2, 2, 4)` input with `r = 2`, `Forward` gives a `(1, 4, 4, 1)` array but the pipeline as written fails |
| Depth2Space.SqueezeStage | chainer/functions/subpixel/depth2space.py:24-25 | one stage as written, `concatenate([squeeze(p) for p in split(x, d, 1)], 2)`: when it succeeds, axis 1 exists and a positive `d` divides it, and the result is a valid array |
| Depth2Space.BatchOfOneFirstStage | chainer/functions/subpixel/depth2space.py:24-25 | in the batch-of-one example the first stage succeeds with a `(2, 2, 4)` array: `squeeze` has also removed the batch axis |
| Depth2Space.BatchOfOneSecondStage | chainer/functions/subpixel/depth2space.py:26-27 | the second stage on that `(2, 2, 4)` array raises, because its pieces squeeze to two axes |
| Depth2Space.BatchOfOneSucceeds | chainer/functions/subpixel/depth2space.py:22-28 | a batch of 1 does not always raise: on a `(1, 1, 2, 16)` input with `r = 4` every numpy call succeeds and the result has `Forward`'s shape `(1, 4, 8, 1)` |
| Depth2Space.BatchOfOneLongStages | chainer/functions/subpixel/depth2space.py:24-27 | on the `(1, 1, 2, 4, 4)` array of that input both stages succeed and leave 32 elements |
| Depth2Space.BatchOfOneLongFirstStage | chainer/functions/subpixel/depth2space.py:24-25 | there the first stage's one piece squeezes to `(2, 4, 4)`, losing the batch and height axes |
| Depth2Space.BatchOfOneLongSecondStage | chainer/functions/subpixel/depth2space.py:26-27 | the second stage splits `(2, 4, 4)` into two `(2, 2, 4)` pieces, which `squeeze` keeps, and joins them into `(2, 2, 8)` |
| Depth2Space.BatchOfOneMisplaces | chainer/functions/subpixel/depth2space.py:22-28 | on that input, when `X[0, 0, 1, 0]` and `X[0, 0, 0, 2]` differ, the pipeline as written returns an array of `Forward`'s shape that is not `Forward`'s result |
| Depth2Space.BatchOfOneAsWrittenAt | chainer/functions/subpixel/depth2space.py:22-28 | on that input element `[0, 2, 0, 0]` of the result as written is `X[0, 0, 1, 0]`, where `Forward` puts `X[0, 0, 0, 2]` |
| Depth2Space.BatchOfOneLongSwapAt | chainer/functions/subpixel/depth2space.py:22-23 | on that input the reshape and axis swap put `X[0, 0, 1, 0]` at `[0, 0, 1, 0, 0]` |
| Depth2Space.BatchOfOneLongFirstAt | chainer/functions/subpixel/depth2space.py:24-25 | the first stage there puts element `[0, 0, 1, 0, 0]` at `[1, 0, 0]` |
| Depth2Space.BatchOfOneLongSecondAt | chainer/functions/subpixel/depth2space.py:26-27 | the second stage there leaves element `[1, 0, 0]` in place |
| Depth2Space.UnitScalePieceAxes | chainer/functions/subpixel/depth2space.py:25 | squeezing a `(B, 1, b, 1, 1)` piece leaves at most two axes |
| Depth2Space.UnitScaleRaises | chainer/functions/subpixel/depth2space.py:22-27 | with `r = 1` the pipeline as written fails on every rank-4 input: the first stage's pieces squeeze to at most two axes and `concatenate(..., 2)` raises, unless the reshape or the split already has |
| Depth2Space.WidthOneRows | chainer/functions/subpixel/depth2space.py:24-25 | with a width of 1, a batch above 1 and `r > 1`, the first stage's pieces squeeze to equal `(B, r, r)` shapes, so the stage succeeds |
| Depth2Space.WidthOneRowsAt | chainer/functions/subpixel/depth2space.py:24-25 | in that case the first stage puts `[n, i, 0, u, v]` at `[n, u, i·r + v]` of a `(B, r, a·r)` array |
| Depth2Space.SingleSliceStage | chainer/functions/subpixel/depth2space.py:26-27 | a stage that splits an array of three or more axes, none of length 1, into one slice returns that array unchanged |
| Depth2Space.WidthOneReshapeAt | chainer/functions/subpixel/depth2space.py:28 | the final reshape of a `(B, r, a·r)` array puts `[n, u, i·r + v]` at `[n, u·a + i, v, 0]` |
| Depth2Space.WidthOnePipeline | chainer/functions/subpixel/depth2space.py:22-28 | with a width of 1, a batch above 1 and `r > 1`, no numpy call of the pipeline as written raises: the first stage gives a `(B, r, a·r)` array and the pipeline returns an array of the output shape `(B, a·r, r, 1)` |
| Depth2Space.WidthOneAt | chainer/functions/subpixel/depth2space.py:22-28 | closed form as written for a width of 1: `Out[n, u·a + i, v, 0] = X[n, i, 0, v·r + u]`, where `Depth2Space.ForwardAt` has `Out[n, i·r + u, v, 0]` |
| Depth2Space.WidthOneMisplaces | chainer/functions/subpixel/depth2space.py:22-28 | on a `(2, 2, 1, 4)` input with `r = 2` whose elements `[0, 0, 0, 1]` and `[0, 1, 0, 0]` differ, the pipeline as written returns an array of `Forward`'s shape that is not `Forward`'s result |
| Space2Depth.Sections | chainer/functions/subpixel/space2depth.py:22-23 | `[expand_dims(p, 1) for p in split(X, m, 2)]`: `m` sections of shape `(B, 1, X1, X2/m, ..)` |
| Space2Depth.SectionsAt | chainer/functions/subpixel/space2depth.py:22-23 | element `[n, 0, i, e, ..]` of section `p` is `X[n, i, p·(X2/m) + e, ..]` |
| Space2Depth.StackSections | chainer/functions/subpixel/space2depth.py:22-23 | the sections concatenated on axis 1 have shape `(B, m, X1, X2/m, ..)` |
| Space2Depth.StackSectionsAt | chainer/functions/subpixel/space2depth.py:22-23 | element `[n, p, i, e, ..]` of the stack is `X[n, i, p·(X2/m) + e, ..]` |
| Space2Depth.PieceAt | chainer/functions/subpixel/space2depth.py:23 | element `[n, 0, ..]` of piece `p` is element `[n, p, ..]` of the pieces concatenated on axis 1 |
| Space2Depth.DropChannel | chainer/functions/subpixel/space2depth.py:21 | the reshape to `(B, a, b)` drops the unit channel axis |
| Space2Depth.UnitChannelAt | chainer/functions/subpixel/space2depth.py:21 | element `[n, y, z]` after the reshape is `X[n, y, z, 0]` |
| Space2Depth.Blocks | chainer/functions/subpixel/space2depth.py:22-25 | the two split / expand_dims / concatenate stages turn `(B, a, b)` into `(B, a/r, b/r, r, r)` |
| Space2Depth.ColumnsStackedAt | chainer/functions/subpixel/space2depth.py:22-23 | the first stage puts `[n, y, k·r + v]` at `[n, k, y, v]` |
| Space2Depth.RowsStackedAt | chainer/functions/subpixel/space2depth.py:24-25 | the second puts `[n, k, m·r + u, v]` at `[n, m, k, u, v]` |
| Space2Depth.BlocksAt | chainer/functions/subpixel/space2depth.py:22-25 | together: element `[n, m, k, u, v]` is `[n, m·r + u, k·r + v]` |
| Space2Depth.BlockChannels | chainer/functions/subpixel/space2depth.py:26-27 | the transpose and the reshape merge the last two axes into `r·r` channels |
| Space2Depth.BlockChannelsAt | chainer/functions/subpixel/space2depth.py:26-27 | element `[n, m, k, u, v]` lands in channel `v·r + u` |
| Space2Depth.Forward | chainer/functions/subpixel/space2depth.py:16-28 | the forward pipeline maps `(B, a, b, 1)`, with `r` dividing `a` and `b`, to `(B, a/r, b/r, r²)`; `a/r` and `b/r` are positive and times `r` give back `a` and `b` |
| Space2Depth.ForwardAt | chainer/functions/subpixel/space2depth.py:21-27 | closed form: `Out[n, m, k, v·r + u] = X[n, m·r + u, k·r + v, 0]` for all `u, v < r`, both indices in bounds |
| Space2Depth.PixelAt | chainer/functions/subpixel/space2depth.py:21-27 | the closed form with the input pixel `(y, z)` named |
| Space2Depth.ChannelParts | chainer/functions/subpixel/space2depth.py:27 | a channel `c < r²` is `v·r + u` with `v = c / r` and `u = c % r`, both below `r` |
| Space2Depth.PositionUnique | chainer/functions/subpixel/space2depth.py:27 | `m·r + u` determines `m` and `u` when `u < r` |
| Space2Depth.ForwardReads | chainer/functions/subpixel/space2depth.py:21-27 | every in-bounds output position reads the input at `SourceIndex`, the inverse of the closed form |
| Space2Depth.SourceIndexInjective | chainer/functions/subpixel/space2depth.py:21-27 | no two output positions are read from the same input position |
| Space2Depth.ForwardPermutes | chainer/functions/subpixel/space2depth.py:21-27 | the output has the input's element count and is a permutation of it |
| Space2Depth.ForwardIdentity | chainer/functions/subpixel/space2depth.py:21-27 | with `r = 1` the forward pass returns its input unchanged |
| Gradients.Depth2SpaceBackward | chainer/functions/subpixel/depth2space.py:31-43 | the backward pass runs the space-to-depth pipeline. It maps `(B, A, W, 1)` to `(B, A/r, W/r, r²)`, and `Depth2Space.Forward` maps its result back to `gy` |
| Gradients.Space2DepthBackward | chainer/functions/subpixel/space2depth.py:30-41 | the backward pass runs the depth-to-space pipeline. It maps `(B, a, b, r²)` to `(B, a·r, b·r, 1)`, and for `r > 0` `Space2Depth.Forward` maps its result back to `gy` |
| Gradients.Depth2SpaceBackwardUndoesForward | chainer/functions/subpixel/depth2space.py:36-42 | `backward(forward(X)) == X` for `Depth2Space` |
| Gradients.Space2DepthBackwardUndoesForward | chainer/functions/subpixel/space2depth.py:34-40 | `backward(forward(X)) == X` for `Space2Depth` |
| Gradients.SpaceThenDepth | chainer/functions/subpixel/space2depth.py:21-27 | `Depth2Space.Forward(Space2Depth.Forward(X)) == X` |
| Gradients.SpaceThenDepthShape | chainer/functions/subpixel/space2depth.py:21-27 | the shape part of that round trip |
| Gradients.SpaceThenDepthAt | chainer/functions/subpixel/space2depth.py:21-27 | the element part of that round trip, one position at a time |
| Gradients.DepthThenSpace | chainer/functions/subpixel/depth2space.py:22-28 | `Space2Depth.Forward(Depth2Space.Forward(X)) == X` |
| Gradients.DepthThenSpaceAt | chainer/functions/subpixel/depth2space.py:22-28 | the element part of that round trip, one position at a time |
| Gradients.Space2DepthBackwardAsWritten | chainer/functions/subpixel/space2depth.py:34-40 | the backward pass with numpy's `squeeze`, which is the depth-to-space pipeline as written; any result it gives is a valid array |
| Gradients.BackwardAsWrittenAgrees | chainer/functions/subpixel/space2depth.py:34-40 | with `B > 1`, `b > 1` and `r > 1` it succeeds and equals `Space2DepthBackward` |
| Gradients.BackwardBatchOfOneRaises | chainer/functions/subpixel/space2depth.py:36-39 | on a `(1, 2, 2, 4)` gradient with `r = 2` it fails, while `Space2DepthBackward` gives a `(1, 4, 4, 1)` gradient |
| Gradients.BackwardBatchOfOneMisplaces | chainer/functions/subpixel/space2depth.py:34-40 | on a `(1, 1, 2, 16)` gradient with `r = 4` whose elements `[0, 0, 1, 0]` and `[0, 0, 0, 2]` differ, it returns a gradient of the right shape that is not `Space2DepthBackward`'s |
| Gradients.BackwardUnitScaleRaises | chainer/functions/subpixel/space2depth.py:34-37 | with `r = 1` the backward pass as written fails on every rank-4 gradient |
| Gradients.BackwardWidthOneMisplaces | chainer/functions/subpixel/space2depth.py:34-40 | on a `(2, 2, 1, 4)` gradient with `r = 2` whose elements `[0, 0, 0, 1]` and `[0, 1, 0, 0]` differ, it returns a gradient of the right shape that is not `Space2DepthBackward`'s |
| Wrappers.GroupCount | chainer/functions/subpixel/depth2space.py:59-60 | with `c` a positive multiple of `r²`, there are `c / r²` groups of exactly `r²` channels |
| Wrappers.Upscaled | chainer/functions/subpixel/depth2space.py:59-66 | the shape `depth2space` produces is one `space2depth` accepts, and dividing it by `r` gives back `a`, `b` and `c` |
| Wrappers.Downscaled | chainer/functions/subpixel/space2depth.py:57-64 | the shape `space2depth` produces is one `depth2space` accepts, and multiplying it by `r` gives back `a`, `b` and `c` |
| Wrappers.UpscaledInverse | chainer/functions/subpixel/depth2space.py:59-66 | shrinking an enlarged shape gives the shape back |
| Wrappers.DownscaledInverse | chainer/functions/subpixel/space2depth.py:57-64 | enlarging a shrunk shape gives the shape back |
| Wrappers.GroupsUpscaled | chainer/functions/subpixel/depth2space.py:63-64 | `[d2s(x) for x in split_axis(X, channel, 3)]`: `channel` arrays of shape `(B, a·r, b·r, 1)` |
| Wrappers.GroupChannelAt | chainer/functions/subpixel/depth2space.py:63 | channel `e` of group `g` is channel `g·r² + e` of `X` |
| Wrappers.PlacedAt | chainer/functions/subpixel/depth2space.py:64 | channel `e` of piece `p` is channel `p·d + e` of the channel-axis concatenation |
| Wrappers.DepthToSpace | chainer/functions/subpixel/depth2space.py:59-66 | `depth2space` maps `(B, a, b, c)` to `(B, a·r, b·r, c/r²)` |
| Wrappers.DepthToSpaceAt | chainer/functions/subpixel/depth2space.py:59-66 | closed form: channel `g` of output pixel `(i·r + u, j·r + v)` is channel `g·r² + v·r + u` of input pixel `(i, j)`. So group `g` is transformed on its own and lands at position `g`, in order |
| Wrappers.GroupUpscaledAt | chainer/functions/subpixel/depth2space.py:62-64 | the same closed form on the branch with more than one group |
| Wrappers.ChannelsDownscaled | chainer/functions/subpixel/space2depth.py:61-62 | `[s2d(x) for x in split_axis(X, c, 3)]`: `c` arrays of shape `(B, a/r, b/r, r²)` |
| Wrappers.ChannelSliceAt | chainer/functions/subpixel/space2depth.py:61-62 | channel `v·r + u` of pixel `(m, k)` of the transform of channel `ch` is `X[n, m·r + u, k·r + v, ch]` |
| Wrappers.ChannelDownscaledAt | chainer/functions/subpixel/space2depth.py:60-62 | the closed form below on the branch with more than one channel |
| Wrappers.SpaceToDepth | chainer/functions/subpixel/space2depth.py:57-64 | `space2depth` maps `(B, a, b, c)` to `(B, a/r, b/r, c·r²)` |
| Wrappers.SpaceToDepthAt | chainer/functions/subpixel/space2depth.py:57-64 | closed form: input pixel `(m·r + u, k·r + v)`, channel `ch`, lands in channel `ch·r² + v·r + u` of output pixel `(m, k)`. So channel `ch` is transformed on its own and its `r²` results come `ch`-th, in order |
| Wrappers.UpThenDown | chainer/functions/subpixel/depth2space.py:59-66 | `space2depth(depth2space(X, r), r) == X` |
| Wrappers.UpThenDownAt | chainer/functions/subpixel/depth2space.py:59-66 | the element part of that round trip, one position at a time |
| Wrappers.DownThenUp | chainer/functions/subpixel/space2depth.py:57-64 | `depth2space(space2depth(X, r), r) == X` |
| Wrappers.DownThenUpAt | chainer/functions/subpixel/space2depth.py:57-64 | the element part of that round trip, one position at a time |

## Left out

- The chainer framework is not modelled. This covers the `function.Function` base class, the autodiff graph, `Variable` and `.data`, and `check_type_forward`. Of that check, only the rank-4 requirement is modelled, as a precondition; the float32 dtype check is not. Values are a generic `T`, because the transforms only move them.
- `cuda.get_array_module` is not modelled. Choosing numpy or cupy does not change the result, so the model uses one array semantics.
- Neither file imports `numpy` or `F`. The model takes them to be numpy and `chainer.functions`, with `F.split_axis` as an equal split and `F.concat` as a concatenation. It does not model the `NameError` the files would raise.
- Python's `/` on dimensions is modelled as exact integer division. The model requires the divisions the source performs to be exact and positive:
  - `r` divides the height and width for space-to-depth;
  - `r²` divides the channel count for `depth2space`.
  Where a division is not exact, the source either floors it (Python 2) or passes a float to numpy (Python 3). Either way the following `split` or `reshape` raises, so the model leaves those inputs out.
- `Depth2Space.Forward` squeezes only the split axis, which is the corrected pass (see Findings). `Space2Depth.Forward` follows its source as written. Both require a positive height and width, and a channel count of exactly `r²`, resp. 1. numpy's failures are modelled only in the as-written pipelines (`Depth2Space.ForwardAsWritten`, `Gradients.Space2DepthBackwardAsWritten`). Where `Depth2Space.Forward` is defined, the pass as written raises for some batch-of-1 shapes (e.g. `(1, 2, 2, 4)`, `r = 2`), returns misplaced elements for others (e.g. `(1, 1, 2, 16)`, `r = 4`), raises for `r = 1`, and misplaces elements for a width of 1 with a height above 1.
- Gradients.Space2DepthBackward: its inverse property is stated for `r > 0` only. With `r = 0`, `Space2Depth.Forward` divides by zero and is undefined.
- Wrappers.DepthToSpace: requires at least one channel and a channel count that is a multiple of `r²`. For other channel counts the source's `reshape` or `split_axis` raises.
- Wrappers.DepthToSpace: it is built on the corrected `Depth2Space.Forward`, whereas the source's `depth2space` calls the class as written and so inherits its failures and misplacements (see Findings).
- Wrappers.SpaceToDepth: requires at least one channel. With none, the source takes the single-array branch (chainer/functions/subpixel/space2depth.py:64), and that pass's `reshape(X, (bsize, a, b))` (chainer/functions/subpixel/space2depth.py:21) raises whenever `B·a·b > 0`, because the array holds no elements. The model leaves channel-less inputs out.
- Depth2Space.ForwardAsWritten: its outcome is proved for these shapes only: a batch and a width above 1 with `r > 1` (it equals `Forward`); a width of 1 with a batch above 1 and `r > 1` (closed form `WidthOneAt`); `r = 1` (it raises); the `(1, 2, 2, 4)` batch of 1 with `r = 2` (it raises); and the `(1, 1, 2, 16)` batch of 1 with `r = 4` (it succeeds with misplaced elements). For other shapes, such as other batches of 1 or `r = 0`, it is defined but no lemma states its result.
- Ndarray.TryConcatenate: it also refuses pieces whose lengths differ on the joined axis, which numpy accepts. Every concatenation in these pipelines joins the equally-shaped pieces of one split, so such pieces never occur.

## Findings

| source | as written | input that shows it | evidently intended | confidence | as-written member | corrected member |
|---|---|---|---|---|---|---|
| chainer/functions/subpixel/depth2space.py:24-27 | each slice is squeezed with `xp.squeeze(x)`, which drops every unit axis. On this input the batch axis goes too, and the second `concatenate(..., 2)` names an axis the two-axis slices do not have | `X` of shape `(1, 2, 2, 4)`, `r = 2` | squeeze only the split axis, `xp.squeeze(x, 1)`, giving a `(1, 4, 4, 1)` result | not executed | Depth2Space.ForwardAsWritten, Depth2Space.BatchOfOneRaises | Depth2Space.Forward, Depth2Space.ForwardAsWrittenAgrees |
| chainer/functions/subpixel/space2depth.py:36-39 | the backward pass squeezes the same way, so this gradient fails in the same place | `gy` of shape `(1, 2, 2, 4)`, `r = 2` | squeeze only the split axis, giving a `(1, 4, 4, 1)` gradient | not executed | Gradients.Space2DepthBackwardAsWritten, Gradients.BackwardBatchOfOneRaises | Gradients.Space2DepthBackward, Gradients.BackwardAsWrittenAgrees |
| chainer/functions/subpixel/depth2space.py:24-27 | with a batch of 1 and a height of 1 the first stage's one piece loses the batch and height axes, yet both stages and the final reshape succeed, so the pass returns elements in the wrong places | `X` of shape `(1, 1, 2, 16)`, `r = 4`: element `[0, 2, 0, 0]` of the result is `X[0, 0, 1, 0]` where `X[0, 0, 0, 2]` was intended | squeeze only the split axis: `Out[n, i·r + u, j·r + v, 0] = X[n, i, j, v·r + u]` | not executed | Depth2Space.BatchOfOneAsWrittenAt, Depth2Space.BatchOfOneMisplaces | Depth2Space.ForwardAt, Depth2Space.ForwardPermutes |
| chainer/functions/subpixel/space2depth.py:36-39 | the backward pass misplaces such a gradient in the same way | `gy` of shape `(1, 1, 2, 16)`, `r = 4` | the gradient `Space2DepthBackward` gives, which `Space2Depth.Forward` maps back to `gy` | not executed | Gradients.Space2DepthBackwardAsWritten, Gradients.BackwardBatchOfOneMisplaces | Gradients.Space2DepthBackward, Gradients.Space2DepthBackwardUndoesForward |
| chainer/functions/subpixel/depth2space.py:24-27 | with a width of 1 the pieces `(B, 1, 1, r, r)` lose the width axis too, so the pass succeeds with the elements laid out differently | `X` of shape `(2, 2, 1, 4)` holding 0 to 15, `r = 2`: element `[0, 1, 0, 0]` of the result is 4 where 1 was intended | squeeze only the split axis: `Out[n, i·r + u, v, 0] = X[n, i, 0, v·r + u]` | not executed | Depth2Space.WidthOneAt, Depth2Space.WidthOneMisplaces | Depth2Space.ForwardAt, Depth2Space.ForwardPermutes |
| chainer/functions/subpixel/depth2space.py:24-25 | with `r = 1` the pieces `(B, 1, b, 1, 1)` squeeze to at most two axes, so `concatenate(..., 2)` raises on every input | `X` of shape `(2, 2, 2, 1)`, `r = 1` | return the input unchanged | not executed | Depth2Space.UnitScaleRaises | Depth2Space.ForwardIdentity |
| chainer/functions/subpixel/space2depth.py:36-39 | the backward pass misplaces a width-1 gradient in the same way | `gy` of shape `(2, 2, 1, 4)` holding 0 to 15, `r = 2` | the gradient `Space2DepthBackward` gives, which `Space2Depth.Forward` maps back to `gy` | not executed | Gradients.Space2DepthBackwardAsWritten, Gradients.BackwardWidthOneMisplaces | Gradients.Space2DepthBackward, Gradients.Space2DepthBackwardUndoesForward |
| chainer/functions/subpixel/space2depth.py:36-37 | the backward pass raises on every gradient with `r = 1` | `gy` of shape `(2, 2, 2, 1)`, `r = 1` | return the gradient unchanged | not executed | Gradients.Space2DepthBackwardAsWritten, Gradients.BackwardUnitScaleRaises | Gradients.Space2DepthBackward, Depth2Space.ForwardIdentity |
