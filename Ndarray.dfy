/** The subset of numpy's array operations that the sub-pixel transforms
    are built from, on a row-major array of any rank whose elements are of
    an arbitrary type (values are only moved, never computed on).  Each
    operation is characterised by where it reads each output element from,
    stated on multi-indices. */
module Ndarray {
  import opened Shape

  /** An n-dimensional array: its shape and its elements in row-major order. */
  datatype Tensor<T> = Tensor(shape: seq<nat>, data: seq<T>)
  {
    predicate Valid()
    {
      |data| == Prod(shape)
    }
  }

  /** The element at multi-index `idx`. */
  function At<T>(x: Tensor<T>, idx: seq<nat>): T
    requires x.Valid() && InBounds(x.shape, idx)
  {
    FlatBound(x.shape, idx);
    x.data[Flat(x.shape, idx)]
  }

  /** Two arrays of one shape that agree at every index are equal. */
  lemma {:induction false} Extensionality<T>(x: Tensor<T>, y: Tensor<T>)
    requires x.Valid() && y.Valid() && x.shape == y.shape
    requires forall idx | InBounds(x.shape, idx) :: At(x, idx) == At(y, idx)
    ensures x == y
  {
    forall t | 0 <= t < |x.data|
      ensures x.data[t] == y.data[t]
    {
      UnflatInverse(x.shape, t);
      assert At(x, Unflat(x.shape, t)) == At(y, Unflat(x.shape, t));
    }
  }

  // ---------------------------------------------------------------------
  // numpy.reshape, numpy.squeeze(axis=k), numpy.expand_dims: same buffer,
  // new shape.

  /** `numpy.reshape(x, shape)`: the row-major buffer is kept as it is. */
  function Reshape<T>(x: Tensor<T>, shape: seq<nat>): (y: Tensor<T>)
    requires x.Valid() && Prod(shape) == |x.data|
    ensures y.Valid() && y.shape == shape && y.data == x.data
  {
    Tensor(shape, x.data)
  }

  /** `numpy.squeeze(x, axis=k)`: drop an axis of length one. */
  function SqueezeAxis<T>(x: Tensor<T>, k: nat): (y: Tensor<T>)
    requires x.Valid() && k < |x.shape| && x.shape[k] == 1
    ensures y.Valid() && y.shape == x.shape[..k] + x.shape[k + 1..] && y.data == x.data
  {
    var s := x.shape;
    assert s == s[..k] + [1] + s[k + 1..];
    AxisProd(s[..k], 1, s[k + 1..]);
    ProdAppend(s[..k], s[k + 1..]);
    Reshape(x, s[..k] + s[k + 1..])
  }

  /** `numpy.expand_dims(x, k)`: insert an axis of length one before axis `k`. */
  function ExpandDims<T>(x: Tensor<T>, k: nat): (y: Tensor<T>)
    requires x.Valid() && k <= |x.shape|
    ensures y.Valid() && y.shape == x.shape[..k] + [1] + x.shape[k..] && y.data == x.data
  {
    var s := x.shape;
    assert s == s[..k] + s[k..];
    AxisProd(s[..k], 1, s[k..]);
    ProdAppend(s[..k], s[k..]);
    Reshape(x, s[..k] + [1] + s[k..])
  }

  /** Reading through a reshape that adds an axis of length one. */
  lemma {:induction false} ReshapeAddUnitAt<T>(x: Tensor<T>, s1: seq<nat>, s2: seq<nat>, i1: seq<nat>, i2: seq<nat>)
    requires x.Valid() && x.shape == s1 + s2 && |i1| == |s1| && |i2| == |s2|
    requires InBounds(s1 + s2, i1 + i2)
    ensures Prod(s1 + [1] + s2) == |x.data|
    ensures InBounds(s1 + [1] + s2, i1 + [0] + i2)
    ensures At(Reshape(x, s1 + [1] + s2), i1 + [0] + i2) == At(x, i1 + i2)
  {
    UnitAxis(s1, s2, i1, i2);
    InBoundsAppend(s1, s2, i1, i2);
    InBoundsAppend(s1, [1], i1, [0]);
    InBoundsAppend(s1 + [1], s2, i1 + [0], i2);
  }

  /** Reading through a reshape that drops an axis of length one. */
  lemma {:induction false} ReshapeDropUnitAt<T>(x: Tensor<T>, s1: seq<nat>, s2: seq<nat>, i1: seq<nat>, i2: seq<nat>)
    requires x.Valid() && x.shape == s1 + [1] + s2 && |i1| == |s1| && |i2| == |s2|
    requires InBounds(s1 + s2, i1 + i2)
    ensures Prod(s1 + s2) == |x.data|
    ensures InBounds(x.shape, i1 + [0] + i2)
    ensures At(Reshape(x, s1 + s2), i1 + i2) == At(x, i1 + [0] + i2)
  {
    UnitAxis(s1, s2, i1, i2);
    InBoundsAppend(s1, s2, i1, i2);
    InBoundsAppend(s1, [1], i1, [0]);
    InBoundsAppend(s1 + [1], s2, i1 + [0], i2);
  }

  /** Reading through a reshape that splits the last axis `p * q` into `p, q`:
      `[.., v, u]` is the element `[.., v * q + u]`. */
  lemma {:induction false} ReshapeSplitLastAt<T>(x: Tensor<T>, pre: seq<nat>, p: nat, q: nat, ipre: seq<nat>, v: nat, u: nat)
    requires x.Valid() && x.shape == pre + [p * q] && |ipre| == |pre|
    requires InBounds(pre + [p, q], ipre + [v, u])
    ensures Prod(pre + [p, q]) == |x.data|
    ensures InBounds(x.shape, ipre + [v * q + u])
    ensures At(Reshape(x, pre + [p, q]), ipre + [v, u]) == At(x, ipre + [v * q + u])
  {
    LastAxesBounds(pre, p, q, ipre, v, u);
    SplitLastAxis(pre, ipre, p, q, v, u);
  }

  /** Reading through a reshape that merges the last two axes `p, q` into
      one axis of length `p * q`. */
  lemma {:induction false} ReshapeMergeLastAt<T>(x: Tensor<T>, pre: seq<nat>, p: nat, q: nat, ipre: seq<nat>, v: nat, u: nat)
    requires x.Valid() && x.shape == pre + [p, q] && |ipre| == |pre|
    requires InBounds(pre + [p, q], ipre + [v, u])
    ensures Prod(pre + [p * q]) == |x.data|
    ensures InBounds(pre + [p * q], ipre + [v * q + u])
    ensures At(Reshape(x, pre + [p * q]), ipre + [v * q + u]) == At(x, ipre + [v, u])
  {
    LastAxesBounds(pre, p, q, ipre, v, u);
    SplitLastAxis(pre, ipre, p, q, v, u);
  }

  /** An index into `pre + [p, q]` maps to an index into `pre + [p * q]`. */
  lemma {:induction false} LastAxesBounds(pre: seq<nat>, p: nat, q: nat, ipre: seq<nat>, v: nat, u: nat)
    requires |ipre| == |pre| && InBounds(pre + [p, q], ipre + [v, u])
    ensures InBounds(pre, ipre) && v < p && u < q
    ensures InBounds(pre + [p * q], ipre + [v * q + u])
  {
    InBoundsAppend(pre, [p, q], ipre, [v, u]);
    assert [v, u][0] < [p, q][0] && [v, u][1] < [p, q][1];
    MulStrict(v, p, q, u);
    InBoundsAppend(pre, [p * q], ipre, [v * q + u]);
    assert [v * q + u][0] < [p * q][0];
  }

  /** Reading through `SqueezeAxis`. */
  lemma {:induction false} SqueezeAxisAt<T>(x: Tensor<T>, k: nat, i1: seq<nat>, i2: seq<nat>)
    requires x.Valid() && k < |x.shape| && x.shape[k] == 1
    requires |i1| == k && InBounds(x.shape[..k] + x.shape[k + 1..], i1 + i2)
    ensures InBounds(x.shape, i1 + [0] + i2)
    ensures At(SqueezeAxis(x, k), i1 + i2) == At(x, i1 + [0] + i2)
  {
    var s := x.shape;
    assert s == s[..k] + [1] + s[k + 1..];
    ReshapeDropUnitAt(x, s[..k], s[k + 1..], i1, i2);
  }

  /** Reading through `ExpandDims`. */
  lemma {:induction false} ExpandDimsAt<T>(x: Tensor<T>, k: nat, i1: seq<nat>, i2: seq<nat>)
    requires x.Valid() && k <= |x.shape|
    requires |i1| == k && InBounds(x.shape, i1 + i2)
    ensures InBounds(ExpandDims(x, k).shape, i1 + [0] + i2)
    ensures At(ExpandDims(x, k), i1 + [0] + i2) == At(x, i1 + i2)
  {
    var s := x.shape;
    assert s == s[..k] + s[k..];
    ReshapeAddUnitAt(x, s[..k], s[k..], i1, i2);
  }

  // ---------------------------------------------------------------------
  // numpy.squeeze without an axis: drop every axis of length one.

  /** The shape with every axis of length one removed. */
  function DropUnitAxes(s: seq<nat>): (r: seq<nat>)
    ensures Prod(r) == Prod(s)
    ensures forall k :: 0 <= k < |r| ==> r[k] != 1
  {
    if |s| == 0 then []
    else if s[0] == 1 then DropUnitAxes(s[1..])
    else
      var r := [s[0]] + DropUnitAxes(s[1..]);
      assert r[1..] == DropUnitAxes(s[1..]);
      r
  }

  /** `numpy.squeeze(x)`: drop every axis of length one. */
  function Squeeze<T>(x: Tensor<T>): (y: Tensor<T>)
    requires x.Valid()
    ensures y.Valid() && y.shape == DropUnitAxes(x.shape) && y.data == x.data
  {
    Reshape(x, DropUnitAxes(x.shape))
  }

  /** When axis `k` is the only axis of length one, dropping every unit
      axis drops exactly that one. */
  lemma {:induction false} DropOnlyUnitAxis(s: seq<nat>, k: nat)
    requires k < |s| && s[k] == 1
    requires forall j :: 0 <= j < |s| && j != k ==> s[j] != 1
    ensures DropUnitAxes(s) == s[..k] + s[k + 1..]
  {
    if k == 0 {
      NoUnitAxis(s[1..]);
      assert s[..0] + s[1..] == s[1..];
    } else {
      DropOnlyUnitAxis(s[1..], k - 1);
      assert s[..k] + s[k + 1..] == [s[0]] + (s[1..][..k - 1] + s[1..][k..]);
    }
  }

  /** Without unit axes, dropping them changes nothing. */
  lemma {:induction false} NoUnitAxis(s: seq<nat>)
    requires forall j :: 0 <= j < |s| ==> s[j] != 1
    ensures DropUnitAxes(s) == s
  {
    if |s| > 0 {
      NoUnitAxis(s[1..]);
      assert s == [s[0]] + s[1..];
    }
  }

  // ---------------------------------------------------------------------
  // numpy.transpose(x, (0, .., n-1, n-2)): swap the last two axes.

  /** Swap the last two axes. */
  function SwapLastAxes<T>(x: Tensor<T>): (y: Tensor<T>)
    requires x.Valid() && |x.shape| >= 2
    ensures y.Valid()
    ensures y.shape == x.shape[..|x.shape| - 2] + [x.shape[|x.shape| - 1], x.shape[|x.shape| - 2]]
  {
    var n := |x.shape|;
    var pre, p, q := x.shape[..n - 2], x.shape[n - 2], x.shape[n - 1];
    assert x.shape == pre + [p, q];
    assert pre + [p, q] == pre + [p] + [q] && pre + [q, p] == pre + [q] + [p];
    AxisProd(pre, p, [q]);
    AxisProd(pre, q, [p]);
    assert Prod([q]) == q && Prod([p]) == p;
    var o := Prod(pre);
    var data := seq(o * q * p, t requires 0 <= t < o * q * p =>
      var c := Coords(o, q, p, t);
      EncodeBound(o, p, q, c.0, c.2, c.1);
      x.data[(c.0 * p + c.2) * q + c.1]);
    Tensor(pre + [q, p], data)
  }

  /** Element `[.., j, i]` of the swapped array is element `[.., i, j]`. */
  lemma {:induction false} SwapLastAxesAt<T>(x: Tensor<T>, ipre: seq<nat>, i: nat, j: nat)
    requires x.Valid() && |x.shape| >= 2 && InBounds(x.shape, ipre + [i, j])
    ensures InBounds(SwapLastAxes(x).shape, ipre + [j, i])
    ensures At(SwapLastAxes(x), ipre + [j, i]) == At(x, ipre + [i, j])
  {
    var n := |x.shape|;
    var pre, p, q := x.shape[..n - 2], x.shape[n - 2], x.shape[n - 1];
    assert x.shape == pre + [p, q];
    var y := SwapLastAxes(x);
    InBoundsAppend(pre, [p, q], ipre, [i, j]);
    InBoundsAppend(pre, [q, p], ipre, [j, i]);
    FlatBound(pre, ipre);
    LastAxesFlat(pre, p, q, ipre, i, j);
    LastAxesFlat(pre, q, p, ipre, j, i);
    CoordsOf(Prod(pre), q, p, Flat(pre, ipre), j, i);
  }

  // ---------------------------------------------------------------------
  // numpy.split(x, m, k): m equal sections along axis k.

  /** Section `p` of `numpy.split(x, m, k)`. */
  function Section<T>(x: Tensor<T>, k: nat, m: nat, p: nat): (y: Tensor<T>)
    requires x.Valid() && k < |x.shape| && m > 0 && x.shape[k] % m == 0 && p < m
    ensures y.Valid() && y.shape == x.shape[k := x.shape[k] / m]
  {
    var s := x.shape;
    var pre, d, post := s[..k], s[k], s[k + 1..];
    var c := d / m;
    assert s == pre + [d] + post && s[k := c] == pre + [c] + post;
    AxisProd(pre, d, post);
    AxisProd(pre, c, post);
    var o, i := Prod(pre), Prod(post);
    var data := seq(o * c * i, t requires 0 <= t < o * c * i => x.data[SectionSource(o, d, i, m, p, t)]);
    Tensor(pre + [c] + post, data)
  }

  /** The offset in the whole array of offset `t` of section `p`, the axis
      of length `d` being cut into `m` sections between `o` outer and `i`
      inner positions. */
  function SectionSource(o: nat, d: nat, i: nat, m: nat, p: nat, t: nat): (r: nat)
    requires m > 0 && d % m == 0 && p < m && t < o * (d / m) * i
    ensures r < o * d * i
  {
    var c := d / m;
    var co := Coords(o, c, i, t);
    SectionSourceBound(o, d, i, m, p, co.0, co.1, co.2);
    (co.0 * d + (p * c + co.1)) * i + co.2
  }

  /** Coordinates `(a, e, b)` of section `p` name an offset of the whole
      array that is in range. */
  lemma {:induction false} SectionSourceBound(o: nat, d: nat, i: nat, m: nat, p: nat, a: nat, e: nat, b: nat)
    requires m > 0 && d % m == 0 && p < m && a < o && e < d / m && b < i
    ensures (a * d + (p * (d / m) + e)) * i + b < o * d * i
  {
    SectionBound(m, d / m, d, p, e);
    EncodeBound(o, d, i, a, p * (d / m) + e, b);
  }

  /** Position `(a, e, b)` of section `p` is position `(a, p * c + e, b)`
      of the whole array. */
  lemma {:induction false} SectionSourceOf(o: nat, d: nat, i: nat, m: nat, p: nat, a: nat, e: nat, b: nat, t: nat)
    requires m > 0 && d % m == 0 && p < m && a < o && e < d / m && b < i
    requires t == (a * (d / m) + e) * i + b
    ensures t < o * (d / m) * i
    ensures SectionSource(o, d, i, m, p, t) == (a * d + (p * (d / m) + e)) * i + b
  {
    assert t < o * (d / m) * i && Coords(o, d / m, i, t) == (a, e, b) by {
      CoordsOf(o, d / m, i, a, e, b);
    }
  }

  /** Position `e` of section `p` is position `p * c + e` of the whole axis. */
  lemma {:induction false} SectionBound(m: nat, c: nat, d: nat, p: nat, e: nat)
    requires m > 0 && d % m == 0 && c == d / m && p < m && e < c
    ensures p * c + e < d
  {
    MulStrict(p, m, c, e);
    assert d == m * c;
  }

  /** `numpy.split(x, m, k)`: the `m` sections along axis `k`, in order. */
  function Split<T>(x: Tensor<T>, k: nat, m: nat): (ps: seq<Tensor<T>>)
    requires x.Valid() && k < |x.shape| && m > 0 && x.shape[k] % m == 0
    ensures |ps| == m
    ensures forall p :: 0 <= p < m ==> ps[p].Valid() && ps[p].shape == x.shape[k := x.shape[k] / m]
  {
    seq(m, p requires 0 <= p < m => Section(x, k, m, p))
  }

  /** Element `[.., e, ..]` (position `e` on axis `k`) of section `p` is
      element `[.., p * c + e, ..]` of the input, `c` being the section length. */
  lemma {:induction false} SectionAt<T>(x: Tensor<T>, k: nat, m: nat, p: nat, i1: seq<nat>, e: nat, i2: seq<nat>, w: nat)
    requires x.Valid() && k < |x.shape| && m > 0 && x.shape[k] % m == 0 && p < m
    requires |i1| == k && InBounds(x.shape[k := x.shape[k] / m], i1 + [e] + i2)
    requires w == p * (x.shape[k] / m) + e
    ensures InBounds(x.shape, i1 + [w] + i2)
    ensures At(Section(x, k, m, p), i1 + [e] + i2) == At(x, i1 + [w] + i2)
  {
    var s := x.shape;
    var pre, d, post := s[..k], s[k], s[k + 1..];
    var c := d / m;
    AroundAxis(s, k, c);
    assert InBounds(pre, i1) && e < c && InBounds(post, i2) by {
      AxisBounds(pre, c, post, i1, e, i2);
    }
    assert w < d by { SectionBound(m, c, d, p, e); }
    assert InBounds(pre + [d] + post, i1 + [w] + i2) by {
      AxisBounds(pre, d, post, i1, w, i2);
    }
    SectionFlat(pre, d, post, m, p, i1, e, i2, w);
    SectionData(x, k, m, p, Flat(pre + [c] + post, i1 + [e] + i2));
  }

  /** The offset of `[.., e, ..]` in section `p` is mapped by `SectionSource`
      to the offset of `[.., p * c + e, ..]` in the whole array. */
  lemma {:induction false} SectionFlat(pre: seq<nat>, d: nat, post: seq<nat>, m: nat, p: nat, i1: seq<nat>, e: nat, i2: seq<nat>, w: nat)
    requires m > 0 && d % m == 0 && p < m && |i1| == |pre| && |i2| == |post|
    requires InBounds(pre, i1) && e < d / m && InBounds(post, i2) && w == p * (d / m) + e
    ensures Flat(pre + [d / m] + post, i1 + [e] + i2) < Prod(pre) * (d / m) * Prod(post)
    ensures SectionSource(Prod(pre), d, Prod(post), m, p, Flat(pre + [d / m] + post, i1 + [e] + i2))
         == Flat(pre + [d] + post, i1 + [w] + i2)
  {
    var c := d / m;
    var a, b, o, i := Flat(pre, i1), Flat(post, i2), Prod(pre), Prod(post);
    assert a < o && b < i by {
      FlatBound(pre, i1);
      FlatBound(post, i2);
    }
    var t := (a * c + e) * i + b;
    assert Flat(pre + [c] + post, i1 + [e] + i2) == t by {
      AxisFlat(pre, c, post, i1, e, i2);
    }
    assert Flat(pre + [d] + post, i1 + [w] + i2) == (a * d + w) * i + b by {
      AxisFlat(pre, d, post, i1, w, i2);
    }
    SectionSourceOf(o, d, i, m, p, a, e, b, t);
  }

  /** Element `t` of a section is read from the offset `SectionSource` names. */
  lemma {:induction false} SectionData<T>(x: Tensor<T>, k: nat, m: nat, p: nat, t: nat)
    requires x.Valid() && k < |x.shape| && m > 0 && x.shape[k] % m == 0 && p < m
    requires t < Prod(x.shape[..k]) * (x.shape[k] / m) * Prod(x.shape[k + 1..])
    ensures Prod(x.shape[..k]) * x.shape[k] * Prod(x.shape[k + 1..]) == |x.data|
    ensures t < |Section(x, k, m, p).data|
    ensures Section(x, k, m, p).data[t]
         == x.data[SectionSource(Prod(x.shape[..k]), x.shape[k], Prod(x.shape[k + 1..]), m, p, t)]
  {
    assert x.shape == x.shape[..k] + [x.shape[k]] + x.shape[k + 1..];
    AxisProd(x.shape[..k], x.shape[k], x.shape[k + 1..]);
  }

  /** The same, read through `numpy.split`. */
  lemma {:induction false} SplitAt<T>(x: Tensor<T>, k: nat, m: nat, p: nat, i1: seq<nat>, e: nat, i2: seq<nat>, w: nat)
    requires x.Valid() && k < |x.shape| && m > 0 && x.shape[k] % m == 0 && p < m
    requires |i1| == k && InBounds(x.shape[k := x.shape[k] / m], i1 + [e] + i2)
    requires w == p * (x.shape[k] / m) + e
    ensures InBounds(x.shape, i1 + [w] + i2)
    ensures At(Split(x, k, m)[p], i1 + [e] + i2) == At(x, i1 + [w] + i2)
  {
    SectionAt(x, k, m, p, i1, e, i2, w);
    assert Split(x, k, m)[p] == Section(x, k, m, p);
  }

  // ---------------------------------------------------------------------
  // numpy.concatenate(xs, k) of arrays of one shape.

  /** All arrays in `xs` are valid and share one shape with at least `k + 1` axes. */
  predicate Uniform<T>(xs: seq<Tensor<T>>, k: nat)
  {
    |xs| > 0 && k < |xs[0].shape| &&
    forall j :: 0 <= j < |xs| ==> xs[j].Valid() && xs[j].shape == xs[0].shape
  }

  /** `numpy.concatenate(xs, k)`: join equally-shaped arrays along axis `k`. */
  function Concatenate<T>(xs: seq<Tensor<T>>, k: nat): (y: Tensor<T>)
    requires Uniform(xs, k)
    ensures y.Valid() && y.shape == xs[0].shape[k := |xs| * xs[0].shape[k]]
  {
    var s, m := xs[0].shape, |xs|;
    var pre, c, post := s[..k], s[k], s[k + 1..];
    AroundAxis(s, k, m * c);
    AxisProd(pre, c, post);
    AxisProd(pre, m * c, post);
    var o, i := Prod(pre), Prod(post);
    var data := seq(o * (m * c) * i, t requires 0 <= t < o * (m * c) * i =>
      var src := PieceSource(o, m, c, i, t);
      xs[src.0].data[src.1]);
    Tensor(pre + [m * c] + post, data)
  }

  /** The piece and the offset within it of offset `t` of the concatenation
      of `m` pieces whose joined axis has length `c`, between `o` outer and
      `i` inner positions. */
  function PieceSource(o: nat, m: nat, c: nat, i: nat, t: nat): (r: (nat, nat))
    requires t < o * (m * c) * i
    ensures r.0 < m && r.1 < o * c * i
  {
    var co := Coords(o, m * c, i, t);
    PieceSourceBound(o, m, c, i, co.0, co.1, co.2);
    (co.1 / c, (co.0 * c + co.1 % c) * i + co.2)
  }

  /** Coordinates `(a, y, b)` of the concatenation name a piece and an
      offset within it that are in range. */
  lemma {:induction false} PieceSourceBound(o: nat, m: nat, c: nat, i: nat, a: nat, y: nat, b: nat)
    requires a < o && y < m * c && b < i
    ensures c > 0 && y / c < m && (a * c + y % c) * i + b < o * c * i
  {
    PieceOf(m, c, y);
    EncodeBound(o, c, i, a, y % c, b);
  }

  /** Position `(a, p * c + e, b)` of the concatenation is position
      `(a, e, b)` of piece `p`. */
  lemma {:induction false} PieceSourceOf(o: nat, m: nat, c: nat, i: nat, a: nat, p: nat, e: nat, b: nat, t: nat)
    requires a < o && p < m && e < c && b < i && t == (a * (m * c) + (p * c + e)) * i + b
    ensures p * c + e < m * c && t < o * (m * c) * i
    ensures PieceSource(o, m, c, i, t) == (p, (a * c + e) * i + b)
  {
    var y := p * c + e;
    assert y < m * c by { MulStrict(p, m, c, e); }
    assert t < o * (m * c) * i && Coords(o, m * c, i, t) == (a, y, b) by {
      CoordsOf(o, m * c, i, a, y, b);
    }
    assert y / c == p && y % c == e by {
      DivModUnique(y, p, c, e);
    }
  }

  /** Position `y` on the joined axis lies in piece `y / c` at `y % c`. */
  lemma {:induction false} PieceOf(m: nat, c: nat, y: nat)
    requires y < m * c
    ensures c > 0 && y / c < m && y % c < c
  {
    PositiveFactor(y, m, c);
    DivBelow(y, c, m);
  }

  /** Element `[.., e, ..]` of piece `p` is element `[.., p * c + e, ..]` of
      the concatenation, `c` being the pieces' length on axis `k`. */
  lemma {:induction false} ConcatenateAt<T>(xs: seq<Tensor<T>>, k: nat, p: nat, i1: seq<nat>, e: nat, i2: seq<nat>, w: nat)
    requires Uniform(xs, k) && p < |xs|
    requires |i1| == k && InBounds(xs[0].shape, i1 + [e] + i2) && w == p * xs[0].shape[k] + e
    ensures InBounds(Concatenate(xs, k).shape, i1 + [w] + i2)
    ensures At(Concatenate(xs, k), i1 + [w] + i2) == At(xs[p], i1 + [e] + i2)
  {
    var s, m := xs[0].shape, |xs|;
    var pre, c, post := s[..k], s[k], s[k + 1..];
    AroundAxis(s, k, m * c);
    assert InBounds(pre, i1) && e < c && InBounds(post, i2) by {
      AxisBounds(pre, c, post, i1, e, i2);
    }
    assert w < m * c by { MulStrict(p, m, c, e); }
    assert InBounds(pre + [m * c] + post, i1 + [w] + i2) by {
      AxisBounds(pre, m * c, post, i1, w, i2);
    }
    ConcatenateFlat(pre, c, post, m, p, i1, e, i2, w);
    ConcatenateData(xs, k, Flat(pre + [m * c] + post, i1 + [w] + i2));
  }

  /** The offset of `[.., w, ..]` in the concatenation, `w` being
      `p * c + e`, is mapped by `PieceSource` to piece `p` and the offset of
      `[.., e, ..]` in it. */
  lemma {:induction false} ConcatenateFlat(pre: seq<nat>, c: nat, post: seq<nat>, m: nat, p: nat, i1: seq<nat>, e: nat, i2: seq<nat>, w: nat)
    requires p < m && |i1| == |pre| && |i2| == |post|
    requires InBounds(pre, i1) && e < c && InBounds(post, i2) && w == p * c + e
    ensures Flat(pre + [m * c] + post, i1 + [w] + i2) < Prod(pre) * (m * c) * Prod(post)
    ensures PieceSource(Prod(pre), m, c, Prod(post), Flat(pre + [m * c] + post, i1 + [w] + i2))
         == (p, Flat(pre + [c] + post, i1 + [e] + i2))
  {
    var a, b := Flat(pre, i1), Flat(post, i2);
    assert a < Prod(pre) && b < Prod(post) by {
      FlatBound(pre, i1);
      FlatBound(post, i2);
    }
    assert Flat(pre + [c] + post, i1 + [e] + i2) == (a * c + e) * Prod(post) + b by {
      AxisFlat(pre, c, post, i1, e, i2);
    }
    var t := (a * (m * c) + w) * Prod(post) + b;
    assert Flat(pre + [m * c] + post, i1 + [w] + i2) == t by {
      AxisFlat(pre, m * c, post, i1, w, i2);
    }
    PieceSourceOf(Prod(pre), m, c, Prod(post), a, p, e, b, t);
  }

  /** Element `t` of the concatenation is read from the piece and offset
      `PieceSource` names. */
  lemma {:induction false} ConcatenateData<T>(xs: seq<Tensor<T>>, k: nat, t: nat)
    requires Uniform(xs, k)
    requires t < Prod(xs[0].shape[..k]) * (|xs| * xs[0].shape[k]) * Prod(xs[0].shape[k + 1..])
    ensures Prod(xs[0].shape[..k]) * xs[0].shape[k] * Prod(xs[0].shape[k + 1..]) == |xs[0].data|
    ensures t < |Concatenate(xs, k).data|
    ensures PieceSource(Prod(xs[0].shape[..k]), |xs|, xs[0].shape[k], Prod(xs[0].shape[k + 1..]), t).0 < |xs|
    ensures Concatenate(xs, k).data[t]
         == xs[PieceSource(Prod(xs[0].shape[..k]), |xs|, xs[0].shape[k], Prod(xs[0].shape[k + 1..]), t).0]
              .data[PieceSource(Prod(xs[0].shape[..k]), |xs|, xs[0].shape[k], Prod(xs[0].shape[k + 1..]), t).1]
  {
    var s := xs[0].shape;
    assert s == s[..k] + [s[k]] + s[k + 1..];
    AxisProd(s[..k], s[k], s[k + 1..]);
  }

  // ---------------------------------------------------------------------
  // The same calls with numpy's own checks: `None` where numpy raises.

  /** The outcome of a numpy call that may raise. */
  datatype Option<T> = None | Some(value: T)
  {
    predicate IsFailure() { None? }

    function PropagateFailure<U>(): Option<U>
      requires None?
    {
      None
    }

    function Extract(): T
      requires Some?
    {
      value
    }
  }

  /** `numpy.reshape`, which raises unless the element count is kept. */
  function TryReshape<T>(x: Tensor<T>, shape: seq<nat>): (y: Option<Tensor<T>>)
    requires x.Valid()
    ensures y.Some? <==> Prod(shape) == |x.data|
    ensures y.Some? ==> y.value == Reshape(x, shape)
  {
    if Prod(shape) == |x.data| then Some(Reshape(x, shape)) else None
  }

  /** `numpy.split(x, m, k)`, which raises unless axis `k` exists and its
      length is a multiple of a positive `m`. */
  function TrySplit<T>(x: Tensor<T>, k: nat, m: nat): (ps: Option<seq<Tensor<T>>>)
    requires x.Valid()
    ensures ps.Some? <==> k < |x.shape| && m > 0 && x.shape[k] % m == 0
    ensures ps.Some? ==> ps.value == Split(x, k, m)
  {
    if k < |x.shape| && m > 0 && x.shape[k] % m == 0 then Some(Split(x, k, m)) else None
  }

  /** `numpy.concatenate(xs, k)`, which raises unless there is at least one
      array, axis `k` exists and the arrays agree in shape. */
  function TryConcatenate<T>(xs: seq<Tensor<T>>, k: nat): (y: Option<Tensor<T>>)
    ensures y.Some? <==> Uniform(xs, k)
    ensures y.Some? ==> y.value == Concatenate(xs, k)
  {
    if Uniform(xs, k) then Some(Concatenate(xs, k)) else None
  }

  // ---------------------------------------------------------------------
  // Rearrangements that move every element exactly once.

  /** If every element of `dst` is read from a distinct position of `src`,
      and the two have the same length, they hold the same elements. */
  lemma {:induction false} GatherPermutes<T>(src: seq<T>, dst: seq<T>, f: nat -> nat)
    requires |src| == |dst|
    requires forall t :: 0 <= t < |dst| ==> f(t) < |src| && dst[t] == src[f(t)]
    requires forall t1, t2 :: 0 <= t1 < |dst| && 0 <= t2 < |dst| && f(t1) == f(t2) ==> t1 == t2
    ensures multiset(dst) == multiset(src)
  {
    var n := |dst|;
    if n > 0 {
      var k := f(n - 1);
      var rest := src[..k] + src[k + 1..];
      var g := (t: nat) => if f(t) <= k then f(t) else f(t) - 1;
      forall t | 0 <= t < n - 1
        ensures g(t) < |rest| && dst[..n - 1][t] == rest[g(t)]
      {
        assert f(t) != k;
      }
      forall t1, t2 | 0 <= t1 < n - 1 && 0 <= t2 < n - 1 && g(t1) == g(t2)
        ensures t1 == t2
      {
        assert f(t1) != k && f(t2) != k;
      }
      GatherPermutes(rest, dst[..n - 1], g);
      assert src == src[..k] + [src[k]] + src[k + 1..];
      assert dst == dst[..n - 1] + [dst[n - 1]];
    }
  }

  /** If every element of `y` is read from `x` through an index map `g`
      that never sends two positions of `y` to one position of `x`, and the
      two arrays have the same size, then `y` holds exactly the elements of
      `x`. */
  lemma {:induction false} ReadsPermute<T>(x: Tensor<T>, y: Tensor<T>, g: seq<nat> -> seq<nat>)
    requires x.Valid() && y.Valid() && |x.data| == |y.data|
    requires forall idx | InBounds(y.shape, idx) :: InBounds(x.shape, g(idx)) && At(y, idx) == At(x, g(idx))
    requires forall i1, i2 | InBounds(y.shape, i1) && InBounds(y.shape, i2) && g(i1) == g(i2) :: i1 == i2
    ensures multiset(y.data) == multiset(x.data)
  {
    var f := (t: nat) => ReadOffset(x.shape, y.shape, g, t);
    forall t | 0 <= t < |y.data|
      ensures f(t) < |x.data| && y.data[t] == x.data[f(t)]
    {
      var idx := Unflat(y.shape, t);
      UnflatInverse(y.shape, t);
      assert InBounds(x.shape, g(idx)) && At(y, idx) == At(x, g(idx));
      FlatBound(x.shape, g(idx));
    }
    forall t1, t2 | 0 <= t1 < |y.data| && 0 <= t2 < |y.data| && f(t1) == f(t2)
      ensures t1 == t2
    {
      UnflatInverse(y.shape, t1);
      UnflatInverse(y.shape, t2);
      FlatInjective(x.shape, g(Unflat(y.shape, t1)), g(Unflat(y.shape, t2)));
    }
    GatherPermutes(x.data, y.data, f);
  }

  /** The offset in an array of shape `xs` that position `t` of an array of
      shape `ys` reads, through the index map `g`. */
  function ReadOffset(xs: seq<nat>, ys: seq<nat>, g: seq<nat> -> seq<nat>, t: nat): nat
  {
    if t < Prod(ys) && |g(Unflat(ys, t))| == |xs| then Flat(xs, g(Unflat(ys, t))) else 0
  }
}
