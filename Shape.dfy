/** Row-major index arithmetic for n-dimensional arrays: element counts,
    flattening a multi-index to an offset into the flat buffer, and back. */
module Shape {

  /** Number of elements of an array of shape `s`. */
  function Prod(s: seq<nat>): nat
  {
    if |s| == 0 then 1 else s[0] * Prod(s[1..])
  }

  /** `idx` addresses an element of an array of shape `s`. */
  predicate InBounds(s: seq<nat>, idx: seq<nat>)
  {
    |idx| == |s| && forall k :: 0 <= k < |s| ==> idx[k] < s[k]
  }

  /** Row-major offset of `idx` (the last axis varies fastest). */
  function Flat(s: seq<nat>, idx: seq<nat>): nat
    requires |idx| == |s|
  {
    if |s| == 0 then 0 else idx[0] * Prod(s[1..]) + Flat(s[1..], idx[1..])
  }

  /** An in-bounds index lands inside the buffer. */
  lemma {:induction false} FlatBound(s: seq<nat>, idx: seq<nat>)
    requires InBounds(s, idx)
    ensures Flat(s, idx) < Prod(s)
  {
    if |s| > 0 {
      assert InBounds(s[1..], idx[1..]);
      FlatBound(s[1..], idx[1..]);
      MulStrict(idx[0], s[0], Prod(s[1..]), Flat(s[1..], idx[1..]));
    }
  }

  /** The multi-index of offset `t` (see `UnflatInverse`). */
  function Unflat(s: seq<nat>, t: nat): (idx: seq<nat>)
    requires t < Prod(s)
    ensures |idx| == |s|
  {
    if |s| == 0 then []
    else
      var p := Prod(s[1..]);
      PositiveFactor(t, s[0], p);
      [t / p] + Unflat(s[1..], t % p)
  }

  /** `Unflat` inverts `Flat`: every offset in the buffer is the offset of
      exactly the in-bounds index `Unflat` returns. */
  lemma {:induction false} UnflatInverse(s: seq<nat>, t: nat)
    requires t < Prod(s)
    ensures InBounds(s, Unflat(s, t)) && Flat(s, Unflat(s, t)) == t
  {
    if |s| > 0 {
      var p := Prod(s[1..]);
      PositiveFactor(t, s[0], p);
      var idx := Unflat(s, t);
      assert idx[0] == t / p && idx[1..] == Unflat(s[1..], t % p);
      UnflatInverse(s[1..], t % p);
      assert t / p < s[0] by { DivBelow(t, p, s[0]); }
      assert Flat(s, idx) == idx[0] * Prod(s[1..]) + Flat(s[1..], idx[1..]);
      MulSubst(idx[0], Prod(s[1..]), t / p, p);
    }
  }

  // ---------------------------------------------------------------------
  // Arithmetic helpers

  /** `q * d + x < n * d` when `q < n` and `x < d`. */
  lemma {:induction false} MulStrict(q: nat, n: nat, d: nat, x: nat)
    requires q < n && x < d
    ensures q * d + x < n * d
  {
    assert (n - q) * d >= d by { MulAtLeastOne(n - q, d); }
    assert n * d - q * d == (n - q) * d;
  }

  lemma {:induction false} MulAtLeastOne(a: nat, d: nat)
    requires a >= 1
    ensures a * d >= d
  {
    assert a * d == (a - 1) * d + d;
  }

  /** Division of an offset below `n * p` by `p` lands below `n`. */
  lemma {:induction false} DivBelow(t: nat, p: nat, n: nat)
    requires p > 0 && t < n * p
    ensures t / p < n
  {
    var q := t / p;
    assert q * p <= t;
    if q >= n {
      MulMono(n, q, p);
      assert false;
    }
  }

  lemma {:induction false} Regroup(h: nat, p1: nat, p2: nat, f: nat, g: nat, p12: nat, fg: nat)
    requires p12 == p1 * p2 && fg == f * p2 + g
    ensures h * p12 + fg == (h * p1 + f) * p2 + g
  {
  }

  lemma {:induction false} PositiveFactor(t: nat, a: nat, p: nat)
    requires t < a * p
    ensures p > 0
  {
  }

  lemma {:induction false} MulSubst(a: nat, b: nat, a': nat, b': nat)
    requires a == a' && b == b'
    ensures a * b == a' * b'
  {
  }

  lemma {:induction false} Assoc(a: nat, b: nat, c: nat, bc: nat)
    requires bc == b * c
    ensures a * bc == a * b * c
  {
  }

  lemma {:induction false} MulMono(a: nat, b: nat, p: nat)
    requires a <= b
    ensures a * p <= b * p
  {
    assert b * p == a * p + (b - a) * p;
  }

  /** Quotient and remainder are determined by any decomposition with the
      remainder in range. */
  lemma {:induction false} DivModUnique(t: nat, q: nat, d: nat, x: nat)
    requires x < d && t == q * d + x
    ensures t / d == q && t % d == x
  {
    var q', x' := t / d, t % d;
    assert t == q' * d + x';
    if q' < q {
      MulStrict(q', q, d, x');
    } else if q < q' {
      MulStrict(q, q', d, x);
    }
  }

  // ---------------------------------------------------------------------
  // Structure of Prod and Flat

  lemma {:induction false} ProdAppend(a: seq<nat>, b: seq<nat>)
    ensures Prod(a + b) == Prod(a) * Prod(b)
  {
    if |a| > 0 {
      assert (a + b)[1..] == a[1..] + b;
      ProdAppend(a[1..], b);
      var h, pa, pb := a[0], Prod(a[1..]), Prod(b);
      assert Prod(a + b) == h * (pa * pb);
      assert h * (pa * pb) == (h * pa) * pb;
    } else {
      assert a + b == b;
    }
  }

  /** Flattening a concatenated index: the prefix addresses a block of
      `Prod(s2)` elements, the suffix the element inside it. */
  lemma {:induction false} FlatAppend(s1: seq<nat>, s2: seq<nat>, i1: seq<nat>, i2: seq<nat>)
    requires |i1| == |s1| && |i2| == |s2|
    ensures Flat(s1 + s2, i1 + i2) == Flat(s1, i1) * Prod(s2) + Flat(s2, i2)
  {
    if |s1| > 0 {
      assert (s1 + s2)[1..] == s1[1..] + s2;
      assert (i1 + i2)[1..] == i1[1..] + i2;
      FlatAppend(s1[1..], s2, i1[1..], i2);
      ProdAppend(s1[1..], s2);
      var h, f, g, p1, p2 := i1[0], Flat(s1[1..], i1[1..]), Flat(s2, i2), Prod(s1[1..]), Prod(s2);
      assert Flat(s1 + s2, i1 + i2) == h * Prod(s1[1..] + s2) + Flat(s1[1..] + s2, i1[1..] + i2);
      assert Flat(s1, i1) == h * p1 + f;
      Regroup(h, p1, p2, f, g, Prod(s1[1..] + s2), Flat(s1[1..] + s2, i1[1..] + i2));
    } else {
      assert s1 + s2 == s2 && i1 + i2 == i2;
    }
  }

  /** An axis of length one addressed at 0 changes neither the element
      count nor the offset. */
  lemma {:induction false} UnitAxis(s1: seq<nat>, s2: seq<nat>, i1: seq<nat>, i2: seq<nat>)
    requires |i1| == |s1| && |i2| == |s2|
    ensures Prod(s1 + [1] + s2) == Prod(s1 + s2)
    ensures Flat(s1 + [1] + s2, i1 + [0] + i2) == Flat(s1 + s2, i1 + i2)
  {
    AxisFlat(s1, 1, s2, i1, 0, i2);
    ProdAppend(s1, s2);
    FlatAppend(s1, s2, i1, i2);
    var o, P := Flat(s1, i1), Prod(s2);
    assert (o * 1 + 0) * P == o * P;
    assert Prod(s1) * 1 * P == Prod(s1) * P;
  }

  /** Splitting the last axis of length `p * q` into two axes `p`, `q`
      keeps the element count, and `[.., v, u]` lands where `[.., v * q + u]` did. */
  lemma {:induction false} SplitLastAxis(pre: seq<nat>, ipre: seq<nat>, p: nat, q: nat, v: nat, u: nat)
    requires |ipre| == |pre|
    ensures Prod(pre + [p, q]) == Prod(pre + [p * q])
    ensures Flat(pre + [p, q], ipre + [v, u]) == Flat(pre + [p * q], ipre + [v * q + u])
  {
    assert [p, q][1..] == [q] && [q][1..] == [];
    assert [v, u][1..] == [u] && [u][1..] == [];
    assert [p * q][1..] == [] && [v * q + u][1..] == [];
    assert Prod([p, q]) == Prod([p * q]) by {
      assert Prod([p, q]) == p * Prod([q]);
      assert Prod([q]) == q;
    }
    assert Flat([p, q], [v, u]) == Flat([p * q], [v * q + u]) by {
      assert Flat([p, q], [v, u]) == v * Prod([q]) + Flat([q], [u]);
      assert Flat([q], [u]) == u;
      assert Prod([q]) == q;
    }
    ProdAppend(pre, [p, q]);
    ProdAppend(pre, [p * q]);
    MulSubst(Prod(pre), Prod([p, q]), Prod(pre), Prod([p * q]));
    FlatAppend(pre, [p, q], ipre, [v, u]);
    FlatAppend(pre, [p * q], ipre, [v * q + u]);
    MulSubst(Flat(pre, ipre), Prod([p, q]), Flat(pre, ipre), Prod([p * q]));
  }

  /** Bounds of a concatenated index are the bounds of its parts. */
  lemma {:induction false} InBoundsAppend(s1: seq<nat>, s2: seq<nat>, i1: seq<nat>, i2: seq<nat>)
    requires |i1| == |s1| && |i2| == |s2|
    ensures InBounds(s1 + s2, i1 + i2) <==> InBounds(s1, i1) && InBounds(s2, i2)
  {
    if InBounds(s1 + s2, i1 + i2) {
      forall k | 0 <= k < |s1| ensures i1[k] < s1[k] {
        assert (i1 + i2)[k] == i1[k] && (s1 + s2)[k] == s1[k];
      }
      forall k | 0 <= k < |s2| ensures i2[k] < s2[k] {
        assert (i1 + i2)[|s1| + k] == i2[k] && (s1 + s2)[|s1| + k] == s2[k];
      }
    }
  }

  /** The last two axes: the offset of `[.., i, j]` in `pre + [p, q]`. */
  lemma {:induction false} LastAxesFlat(pre: seq<nat>, p: nat, q: nat, ipre: seq<nat>, i: nat, j: nat)
    requires |ipre| == |pre|
    ensures Prod(pre + [p, q]) == Prod(pre) * p * q
    ensures Flat(pre + [p, q], ipre + [i, j]) == (Flat(pre, ipre) * p + i) * q + j
  {
    assert pre + [p, q] == pre + [p] + [q];
    assert ipre + [i, j] == ipre + [i] + [j];
    assert [q][1..] == [] && [j][1..] == [];
    assert Prod([q]) == q && Flat([q], [j]) == j;
    AxisFlat(pre, p, [q], ipre, i, [j]);
    MulSubst(Prod(pre) * p, Prod([q]), Prod(pre) * p, q);
    MulSubst(Flat(pre, ipre) * p + i, Prod([q]), Flat(pre, ipre) * p + i, q);
  }

  /** The element count of `pre + [d] + post`. */
  lemma {:induction false} AxisProd(pre: seq<nat>, d: nat, post: seq<nat>)
    ensures Prod(pre + [d] + post) == Prod(pre) * d * Prod(post)
  {
    var tail := [d] + post;
    assert pre + [d] + post == pre + tail;
    assert tail[1..] == post;
    assert Prod(tail) == d * Prod(post);
    ProdAppend(pre, tail);
    Assoc(Prod(pre), d, Prod(post), Prod(tail));
  }

  /** Flat decomposes at any axis `k` into (outer block, position on the
      axis, inner offset). */
  lemma {:induction false} AxisFlat(pre: seq<nat>, d: nat, post: seq<nat>, ipre: seq<nat>, e: nat, ipost: seq<nat>)
    requires |ipre| == |pre| && |ipost| == |post|
    ensures Prod(pre + [d] + post) == Prod(pre) * d * Prod(post)
    ensures Flat(pre + [d] + post, ipre + [e] + ipost)
         == (Flat(pre, ipre) * d + e) * Prod(post) + Flat(post, ipost)
  {
    var tail, itail := [d] + post, [e] + ipost;
    assert pre + [d] + post == pre + tail;
    assert ipre + [e] + ipost == ipre + itail;
    assert tail[1..] == post && itail[1..] == ipost;
    assert Prod(tail) == d * Prod(post);
    assert Flat(tail, itail) == e * Prod(post) + Flat(post, ipost);
    assert Prod(pre + tail) == Prod(pre) * d * Prod(post) by {
      ProdAppend(pre, tail);
      Assoc(Prod(pre), d, Prod(post), Prod(tail));
    }
    assert Flat(pre + tail, ipre + itail)
        == (Flat(pre, ipre) * d + e) * Prod(post) + Flat(post, ipost) by {
      FlatAppend(pre, tail, ipre, itail);
      Regroup(Flat(pre, ipre), d, Prod(post), e, Flat(post, ipost), Prod(tail), Flat(tail, itail));
    }
  }

  /** Different in-bounds indices have different offsets. */
  lemma {:induction false} FlatInjective(s: seq<nat>, i1: seq<nat>, i2: seq<nat>)
    requires InBounds(s, i1) && InBounds(s, i2) && Flat(s, i1) == Flat(s, i2)
    ensures i1 == i2
  {
    if |s| > 0 {
      var p := Prod(s[1..]);
      assert InBounds(s[1..], i1[1..]) && InBounds(s[1..], i2[1..]);
      var t := Flat(s, i1);
      FlatBound(s[1..], i1[1..]);
      FlatBound(s[1..], i2[1..]);
      DivModUnique(t, i1[0], p, Flat(s[1..], i1[1..]));
      DivModUnique(t, i2[0], p, Flat(s[1..], i2[1..]));
      FlatInjective(s[1..], i1[1..], i2[1..]);
      assert i1 == [i1[0]] + i1[1..] && i2 == [i2[0]] + i2[1..];
    }
  }

  /** Element count of a four-axis shape. */
  lemma {:induction false} Prod4(a: nat, b: nat, c: nat, d: nat)
    ensures Prod([a, b, c, d]) == a * (b * (c * d))
  {
    assert [a, b, c, d][1..] == [b, c, d] && [b, c, d][1..] == [c, d];
    assert [c, d][1..] == [d] && [d][1..] == [];
    assert Prod([d]) == d;
    assert Prod([c, d]) == c * d;
    assert Prod([b, c, d]) == b * (c * d);
  }

  /** Trading a factor `r * r` on the last axis for a factor `r` on each of
      the two middle axes keeps the element count. */
  lemma {:induction false} BlockSize(n: nat, a: nat, b: nat, r: nat)
    ensures Prod([n, a * r, b * r, 1]) == Prod([n, a, b, r * r])
  {
    Prod4(n, a * r, b * r, 1);
    Prod4(n, a, b, r * r);
    var br := b * r;
    assert (a * r) * (br * 1) == a * (r * br) by {
      assert br * 1 == br;
    }
    assert r * br == b * (r * r);
  }

  /** Position `e` of block `q`, the blocks being `d` long: `q * d + e`. */
  function Offset(q: nat, d: nat, e: nat): nat
  {
    q * d + e
  }

  /** A multiple of a positive `r` divides by `r` exactly. */
  lemma {:induction false} ExactMultiple(d: nat, r: nat)
    ensures r > 0 ==> (d * r) % r == 0 && (d * r) / r == d
  {
    if r > 0 {
      DivModUnique(d * r, d, r, 0);
    }
  }

  /** Euclidean division of `t` by a positive `d`. */
  lemma {:induction false} DivMod(t: nat, d: nat)
    requires d > 0
    ensures t == t / d * d + t % d && t % d < d
  {
  }

  /** A positive length divides itself once. */
  lemma {:induction false} SelfDivides(d: nat)
    requires d > 0
    ensures d % d == 0 && d / d == 1
  {
    DivModUnique(d, 1, d, 0);
  }

  /** When `r` divides a positive length `d`, cutting `d` into `d / r`
      sections leaves sections of length `r`. */
  lemma {:induction false} Cofactor(d: nat, r: nat)
    requires r > 0 && d > 0 && d % r == 0
    ensures d / r > 0 && d % (d / r) == 0 && d / (d / r) == r
  {
    var q := d / r;
    DivMod(d, r);
    assert d == q * r;
    assert q > 0;
    DivModUnique(d, r, q, 0);
  }

  /** A shape is the axes before `k`, axis `k` and the axes after it; the
      same holds with axis `k` replaced by `c`. */
  lemma {:induction false} AroundAxis(s: seq<nat>, k: nat, c: nat)
    requires k < |s|
    ensures s == s[..k] + [s[k]] + s[k + 1..]
    ensures s[k := c] == s[..k] + [c] + s[k + 1..]
  {
  }

  /** An index with one distinguished axis is in bounds exactly when each
      of its three parts is. */
  lemma {:induction false} AxisBounds(pre: seq<nat>, d: nat, post: seq<nat>, i1: seq<nat>, e: nat, i2: seq<nat>)
    requires |i1| == |pre| && |i2| == |post|
    ensures InBounds(pre + [d] + post, i1 + [e] + i2) <==> InBounds(pre, i1) && e < d && InBounds(post, i2)
  {
    InBoundsAppend(pre + [d], post, i1 + [e], i2);
    InBoundsAppend(pre, [d], i1, [e]);
    assert InBounds([d], [e]) <==> e < d by {
      assert [e][0] == e && [d][0] == d;
    }
  }

  // ---------------------------------------------------------------------
  // Three-axis view used by the axis operations: an offset t below
  // n * d * i decomposes uniquely as (o * d + x) * i + j.

  /** An encoded (outer, axis, inner) triple is an offset below n * d * i. */
  lemma {:induction false} EncodeBound(n: nat, d: nat, i: nat, o: nat, x: nat, j: nat)
    requires o < n && x < d && j < i
    ensures (o * d + x) * i + j < n * d * i
  {
    MulStrict(o, n, d, x);
    MulStrict(o * d + x, n * d, i, j);
    assert (n * d) * i == n * d * i;
  }

  /** The (outer, axis, inner) coordinates of offset `t`. */
  function Coords(n: nat, d: nat, i: nat, t: nat): (c: (nat, nat, nat))
    requires t < n * d * i
    ensures c.0 < n && c.1 < d && c.2 < i
    ensures t == (c.0 * d + c.1) * i + c.2
  {
    assert i > 0 && d > 0;
    var q := t / i;
    assert n * d * i == (n * d) * i;
    DivBelow(t, i, n * d);
    DivBelow(q, d, n);
    (q / d, q % d, t % i)
  }

  /** Encoding coordinates gives an offset in range whose coordinates are
      the ones encoded. */
  lemma {:induction false} CoordsOf(n: nat, d: nat, i: nat, o: nat, x: nat, j: nat)
    requires o < n && x < d && j < i
    ensures (o * d + x) * i + j < n * d * i
    ensures Coords(n, d, i, (o * d + x) * i + j) == (o, x, j)
  {
    EncodeBound(n, d, i, o, x, j);
    var t := (o * d + x) * i + j;
    DivModUnique(t, o * d + x, i, j);
    DivModUnique(o * d + x, o, d, x);
  }
}
