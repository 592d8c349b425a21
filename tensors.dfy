/** Dense tensors: a shape (one `nat` per axis) and the elements in row-major
    order, with the element-wise and broadcasting operations the coupling
    layer uses. */
module Tensors {

  // Natural-number multiplication, quotient and remainder, defined by
  // recursion so that only the lemmas below reason about them arithmetically.

  /** `a * b` */
  function Mul(a: nat, b: nat): nat
  {
    if a == 0 then 0 else b + Mul(a - 1, b)
  }

  /** `k // p` */
  function Div(k: nat, p: nat): nat
    requires p > 0
  {
    if k < p then 0 else 1 + Div(k - p, p)
  }

  /** `k % p` */
  function Mod(k: nat, p: nat): nat
    requires p > 0
  {
    if k < p then k else Mod(k - p, p)
  }

  lemma {:induction false} MulIsTimes(a: nat, b: nat)
    ensures Mul(a, b) == a * b
  {
    if a > 0 {
      MulIsTimes(a - 1, b);
    }
  }

  lemma {:induction false} MulOne(a: nat)
    ensures Mul(a, 1) == a
  {
    if a > 0 {
      MulOne(a - 1);
    }
  }

  lemma MulOneLeft(b: nat)
    ensures Mul(1, b) == b
  {
    assert Mul(0, b) == 0;
  }

  lemma {:induction false} MulMono(a: nat, b: nat, p: nat)
    requires a <= b
    ensures Mul(a, p) <= Mul(b, p)
  {
    if a < b {
      MulMono(a, b - 1, p);
    }
  }

  /** Row `q` of `n` rows of length `p`, at column `r`, lies inside the block. */
  lemma RowBound(q: nat, r: nat, n: nat, p: nat)
    requires q < n && r < p
    ensures Mul(q, p) + r < Mul(n, p)
  {
    MulMono(q + 1, n, p);
  }

  /** Quotient and remainder of `q * p + r` for `r < p`. */
  lemma {:induction false} DivMod(q: nat, p: nat, r: nat)
    requires r < p
    ensures Div(Mul(q, p) + r, p) == q && Mod(Mul(q, p) + r, p) == r
  {
    if q > 0 {
      DivMod(q - 1, p, r);
    }
  }

  /** Euclid's equation for `Div` and `Mod`. */
  lemma {:induction false} DivModEuclid(k: nat, p: nat)
    requires p > 0
    ensures Mul(Div(k, p), p) + Mod(k, p) == k && Mod(k, p) < p
    decreases k
  {
    if k >= p {
      DivModEuclid(k - p, p);
    }
  }

  lemma {:induction false} DivBound(k: nat, a: nat, p: nat)
    requires p > 0 && k < Mul(a, p)
    ensures Div(k, p) < a
    decreases k
  {
    if k >= p {
      DivBound(k - p, a - 1, p);
    }
  }

  /** Number of elements of a tensor with the given shape. */
  function Product(dims: seq<nat>): nat
  {
    if |dims| == 0 then 1 else Mul(dims[0], Product(dims[1..]))
  }

  datatype Tensor = Tensor(dims: seq<nat>, data: seq<real>)

  /** The flat data holds exactly one element per multi-index. */
  predicate WellFormed(t: Tensor)
  {
    |t.data| == Product(t.dims)
  }

  /** `idx` is a multi-index for a tensor of shape `dims`. */
  predicate InBounds(dims: seq<nat>, idx: seq<nat>)
  {
    |idx| == |dims| && forall d :: 0 <= d < |dims| ==> idx[d] < dims[d]
  }

  /** Sizes of the shapes the coupling masks take. */
  lemma ProductOfVector(c: nat)
    ensures Product([c]) == c && Product([1, c]) == c && Product([1, c, 1, 1]) == c
  {
    assert Product([c]) == c by {
      assert [c][1..] == [];
      MulOne(c);
    }
    assert Product([1, c]) == c by {
      assert [1, c][1..] == [c];
      MulOneLeft(c);
    }
    assert Product([1, 1]) == 1 by {
      assert [1, 1][1..] == [1] && [1][1..] == [];
    }
    assert Product([c, 1, 1]) == c by {
      assert [c, 1, 1][1..] == [1, 1];
      MulOne(c);
    }
    assert Product([1, c, 1, 1]) == c by {
      assert [1, c, 1, 1][1..] == [c, 1, 1];
      MulOneLeft(c);
    }
  }

  lemma ProductOfGrid(h: nat, w: nat)
    ensures Product([h, w]) == Mul(h, w) && Product([1, 1, h, w]) == Mul(h, w)
  {
    assert Product([w]) == w by {
      assert [w][1..] == [];
      MulOne(w);
    }
    assert Product([h, w]) == Mul(h, w) by {
      assert [h, w][1..] == [w];
    }
    assert Product([1, h, w]) == Mul(h, w) by {
      assert [1, h, w][1..] == [h, w];
      MulOneLeft(Mul(h, w));
    }
    assert Product([1, 1, h, w]) == Mul(h, w) by {
      assert [1, 1, h, w][1..] == [1, h, w];
      MulOneLeft(Mul(h, w));
    }
  }

  /** A block with a positive number of elements has positive rows. */
  lemma {:induction false} MulPositive(a: nat, p: nat)
    requires Mul(a, p) > 0
    ensures p > 0
  {
    if a > 1 && p == 0 {
      MulPositive(a - 1, p);
    }
  }

  /** Row-major position of a multi-index. */
  function Ravel(dims: seq<nat>, idx: seq<nat>): (k: nat)
    requires InBounds(dims, idx)
    ensures k < Product(dims)
  {
    if |dims| == 0 then 0
    else
      var inner := Product(dims[1..]);
      var rest := Ravel(dims[1..], idx[1..]);
      RowBound(idx[0], rest, dims[0], inner);
      Mul(idx[0], inner) + rest
  }

  /** Flat positions in the broadcast shapes of the coupling masks. */
  lemma RavelOfVectorMask(h: nat, i: nat)
    requires i < h
    ensures Ravel([1, h, 1, 1], [0, i, 0, 0]) == i && Ravel([1, h], [0, i]) == i
  {
    assert Ravel([1, 1], [0, 0]) == 0 by {
      assert [1, 1][1..] == [1] && [0, 0][1..] == [0];
      assert [1][1..] == [] && [0][1..] == [];
    }
    assert Ravel([h, 1, 1], [i, 0, 0]) == i by {
      assert [h, 1, 1][1..] == [1, 1] && [i, 0, 0][1..] == [0, 0];
      ProductOfVector(1);
      MulOne(i);
    }
    assert Ravel([1, h, 1, 1], [0, i, 0, 0]) == i by {
      assert [1, h, 1, 1][1..] == [h, 1, 1] && [0, i, 0, 0][1..] == [i, 0, 0];
    }
    assert Ravel([h], [i]) == i by {
      assert [h][1..] == [] && [i][1..] == [];
      MulOne(i);
    }
    assert Ravel([1, h], [0, i]) == i by {
      assert [1, h][1..] == [h] && [0, i][1..] == [i];
    }
  }

  lemma RavelOfGridMask(h: nat, w: nat, i: nat, j: nat)
    requires i < h && j < w
    ensures Ravel([1, 1, h, w], [0, 0, i, j]) == Ravel([h, w], [i, j])
  {
    assert Ravel([1, h, w], [0, i, j]) == Ravel([h, w], [i, j]) by {
      assert [1, h, w][1..] == [h, w] && [0, i, j][1..] == [i, j];
    }
    assert Ravel([1, 1, h, w], [0, 0, i, j]) == Ravel([h, w], [i, j]) by {
      assert [1, 1, h, w][1..] == [1, h, w] && [0, 0, i, j][1..] == [0, i, j];
    }
  }

  lemma RavelOfGrid(h: nat, w: nat, i: nat, j: nat)
    requires i < h && j < w
    ensures Ravel([h, w], [i, j]) == Mul(i, w) + j
  {
    assert Ravel([w], [j]) == j by {
      assert [w][1..] == [] && [j][1..] == [];
      MulOne(j);
    }
    assert [h, w][1..] == [w] && [i, j][1..] == [j];
    ProductOfVector(w);
  }

  /** Multi-index of a row-major position. */
  function Unravel(dims: seq<nat>, k: nat): (idx: seq<nat>)
    requires k < Product(dims)
    ensures InBounds(dims, idx)
  {
    if |dims| == 0 then []
    else
      var inner := Product(dims[1..]);
      MulPositive(dims[0], inner);
      DivBound(k, dims[0], inner);
      DivModEuclid(k, inner);
      [Div(k, inner)] + Unravel(dims[1..], Mod(k, inner))
  }

  lemma {:induction false} UnravelRavel(dims: seq<nat>, idx: seq<nat>)
    requires InBounds(dims, idx)
    ensures Unravel(dims, Ravel(dims, idx)) == idx
  {
    if |dims| > 0 {
      var inner := Product(dims[1..]);
      var rest := Ravel(dims[1..], idx[1..]);
      DivMod(idx[0], inner, rest);
      UnravelRavel(dims[1..], idx[1..]);
    }
  }

  lemma {:induction false} RavelUnravel(dims: seq<nat>, k: nat)
    requires k < Product(dims)
    ensures Ravel(dims, Unravel(dims, k)) == k
  {
    if |dims| > 0 {
      var inner := Product(dims[1..]);
      var idx := Unravel(dims, k);
      DivModEuclid(k, inner);
      assert idx[0] == Div(k, inner) && idx[1..] == Unravel(dims[1..], Mod(k, inner));
      RavelUnravel(dims[1..], Mod(k, inner));
    }
  }

  /** The element of `t` at multi-index `idx`. */
  function At(t: Tensor, idx: seq<nat>): real
    requires WellFormed(t) && InBounds(t.dims, idx)
  {
    t.data[Ravel(t.dims, idx)]
  }

  /** `t.view(dims)`: the same elements under another shape of equal size. */
  function View(t: Tensor, dims: seq<nat>): (r: Tensor)
    requires WellFormed(t) && Product(dims) == Product(t.dims)
    ensures WellFormed(r) && r.dims == dims && r.data == t.data
  {
    Tensor(dims, t.data)
  }

  /** A tensor of shape `mdims` broadcasts against one of shape `dims` of
      the same rank when each of its axes has length 1 or the target's. */
  predicate Broadcastable(mdims: seq<nat>, dims: seq<nat>)
  {
    |mdims| == |dims| && forall d :: 0 <= d < |dims| ==> mdims[d] == 1 || mdims[d] == dims[d]
  }

  /** The multi-index of the broadcast tensor that supplies target position
      `idx`: every axis of length 1 is read at 0. */
  function Project(mdims: seq<nat>, dims: seq<nat>, idx: seq<nat>): (p: seq<nat>)
    requires Broadcastable(mdims, dims) && InBounds(dims, idx)
    ensures InBounds(mdims, p)
    ensures forall d :: 0 <= d < |p| ==> p[d] == if mdims[d] == 1 then 0 else idx[d]
  {
    seq(|mdims|, d requires 0 <= d < |mdims| => if mdims[d] == 1 then 0 else idx[d])
  }

  /** The element of `m` that target position `k` reads. */
  function BroadcastElem(m: Tensor, dims: seq<nat>, k: nat): real
    requires WellFormed(m) && Broadcastable(m.dims, dims) && k < Product(dims)
  {
    At(m, Project(m.dims, dims, Unravel(dims, k)))
  }

  /** The first `n` elements of `m` broadcast to shape `dims`. */
  function Gather(m: Tensor, dims: seq<nat>, n: nat): (r: seq<real>)
    requires WellFormed(m) && Broadcastable(m.dims, dims) && n <= Product(dims)
    ensures |r| == n
  {
    if n == 0 then [] else Gather(m, dims, n - 1) + [BroadcastElem(m, dims, n - 1)]
  }

  lemma {:induction false} GatherAt(m: Tensor, dims: seq<nat>, n: nat, k: nat)
    requires WellFormed(m) && Broadcastable(m.dims, dims) && k < n <= Product(dims)
    ensures Gather(m, dims, n)[k] == BroadcastElem(m, dims, k)
  {
    if k < n - 1 {
      GatherAt(m, dims, n - 1, k);
    }
  }

  /** The elements of `m` broadcast to shape `dims` (row-major). */
  function Broadcast(m: Tensor, dims: seq<nat>): (r: seq<real>)
    requires WellFormed(m) && Broadcastable(m.dims, dims)
    ensures |r| == Product(dims)
  {
    Gather(m, dims, Product(dims))
  }

  /** Broadcasting introduces no values besides those of `m`. */
  lemma BroadcastValues(m: Tensor, dims: seq<nat>, k: nat)
    requires WellFormed(m) && Broadcastable(m.dims, dims) && k < Product(dims)
    ensures exists j :: 0 <= j < |m.data| && Broadcast(m, dims)[k] == m.data[j]
  {
    GatherAt(m, dims, Product(dims), k);
    var j := Ravel(m.dims, Project(m.dims, dims, Unravel(dims, k)));
    assert Broadcast(m, dims)[k] == m.data[j];
  }

  /** Each broadcast element is the mask element its projected index names. */
  lemma BroadcastAt(m: Tensor, dims: seq<nat>, idx: seq<nat>)
    requires WellFormed(m) && Broadcastable(m.dims, dims) && InBounds(dims, idx)
    ensures Broadcast(m, dims)[Ravel(dims, idx)] == At(m, Project(m.dims, dims, idx))
  {
    GatherAt(m, dims, Product(dims), Ravel(dims, idx));
    UnravelRavel(dims, idx);
  }

  lemma ProjectOfGrid(dims: seq<nat>, idx: seq<nat>)
    requires |dims| == 4 && InBounds(dims, idx)
    ensures Broadcastable([1, 1, dims[2], dims[3]], dims)
    ensures Project([1, 1, dims[2], dims[3]], dims, idx) == [0, 0, idx[2], idx[3]]
  {
    var p := Project([1, 1, dims[2], dims[3]], dims, idx);
    assert p[0] == 0 && p[1] == 0 && p[2] == idx[2] && p[3] == idx[3];
  }

  lemma ProjectOfChannels(dims: seq<nat>, idx: seq<nat>)
    requires |dims| == 4 && InBounds(dims, idx)
    ensures Broadcastable([1, dims[1], 1, 1], dims)
    ensures Project([1, dims[1], 1, 1], dims, idx) == [0, idx[1], 0, 0]
  {
    var p := Project([1, dims[1], 1, 1], dims, idx);
    assert p[0] == 0 && p[1] == idx[1] && p[2] == 0 && p[3] == 0;
  }

  lemma ProjectOfFeatures(dims: seq<nat>, idx: seq<nat>)
    requires |dims| == 2 && InBounds(dims, idx)
    ensures Broadcastable([1, dims[1]], dims)
    ensures Project([1, dims[1]], dims, idx) == [0, idx[1]]
  {
    var p := Project([1, dims[1]], dims, idx);
    assert p[0] == 0 && p[1] == idx[1];
  }

  /** A height-by-width grid viewed as (1, 1, H, W) and broadcast to
      (B, C, H, W): position `idx` reads grid entry (idx[2], idx[3]). */
  lemma BroadcastGridAt(m: Tensor, dims: seq<nat>, idx: seq<nat>)
    requires |dims| == 4 && InBounds(dims, idx)
    requires WellFormed(m) && m.dims == [1, 1, dims[2], dims[3]]
    ensures Broadcastable(m.dims, dims) && |m.data| == Product([dims[2], dims[3]])
    ensures Broadcast(m, dims)[Ravel(dims, idx)] == m.data[Ravel([dims[2], dims[3]], [idx[2], idx[3]])]
  {
    ProductOfGrid(dims[2], dims[3]);
    ProjectOfGrid(dims, idx);
    BroadcastAt(m, dims, idx);
    RavelOfGridMask(dims[2], dims[3], idx[2], idx[3]);
  }

  /** A vector over the channels viewed as (1, C, 1, 1) and broadcast to
      (B, C, H, W): position `idx` reads entry idx[1]. */
  lemma BroadcastChannelAt(m: Tensor, dims: seq<nat>, idx: seq<nat>)
    requires |dims| == 4 && InBounds(dims, idx)
    requires WellFormed(m) && m.dims == [1, dims[1], 1, 1]
    ensures Broadcastable(m.dims, dims) && |m.data| == dims[1]
    ensures Broadcast(m, dims)[Ravel(dims, idx)] == m.data[idx[1]]
  {
    ProductOfVector(dims[1]);
    ProjectOfChannels(dims, idx);
    BroadcastAt(m, dims, idx);
    RavelOfVectorMask(dims[1], idx[1]);
  }

  /** A vector over the features viewed as (1, F) and broadcast to (B, F):
      position `idx` reads entry idx[1]. */
  lemma BroadcastFeatureAt(m: Tensor, dims: seq<nat>, idx: seq<nat>)
    requires |dims| == 2 && InBounds(dims, idx)
    requires WellFormed(m) && m.dims == [1, dims[1]]
    ensures Broadcastable(m.dims, dims) && |m.data| == dims[1]
    ensures Broadcast(m, dims)[Ravel(dims, idx)] == m.data[idx[1]]
  {
    ProductOfVector(dims[1]);
    ProjectOfFeatures(dims, idx);
    BroadcastAt(m, dims, idx);
    RavelOfVectorMask(dims[1], idx[1]);
  }

  // Element-wise arithmetic on equally long sequences

  function Times(a: seq<real>, b: seq<real>): (r: seq<real>)
    requires |a| == |b|
    ensures |r| == |a| && forall k :: 0 <= k < |a| ==> r[k] == a[k] * b[k]
  {
    seq(|a|, k requires 0 <= k < |a| => a[k] * b[k])
  }

  function Plus(a: seq<real>, b: seq<real>): (r: seq<real>)
    requires |a| == |b|
    ensures |r| == |a| && forall k :: 0 <= k < |a| ==> r[k] == a[k] + b[k]
  {
    seq(|a|, k requires 0 <= k < |a| => a[k] + b[k])
  }

  function Minus(a: seq<real>, b: seq<real>): (r: seq<real>)
    requires |a| == |b|
    ensures |r| == |a| && forall k :: 0 <= k < |a| ==> r[k] == a[k] - b[k]
  {
    seq(|a|, k requires 0 <= k < |a| => a[k] - b[k])
  }

  /** `1 - a` */
  function OneMinus(a: seq<real>): (r: seq<real>)
    ensures |r| == |a| && forall k :: 0 <= k < |a| ==> r[k] == 1.0 - a[k]
  {
    seq(|a|, k requires 0 <= k < |a| => 1.0 - a[k])
  }

  /** `-a` */
  function Negate(a: seq<real>): (r: seq<real>)
    ensures |r| == |a| && forall k :: 0 <= k < |a| ==> r[k] == -a[k]
  {
    seq(|a|, k requires 0 <= k < |a| => -a[k])
  }

  /** `f` applied to every element (`torch.exp` with `f` the exponential). */
  function Apply(f: real -> real, a: seq<real>): (r: seq<real>)
    ensures |r| == |a| && forall k :: 0 <= k < |a| ==> r[k] == f(a[k])
  {
    seq(|a|, k requires 0 <= k < |a| => f(a[k]))
  }

  /** `a * (1 - m)` at a position where `m` is 0 or 1: zero where `m` is 1,
      `a` itself where `m` is 0. */
  lemma MaskedComplementAt(a: seq<real>, m: seq<real>, k: nat)
    requires |a| == |m| && k < |a|
    ensures m[k] == 1.0 ==> Times(a, OneMinus(m))[k] == 0.0
    ensures m[k] == 0.0 ==> Times(a, OneMinus(m))[k] == a[k]
  {
    assert Times(a, OneMinus(m))[k] == a[k] * (1.0 - m[k]);
  }

  // The affine map of a coupling layer, element by element

  /** The two facts about `torch.exp` the layer relies on: exp(0) = 1 and
      exp(a) * exp(-a) = 1. */
  ghost predicate ExpLaws(exp: real -> real)
  {
    exp(0.0) == 1.0 && forall a, b :: a + b == 0.0 ==> exp(a) * exp(b) == 1.0
  }

  /** Position `k` of `x * f(s) + t`. */
  lemma AffineAt(x: seq<real>, s: seq<real>, t: seq<real>, f: real -> real, k: nat)
    requires |x| == |s| == |t| && k < |x|
    ensures Plus(Times(x, Apply(f, s)), t)[k] == x[k] * f(s[k]) + t[k]
  {
    assert Times(x, Apply(f, s))[k] == x[k] * f(s[k]);
  }

  /** Position `k` of `(z - t) * f(-s)`. */
  lemma InverseAffineAt(z: seq<real>, s: seq<real>, t: seq<real>, f: real -> real, k: nat)
    requires |z| == |s| == |t| && k < |z|
    ensures Times(Minus(z, t), Apply(f, Negate(s)))[k] == (z[k] - t[k]) * f(-s[k])
  {
    assert Apply(f, Negate(s))[k] == f(-s[k]);
  }

  /** If z = x * exp(s) + t then (z - t) * exp(-s) = x. */
  lemma AffineRoundTrip(exp: real -> real, x: real, s: real, t: real, z: real, w: real)
    requires ExpLaws(exp) && z == x * exp(s) + t && w == (z - t) * exp(-s)
    ensures w == x
  {
    assert exp(s) * exp(-s) == 1.0;
    calc {
      w;
      == (x * exp(s)) * exp(-s);
      == x * (exp(s) * exp(-s));
    }
  }

  /** If x = (z - t) * exp(-s) then x * exp(s) + t = z. */
  lemma AffineRoundTripInverse(exp: real -> real, z: real, s: real, t: real, x: real, w: real)
    requires ExpLaws(exp) && x == (z - t) * exp(-s) && w == x * exp(s) + t
    ensures w == z
  {
    assert exp(s) * exp(-s) == 1.0;
    calc {
      w;
      == (z - t) * (exp(s) * exp(-s)) + t;
    }
  }

  /** `(z - t) * exp(-s)` undoes `x * exp(s) + t`. */
  lemma AffineInverse(x: seq<real>, s: seq<real>, t: seq<real>, exp: real -> real)
    requires |x| == |s| == |t| && ExpLaws(exp)
    ensures Times(Minus(Plus(Times(x, Apply(exp, s)), t), t), Apply(exp, Negate(s))) == x
  {
    var z := Plus(Times(x, Apply(exp, s)), t);
    var w := Times(Minus(z, t), Apply(exp, Negate(s)));
    forall k | 0 <= k < |x|
      ensures w[k] == x[k]
    {
      AffineAt(x, s, t, exp, k);
      InverseAffineAt(z, s, t, exp, k);
      AffineRoundTrip(exp, x[k], s[k], t[k], z[k], w[k]);
    }
  }

  /** `x * exp(s) + t` undoes `(z - t) * exp(-s)`. */
  lemma AffineInverseInverse(z: seq<real>, s: seq<real>, t: seq<real>, exp: real -> real)
    requires |z| == |s| == |t| && ExpLaws(exp)
    ensures Plus(Times(Times(Minus(z, t), Apply(exp, Negate(s))), Apply(exp, s)), t) == z
  {
    var x := Times(Minus(z, t), Apply(exp, Negate(s)));
    var w := Plus(Times(x, Apply(exp, s)), t);
    forall k | 0 <= k < |z|
      ensures w[k] == z[k]
    {
      InverseAffineAt(z, s, t, exp, k);
      AffineAt(x, s, t, exp, k);
      AffineRoundTripInverse(exp, z[k], s[k], t[k], x[k], w[k]);
    }
  }

  /** Where `s` and `t` are 0 the map `x * exp(s) + t` is the identity. */
  lemma AffineIdentityAt(x: seq<real>, s: seq<real>, t: seq<real>, exp: real -> real, k: nat)
    requires |x| == |s| == |t| && k < |x| && exp(0.0) == 1.0 && s[k] == 0.0 && t[k] == 0.0
    ensures Plus(Times(x, Apply(exp, s)), t)[k] == x[k]
  {
    AffineAt(x, s, t, exp, k);
  }

  /** So is `(z - t) * exp(-s)`. */
  lemma InverseAffineIdentityAt(z: seq<real>, s: seq<real>, t: seq<real>, exp: real -> real, k: nat)
    requires |z| == |s| == |t| && k < |z| && exp(0.0) == 1.0 && s[k] == 0.0 && t[k] == 0.0
    ensures Times(Minus(z, t), Apply(exp, Negate(s)))[k] == z[k]
  {
    InverseAffineAt(z, s, t, exp, k);
    assert -s[k] == 0.0;
  }

  function Sum(s: seq<real>): real
  {
    if |s| == 0 then 0.0 else s[0] + Sum(s[1..])
  }

  /** Elements `b * inner` up to `(b + 1) * inner` of a sequence of `n` rows of
      `inner` elements each: row `b`. */
  function Row(s: seq<real>, n: nat, inner: nat, b: nat): (r: seq<real>)
    requires |s| == Mul(n, inner) && b < n
    ensures |r| == inner
  {
    MulMono(b + 1, n, inner);
    s[Mul(b, inner) .. Mul(b, inner) + inner]
  }

  /** Row `b` of the flat data holds exactly the elements whose first index
      is `b`, in row-major order of the remaining axes. */
  lemma RowAt(t: Tensor, b: nat, rest: seq<nat>)
    requires WellFormed(t) && |t.dims| >= 1 && InBounds(t.dims, [b] + rest)
    ensures InBounds(t.dims[1..], rest)
    ensures Row(t.data, t.dims[0], Product(t.dims[1..]), b)[Ravel(t.dims[1..], rest)] == At(t, [b] + rest)
  {
    var idx := [b] + rest;
    assert idx[1..] == rest;
    assert InBounds(t.dims[1..], rest) by {
      forall d | 0 <= d < |rest| ensures rest[d] < t.dims[1..][d] {
        assert rest[d] == idx[d + 1];
      }
    }
    assert Ravel(t.dims, idx) == Mul(b, Product(t.dims[1..])) + Ravel(t.dims[1..], rest);
    MulMono(b + 1, t.dims[0], Product(t.dims[1..]));
  }

  /** The multi-index of batch element `b` at position `k` of its
      row-major enumeration is in bounds. */
  lemma BatchIndexInBounds(dims: seq<nat>, b: nat, k: nat)
    requires |dims| >= 1 && b < dims[0] && k < Product(dims[1..])
    ensures InBounds(dims, [b] + Unravel(dims[1..], k))
  {
    var idx := [b] + Unravel(dims[1..], k);
    forall d | 0 <= d < |dims| ensures idx[d] < dims[d] {
      if d > 0 {
        assert idx[d] == Unravel(dims[1..], k)[d - 1];
      }
    }
  }

  /** The elements of batch element `b` (`t[b]`), read by multi-index and
      enumerated in row-major order of the remaining axes. */
  function BatchElement(t: Tensor, b: nat): (e: seq<real>)
    requires WellFormed(t) && |t.dims| >= 1 && b < t.dims[0]
    ensures |e| == Product(t.dims[1..])
  {
    var inner := Product(t.dims[1..]);
    seq(inner, k requires 0 <= k < inner =>
      BatchIndexInBounds(t.dims, b, k);
      At(t, [b] + Unravel(t.dims[1..], k)))
  }

  /** Row `b` of the flat data is batch element `b`. */
  lemma RowIsBatchElement(t: Tensor, b: nat)
    requires WellFormed(t) && |t.dims| >= 1 && b < t.dims[0]
    ensures Row(t.data, t.dims[0], Product(t.dims[1..]), b) == BatchElement(t, b)
  {
    var row := Row(t.data, t.dims[0], Product(t.dims[1..]), b);
    var e := BatchElement(t, b);
    forall k | 0 <= k < |e| ensures row[k] == e[k] {
      var rest := Unravel(t.dims[1..], k);
      BatchIndexInBounds(t.dims, b, k);
      RowAt(t, b, rest);
      RavelUnravel(t.dims[1..], k);
    }
  }

  /** Every row of the `view(n, -1)` layout is its batch element. */
  lemma RowsAreBatchElements(t: Tensor)
    requires WellFormed(t) && |t.dims| >= 1
    ensures forall b :: 0 <= b < t.dims[0] ==>
      Row(t.data, t.dims[0], Product(t.dims[1..]), b) == BatchElement(t, b)
  {
    forall b | 0 <= b < t.dims[0]
      ensures Row(t.data, t.dims[0], Product(t.dims[1..]), b) == BatchElement(t, b)
    {
      RowIsBatchElement(t, b);
    }
  }

  /** `t.view(t.size(0), -1).sum(-1)`: one sum per batch element, over all
      the other axes. */
  function BatchSums(t: Tensor): (r: seq<real>)
    requires WellFormed(t) && |t.dims| >= 1
    ensures |r| == t.dims[0]
    ensures forall b :: 0 <= b < |r| ==> r[b] == Sum(BatchElement(t, b))
  {
    var n, inner := t.dims[0], Product(t.dims[1..]);
    RowsAreBatchElements(t);
    seq(n, b requires 0 <= b < n => Sum(Row(t.data, n, inner, b)))
  }
}
