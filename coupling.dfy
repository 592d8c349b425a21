/** The affine coupling layer: a mask splits the coordinates of the input in
    a conditioning half (mask 1), which passes through unchanged, and a
    transformed half (mask 0), which is scaled by `exp(log_s)` and shifted by
    `t`, both computed by caller-supplied networks from the conditioning
    half alone. */
module Coupling {
  import opened Results
  import opened Tensors
  import Masks

  datatype MaskType = Checkerboard | ChannelWise

  /** The two exception kinds: Python's `ValueError`, and a network output
      whose shape is not the input's (an error of the tensor library). */
  datatype Error = ValueError | ShapeError

  /** A scale or translation network: `net(x_masked)` or `net(x_masked, y)`. */
  type Net = (Tensor, Option<Tensor>) -> Tensor

  /** A combined network returning `(log_s, t)`. */
  type PairNet = (Tensor, Option<Tensor>) -> (Tensor, Tensor)

  /** The attributes `__init__` sets: `mask_type`, `inverse_mask`,
      `scale_net`, `translate_net` and `scale_translate_net`. */
  datatype LayerConfig = LayerConfig(
    maskType: MaskType,
    inverseMask: bool,
    scaleNet: Option<Net>,
    translateNet: Option<Net>,
    scaleTranslateNet: Option<PairNet>)

  /** Exactly one network configuration is in use: the pair, or the
      combined network. */
  predicate ValidConfig(c: LayerConfig)
  {
    || (c.scaleNet.Some? && c.translateNet.Some? && c.scaleTranslateNet.None?)
    || (c.scaleNet.None? && c.translateNet.None? && c.scaleTranslateNet.Some?)
  }

  /** The validation and network selection of `__init__`. */
  function Configure(maskType: string, scaleNet: Option<Net>, translateNet: Option<Net>,
                     scaleTranslateNet: Option<PairNet>, inverseMask: bool): (r: Result<LayerConfig, Error>)
    ensures r.Success? <==>
      (maskType == "checkerboard" || maskType == "channel_wise") &&
      ((scaleNet.Some? && translateNet.Some?) || scaleTranslateNet.Some?)
    ensures r.Failure? ==> r.error == ValueError
    ensures r.Success? ==>
      && ValidConfig(r.value)
      && r.value.inverseMask == inverseMask
      && (r.value.maskType == Checkerboard <==> maskType == "checkerboard")
    ensures r.Success? && scaleNet.Some? && translateNet.Some? ==>
      r.value.scaleNet == scaleNet && r.value.translateNet == translateNet && r.value.scaleTranslateNet.None?
    ensures r.Success? && !(scaleNet.Some? && translateNet.Some?) ==>
      r.value.scaleTranslateNet == scaleTranslateNet && r.value.scaleNet.None? && r.value.translateNet.None?
  {
    if maskType != "checkerboard" && maskType != "channel_wise" then Failure(ValueError)
    else
      var kind := if maskType == "checkerboard" then Checkerboard else ChannelWise;
      if scaleNet.Some? && translateNet.Some? then
        Success(LayerConfig(kind, inverseMask, scaleNet, translateNet, None))
      else if scaleTranslateNet.Some? then
        Success(LayerConfig(kind, inverseMask, None, None, scaleTranslateNet))
      else
        Failure(ValueError)
  }

  /** `build_mask(x)` for an input of shape `dims`: rank 4 takes a
      checkerboard over (H, W) viewed as (1, 1, H, W) or a channel split
      viewed as (1, C, 1, 1); rank 2 takes a feature split viewed as (1, F);
      a checkerboard on rank 2 and every other rank raise `ValueError`. */
  function BuildMask(c: LayerConfig, dims: seq<nat>): (r: Result<Tensor, Error>)
    ensures r.Success? <==> |dims| == 4 || (|dims| == 2 && c.maskType != Checkerboard)
    ensures r.Failure? ==> r.error == ValueError
    ensures r.Success? ==> WellFormed(r.value) && Broadcastable(r.value.dims, dims)
    ensures r.Success? && |dims| == 4 && c.maskType == Checkerboard ==>
      r.value.dims == [1, 1, dims[2], dims[3]] &&
      r.value.data == Masks.Checkerboard(dims[2], dims[3], c.inverseMask).data
    ensures r.Success? && |dims| == 4 && c.maskType == ChannelWise ==>
      r.value.dims == [1, dims[1], 1, 1] &&
      r.value.data == Masks.ChannelWise(dims[1], c.inverseMask).data
    ensures r.Success? && |dims| == 2 ==>
      r.value.dims == [1, dims[1]] &&
      r.value.data == Masks.ChannelWise(dims[1], c.inverseMask).data
  {
    if |dims| == 4 then
      var channels, height, width := dims[1], dims[2], dims[3];
      ProductOfVector(channels);
      ProductOfGrid(height, width);
      if c.maskType == Checkerboard then
        Success(View(Masks.Checkerboard(height, width, c.inverseMask), [1, 1, height, width]))
      else
        Success(View(Masks.ChannelWise(channels, c.inverseMask), [1, channels, 1, 1]))
    else if |dims| == 2 && c.maskType != Checkerboard then
      var features := dims[1];
      ProductOfVector(features);
      Success(View(Masks.ChannelWise(features, c.inverseMask), [1, features]))
    else
      Failure(ValueError)
  }

  /** Every entry is 0 or 1. */
  predicate Binary(m: seq<real>)
  {
    forall k :: 0 <= k < |m| ==> m[k] == 0.0 || m[k] == 1.0
  }

  /** `build_mask` produces only 0 and 1. */
  lemma MaskBinary(c: LayerConfig, dims: seq<nat>)
    requires BuildMask(c, dims).Success?
    ensures Binary(BuildMask(c, dims).value.data)
  {
    if |dims| == 4 && c.maskType == Checkerboard {
      Masks.CheckerboardComplement(dims[2], dims[3]);
    }
  }

  lemma BroadcastBinary(m: Tensor, dims: seq<nat>)
    requires WellFormed(m) && Broadcastable(m.dims, dims) && Binary(m.data)
    ensures Binary(Broadcast(m, dims))
  {
    forall k | 0 <= k < Product(dims)
      ensures Broadcast(m, dims)[k] == 0.0 || Broadcast(m, dims)[k] == 1.0
    {
      BroadcastValues(m, dims, k);
    }
  }

  /** The mask of `build_mask` broadcast to the input's shape, as `mask * x`
      and `1 - mask` see it: one 0/1 entry per input coordinate. */
  function ExpandedMask(c: LayerConfig, dims: seq<nat>): (r: Result<seq<real>, Error>)
    ensures r.Success? <==> BuildMask(c, dims).Success?
    ensures r.Failure? ==> r.error == ValueError
    ensures r.Success? ==> |r.value| == Product(dims) && Binary(r.value)
  {
    var m :- BuildMask(c, dims);
    MaskBinary(c, dims);
    BroadcastBinary(m, dims);
    Success(Broadcast(m, dims))
  }

  // The mask read at a multi-index of the input

  /** The mask entry that input position `idx` is multiplied by. */
  function MaskAt(c: LayerConfig, dims: seq<nat>, idx: seq<nat>): real
    requires BuildMask(c, dims).Success? && InBounds(dims, idx)
  {
    ExpandedMask(c, dims).value[Ravel(dims, idx)]
  }

  lemma ExpandedIsBroadcast(c: LayerConfig, dims: seq<nat>)
    requires BuildMask(c, dims).Success?
    ensures ExpandedMask(c, dims).value == Broadcast(BuildMask(c, dims).value, dims)
  {
  }

  lemma FeatureMaskAt(c: LayerConfig, dims: seq<nat>, idx: seq<nat>)
    requires |dims| == 2 && c.maskType == ChannelWise && InBounds(dims, idx)
    ensures BuildMask(c, dims).Success?
    ensures MaskAt(c, dims, idx) == Masks.ChannelWise(dims[1], c.inverseMask).data[idx[1]]
  {
    ExpandedIsBroadcast(c, dims);
    BroadcastFeatureAt(BuildMask(c, dims).value, dims, idx);
  }

  lemma ChannelMaskAt(c: LayerConfig, dims: seq<nat>, idx: seq<nat>)
    requires |dims| == 4 && c.maskType == ChannelWise && InBounds(dims, idx)
    ensures BuildMask(c, dims).Success?
    ensures MaskAt(c, dims, idx) == Masks.ChannelWise(dims[1], c.inverseMask).data[idx[1]]
  {
    ExpandedIsBroadcast(c, dims);
    BroadcastChannelAt(BuildMask(c, dims).value, dims, idx);
  }

  /** The checkerboard before broadcasting: grid entry (i, j) has the parity
      of i + j, shifted by one unless the mask is inverted. */
  lemma CheckerboardMaskData(c: LayerConfig, dims: seq<nat>, idx: seq<nat>)
    requires |dims| == 4 && c.maskType == Checkerboard && InBounds(dims, idx)
    ensures BuildMask(c, dims).value.data[Ravel([dims[2], dims[3]], [idx[2], idx[3]])] ==
      Masks.Parity(idx[2] + idx[3] + Masks.Bias(c.inverseMask))
  {
    Masks.CheckerboardValue(dims[2], dims[3], c.inverseMask, idx[2], idx[3]);
  }

  lemma CheckerboardMaskAt(c: LayerConfig, dims: seq<nat>, idx: seq<nat>)
    requires |dims| == 4 && c.maskType == Checkerboard && InBounds(dims, idx)
    ensures BuildMask(c, dims).Success?
    ensures MaskAt(c, dims, idx) == Masks.Parity(idx[2] + idx[3] + Masks.Bias(c.inverseMask))
  {
    CheckerboardMaskData(c, dims, idx);
    ExpandedIsBroadcast(c, dims);
    BroadcastGridAt(BuildMask(c, dims).value, dims, idx);
  }

  /** On a rank-4 input the checkerboard marks position (b, c, i, j) with 1
      exactly when i + j is even, or odd for the inverted mask. */
  lemma CheckerboardMaskMeaning(c: LayerConfig, dims: seq<nat>, idx: seq<nat>)
    requires |dims| == 4 && c.maskType == Checkerboard && InBounds(dims, idx)
    ensures BuildMask(c, dims).Success?
    ensures MaskAt(c, dims, idx) == 1.0 <==>
      (idx[2] + idx[3]) % 2 == (if c.inverseMask then 1 else 0)
  {
    CheckerboardMaskAt(c, dims, idx);
    Masks.ParityOfShift(idx[2] + idx[3], c.inverseMask);
  }

  /** The channel-wise mask marks a position with 1 exactly when its index on
      axis 1 lies below half the axis, or at or above it for the inverted mask. */
  lemma ChannelMaskMeaning(c: LayerConfig, dims: seq<nat>, idx: seq<nat>)
    requires (|dims| == 4 || |dims| == 2) && c.maskType == ChannelWise && InBounds(dims, idx)
    ensures BuildMask(c, dims).Success?
    ensures MaskAt(c, dims, idx) == 1.0 <==> (idx[1] < dims[1] / 2) != c.inverseMask
  {
    if |dims| == 4 {
      ChannelMaskAt(c, dims, idx);
    } else {
      FeatureMaskAt(c, dims, idx);
    }
  }

  /** The mask as a function of the input position: a checkerboard over the
      last two axes of a rank-4 input, a split of axis 1 otherwise. */
  lemma ExpandedMaskAt(c: LayerConfig, dims: seq<nat>, idx: seq<nat>)
    requires BuildMask(c, dims).Success? && InBounds(dims, idx)
    ensures var v := MaskAt(c, dims, idx);
      (v == 0.0 || v == 1.0) &&
      (|dims| == 4 && c.maskType == Checkerboard ==>
        (v == 1.0 <==> (idx[2] + idx[3]) % 2 == (if c.inverseMask then 1 else 0))) &&
      (c.maskType == ChannelWise ==>
        (v == 1.0 <==> (idx[1] < dims[1] / 2) != c.inverseMask))
  {
    if c.maskType == Checkerboard {
      CheckerboardMaskMeaning(c, dims, idx);
    } else {
      ChannelMaskMeaning(c, dims, idx);
    }
  }

  /** The plain and the inverted mask of every supported shape add up to 1
      at every input position. */
  lemma MaskComplement(c: LayerConfig, dims: seq<nat>, idx: seq<nat>)
    requires BuildMask(c, dims).Success? && InBounds(dims, idx)
    ensures MaskAt(c.(inverseMask := false), dims, idx) + MaskAt(c.(inverseMask := true), dims, idx) == 1.0
  {
    ExpandedMaskAt(c.(inverseMask := false), dims, idx);
    ExpandedMaskAt(c.(inverseMask := true), dims, idx);
  }

  /** The channel-wise mask the documentation shows for a (1, 4, 3, 3)
      input: channels 0 and 1 marked, viewed as (1, 4, 1, 1). */
  lemma ChannelMaskExample(c: LayerConfig)
    requires c.maskType == ChannelWise && !c.inverseMask
    ensures BuildMask(c, [1, 4, 3, 3]) == Success(Tensor([1, 4, 1, 1], [1.0, 1.0, 0.0, 0.0]))
  {
    assert Masks.ChannelWise(4, false).data == [1.0, 1.0, 0.0, 0.0];
  }

  /** The inverted checkerboard the documentation shows for a (1, 2, 5, 5)
      input, row by row, viewed as (1, 1, 5, 5). */
  lemma CheckerboardMaskExample(c: LayerConfig)
    requires c.maskType == Checkerboard && c.inverseMask
    ensures BuildMask(c, [1, 2, 5, 5]).Success?
    ensures var m := BuildMask(c, [1, 2, 5, 5]).value;
      m.dims == [1, 1, 5, 5] && |m.data| == 25 &&
      m.data[0..5] == [0.0, 1.0, 0.0, 1.0, 0.0] &&
      m.data[5..10] == [1.0, 0.0, 1.0, 0.0, 1.0] &&
      m.data[10..15] == [0.0, 1.0, 0.0, 1.0, 0.0] &&
      m.data[15..20] == [1.0, 0.0, 1.0, 0.0, 1.0] &&
      m.data[20..25] == [0.0, 1.0, 0.0, 1.0, 0.0]
  {
    Masks.InvertedCheckerboard5By5();
  }

  /** `x_masked = mask * x`: the input with its transformed half zeroed. */
  function MaskedInput(c: LayerConfig, x: Tensor): (r: Result<Tensor, Error>)
    requires WellFormed(x)
    ensures r.Success? <==> BuildMask(c, x.dims).Success?
    ensures r.Failure? ==> r.error == ValueError
    ensures r.Success? ==>
      var m := ExpandedMask(c, x.dims).value;
      && WellFormed(r.value) && r.value.dims == x.dims
      && (forall k :: 0 <= k < |m| && m[k] == 1.0 ==> r.value.data[k] == x.data[k])
      && (forall k :: 0 <= k < |m| && m[k] == 0.0 ==> r.value.data[k] == 0.0)
  {
    var m :- ExpandedMask(c, x.dims);
    Success(Tensor(x.dims, Times(m, x.data)))
  }

  /** The `(log_s, t)` pair coming out of the configured network(s); the
      combined network is tried first, as `get_parameters` does. */
  datatype Params = Params(logS: Tensor, t: Tensor)

  function NetworkOutput(c: LayerConfig, xMasked: Tensor, y: Option<Tensor>): (r: Params)
    requires ValidConfig(c)
    ensures c.scaleNet.Some? ==>
      r.logS == c.scaleNet.value(xMasked, y) && r.t == c.translateNet.value(xMasked, y)
    ensures c.scaleNet.None? ==> (r.logS, r.t) == c.scaleTranslateNet.value(xMasked, y)
  {
    if c.scaleTranslateNet.Some? then
      var (logS, t) := c.scaleTranslateNet.value(xMasked, y);
      Params(logS, t)
    else
      Params(c.scaleNet.value(xMasked, y), c.translateNet.value(xMasked, y))
  }

  /** The parameters shaped like `x`. */
  predicate Fits(p: Params, x: Tensor)
  {
    p.logS.dims == x.dims && WellFormed(p.logS) && p.t.dims == x.dims && WellFormed(p.t)
  }

  /** `get_parameters(x, y)`: the networks receive `mask * x` only, and their
      outputs are multiplied by `1 - mask`. */
  function GetParameters(c: LayerConfig, x: Tensor, y: Option<Tensor>): (r: Result<Params, Error>)
    requires ValidConfig(c) && WellFormed(x)
    ensures BuildMask(c, x.dims).Failure? ==> r == Failure(ValueError)
    ensures BuildMask(c, x.dims).Success? ==>
      (r.Success? <==> Fits(NetworkOutput(c, MaskedInput(c, x).value, y), x))
    ensures r.Failure? ==> r.error == ValueError || r.error == ShapeError
    ensures r.Success? ==> Fits(r.value, x)
  {
    var masked := MaskedInput(c, x);
    if masked.Failure? then Failure(masked.error)
    else
    var xMasked := masked.value;
    var m := ExpandedMask(c, x.dims).value;
    var raw := NetworkOutput(c, xMasked, y);
    if !Fits(raw, x) then Failure(ShapeError)
    else
      Success(Params(Tensor(x.dims, Times(raw.logS.data, OneMinus(m))),
                     Tensor(x.dims, Times(raw.t.data, OneMinus(m)))))
  }

  /** The parameters vanish on the conditioning half (mask 1) and are the
      networks' outputs on the transformed half (mask 0). */
  lemma ParametersMasked(c: LayerConfig, x: Tensor, y: Option<Tensor>, k: nat)
    requires ValidConfig(c) && WellFormed(x) && GetParameters(c, x, y).Success? && k < |x.data|
    ensures var m := ExpandedMask(c, x.dims).value;
      var p := GetParameters(c, x, y).value;
      var raw := NetworkOutput(c, MaskedInput(c, x).value, y);
      (m[k] == 1.0 ==> p.logS.data[k] == 0.0 && p.t.data[k] == 0.0) &&
      (m[k] == 0.0 ==> p.logS.data[k] == raw.logS.data[k] && p.t.data[k] == raw.t.data[k])
  {
    var m := ExpandedMask(c, x.dims).value;
    var raw := NetworkOutput(c, MaskedInput(c, x).value, y);
    MaskedComplementAt(raw.logS.data, m, k);
    MaskedComplementAt(raw.t.data, m, k);
  }

  /** With networks that return their input, as in the documentation's
      examples, `log_s` and `t` vanish everywhere: the networks see zeros
      where the mask is 0, and their output is zeroed where it is 1. */
  lemma IdentityNetworksParameters(c: LayerConfig, x: Tensor, y: Option<Tensor>, k: nat)
    requires ValidConfig(c) && c.scaleTranslateNet.None? && WellFormed(x)
    requires forall a, b :: c.scaleNet.value(a, b) == a
    requires forall a, b :: c.translateNet.value(a, b) == a
    requires BuildMask(c, x.dims).Success? && k < |x.data|
    ensures GetParameters(c, x, y).Success?
    ensures GetParameters(c, x, y).value.logS.data[k] == 0.0
    ensures GetParameters(c, x, y).value.t.data[k] == 0.0
  {
    var masked := MaskedInput(c, x).value;
    assert NetworkOutput(c, masked, y) == Params(masked, masked);
    ParametersMasked(c, x, y, k);
  }

  /** The value `forward(x, y)` returns: `x * exp(log_s) + t`. */
  function ForwardValue(c: LayerConfig, x: Tensor, y: Option<Tensor>, exp: real -> real): (r: Result<Tensor, Error>)
    requires ValidConfig(c) && WellFormed(x)
    ensures r.Success? <==> GetParameters(c, x, y).Success?
    ensures r.Failure? ==> r.error == GetParameters(c, x, y).error
    ensures r.Success? ==> WellFormed(r.value) && r.value.dims == x.dims
  {
    var p :- GetParameters(c, x, y);
    Success(Tensor(x.dims, Plus(Times(x.data, Apply(exp, p.logS.data)), p.t.data)))
  }

  /** The log-determinant `forward` records when asked to:
      `log_s.view(log_s.size(0), -1).sum(-1)`, one sum per batch element
      over all its other entries. On an empty batch the size the view
      should infer is ambiguous and the view raises. */
  function LogDet(c: LayerConfig, x: Tensor, y: Option<Tensor>): (r: Result<seq<real>, Error>)
    requires ValidConfig(c) && WellFormed(x) && GetParameters(c, x, y).Success?
    ensures |x.dims| >= 1
    ensures r.Failure? <==> x.dims[0] == 0
    ensures r.Failure? ==> r.error == ShapeError
    ensures r.Success? ==> |r.value| == x.dims[0] && forall b :: 0 <= b < |r.value| ==>
      r.value[b] == Sum(BatchElement(GetParameters(c, x, y).value.logS, b))
  {
    if x.dims[0] == 0 then Failure(ShapeError)
    else Success(BatchSums(GetParameters(c, x, y).value.logS))
  }

  /** The mask depends on the mask type and the flag only. */
  lemma SameMask(c: LayerConfig, c': LayerConfig, dims: seq<nat>)
    requires c'.maskType == c.maskType && c'.inverseMask == c.inverseMask
    ensures ExpandedMask(c', dims) == ExpandedMask(c, dims)
  {
    assert BuildMask(c', dims) == BuildMask(c, dims);
  }

  /** The log-determinant depends on the networks' raw `log_s` only where the
      mask is 0: two layers with the same mask whose networks agree there
      record the same log-determinant, whatever they output on the
      conditioning half. */
  lemma LogDetIgnoresConditioning(c: LayerConfig, c': LayerConfig, x: Tensor, y: Option<Tensor>)
    requires ValidConfig(c) && ValidConfig(c') && WellFormed(x)
    requires c'.maskType == c.maskType && c'.inverseMask == c.inverseMask
    requires GetParameters(c, x, y).Success? && GetParameters(c', x, y).Success?
    requires forall k :: 0 <= k < |x.data| && ExpandedMask(c, x.dims).value[k] == 0.0 ==>
      NetworkOutput(c, MaskedInput(c, x).value, y).logS.data[k] ==
      NetworkOutput(c', MaskedInput(c', x).value, y).logS.data[k]
    ensures LogDet(c, x, y) == LogDet(c', x, y)
  {
    var m := ExpandedMask(c, x.dims).value;
    var p, p' := GetParameters(c, x, y).value, GetParameters(c', x, y).value;
    SameMask(c, c', x.dims);
    forall k | 0 <= k < |x.data| ensures p.logS.data[k] == p'.logS.data[k] {
      ParametersMasked(c, x, y, k);
      ParametersMasked(c', x, y, k);
    }
    assert p.logS == p'.logS;
  }

  /** The value `inverse(z, y)` returns: `(z - t) * exp(-log_s)`, with the
      parameters computed from `z`. */
  function InverseValue(c: LayerConfig, z: Tensor, y: Option<Tensor>, exp: real -> real): (r: Result<Tensor, Error>)
    requires ValidConfig(c) && WellFormed(z)
    ensures r.Success? <==> GetParameters(c, z, y).Success?
    ensures r.Failure? ==> r.error == GetParameters(c, z, y).error
    ensures r.Success? ==> WellFormed(r.value) && r.value.dims == z.dims
  {
    var p :- GetParameters(c, z, y);
    Success(Tensor(z.dims, Times(Minus(z.data, p.t.data), Apply(exp, Negate(p.logS.data)))))
  }

  // Forward and inverse

  lemma ForwardData(c: LayerConfig, x: Tensor, y: Option<Tensor>, exp: real -> real)
    requires ValidConfig(c) && WellFormed(x) && ForwardValue(c, x, y, exp).Success?
    ensures ForwardValue(c, x, y, exp).value.data ==
      Plus(Times(x.data, Apply(exp, GetParameters(c, x, y).value.logS.data)), GetParameters(c, x, y).value.t.data)
  {
  }

  lemma InverseData(c: LayerConfig, z: Tensor, y: Option<Tensor>, exp: real -> real)
    requires ValidConfig(c) && WellFormed(z) && InverseValue(c, z, y, exp).Success?
    ensures InverseValue(c, z, y, exp).value.data ==
      Times(Minus(z.data, GetParameters(c, z, y).value.t.data), Apply(exp, Negate(GetParameters(c, z, y).value.logS.data)))
  {
  }

  /** `forward` leaves the conditioning half (mask 1) of its input as it is. */
  lemma ForwardFixesConditioning(c: LayerConfig, x: Tensor, y: Option<Tensor>, exp: real -> real, k: nat)
    requires ValidConfig(c) && WellFormed(x) && ForwardValue(c, x, y, exp).Success?
    requires exp(0.0) == 1.0 && k < |x.data| && ExpandedMask(c, x.dims).value[k] == 1.0
    ensures ForwardValue(c, x, y, exp).value.data[k] == x.data[k]
  {
    ForwardData(c, x, y, exp);
    ParametersMasked(c, x, y, k);
    var p := GetParameters(c, x, y).value;
    AffineIdentityAt(x.data, p.logS.data, p.t.data, exp, k);
  }

  /** So does `inverse`. */
  lemma InverseFixesConditioning(c: LayerConfig, z: Tensor, y: Option<Tensor>, exp: real -> real, k: nat)
    requires ValidConfig(c) && WellFormed(z) && InverseValue(c, z, y, exp).Success?
    requires exp(0.0) == 1.0 && k < |z.data| && ExpandedMask(c, z.dims).value[k] == 1.0
    ensures InverseValue(c, z, y, exp).value.data[k] == z.data[k]
  {
    InverseData(c, z, y, exp);
    ParametersMasked(c, z, y, k);
    var p := GetParameters(c, z, y).value;
    InverseAffineIdentityAt(z.data, p.logS.data, p.t.data, exp, k);
  }

  /** The parameters see the input only through `mask * x` and its shape. */
  lemma ParametersOfMaskedInput(c: LayerConfig, x: Tensor, x': Tensor, y: Option<Tensor>)
    requires ValidConfig(c) && WellFormed(x) && WellFormed(x') && x.dims == x'.dims
    requires MaskedInput(c, x) == MaskedInput(c, x')
    ensures GetParameters(c, x, y) == GetParameters(c, x', y)
  {
  }

  /** `mask * forward(x)` is `mask * x`: the networks see the same input. */
  lemma ForwardMasked(c: LayerConfig, x: Tensor, y: Option<Tensor>, exp: real -> real)
    requires ValidConfig(c) && WellFormed(x) && ForwardValue(c, x, y, exp).Success? && exp(0.0) == 1.0
    ensures MaskedInput(c, ForwardValue(c, x, y, exp).value) == MaskedInput(c, x)
  {
    var z := ForwardValue(c, x, y, exp).value;
    var m := ExpandedMask(c, x.dims).value;
    forall k | 0 <= k < |x.data|
      ensures Times(m, z.data)[k] == Times(m, x.data)[k]
    {
      if m[k] == 1.0 {
        ForwardFixesConditioning(c, x, y, exp, k);
      }
    }
    assert Times(m, z.data) == Times(m, x.data);
  }

  /** `mask * inverse(z)` is `mask * z`. */
  lemma InverseMasked(c: LayerConfig, z: Tensor, y: Option<Tensor>, exp: real -> real)
    requires ValidConfig(c) && WellFormed(z) && InverseValue(c, z, y, exp).Success? && exp(0.0) == 1.0
    ensures MaskedInput(c, InverseValue(c, z, y, exp).value) == MaskedInput(c, z)
  {
    var x := InverseValue(c, z, y, exp).value;
    var m := ExpandedMask(c, z.dims).value;
    forall k | 0 <= k < |z.data|
      ensures Times(m, x.data)[k] == Times(m, z.data)[k]
    {
      if m[k] == 1.0 {
        InverseFixesConditioning(c, z, y, exp, k);
      }
    }
    assert Times(m, x.data) == Times(m, z.data);
  }

  /** `forward` does not change the parameters: `inverse` recomputes the
      very `log_s` and `t` that `forward` used. */
  lemma ParametersOfForward(c: LayerConfig, x: Tensor, y: Option<Tensor>, exp: real -> real)
    requires ValidConfig(c) && WellFormed(x) && ForwardValue(c, x, y, exp).Success? && exp(0.0) == 1.0
    ensures GetParameters(c, ForwardValue(c, x, y, exp).value, y) == GetParameters(c, x, y)
  {
    ForwardMasked(c, x, y, exp);
    ParametersOfMaskedInput(c, ForwardValue(c, x, y, exp).value, x, y);
  }

  /** Nor does `inverse`. */
  lemma ParametersOfInverse(c: LayerConfig, z: Tensor, y: Option<Tensor>, exp: real -> real)
    requires ValidConfig(c) && WellFormed(z) && InverseValue(c, z, y, exp).Success? && exp(0.0) == 1.0
    ensures GetParameters(c, InverseValue(c, z, y, exp).value, y) == GetParameters(c, z, y)
  {
    InverseMasked(c, z, y, exp);
    ParametersOfMaskedInput(c, InverseValue(c, z, y, exp).value, z, y);
  }

  /** `inverse(forward(x, y), y) == x`. */
  lemma InverseForward(c: LayerConfig, x: Tensor, y: Option<Tensor>, exp: real -> real)
    requires ValidConfig(c) && WellFormed(x) && ForwardValue(c, x, y, exp).Success? && ExpLaws(exp)
    ensures InverseValue(c, ForwardValue(c, x, y, exp).value, y, exp) == Success(x)
  {
    var z := ForwardValue(c, x, y, exp).value;
    var p := GetParameters(c, x, y).value;
    ParametersOfForward(c, x, y, exp);
    ForwardData(c, x, y, exp);
    InverseData(c, z, y, exp);
    AffineInverse(x.data, p.logS.data, p.t.data, exp);
  }

  /** `forward(inverse(z, y), y) == z`. */
  lemma ForwardInverse(c: LayerConfig, z: Tensor, y: Option<Tensor>, exp: real -> real)
    requires ValidConfig(c) && WellFormed(z) && InverseValue(c, z, y, exp).Success? && ExpLaws(exp)
    ensures ForwardValue(c, InverseValue(c, z, y, exp).value, y, exp) == Success(z)
  {
    var x := InverseValue(c, z, y, exp).value;
    var p := GetParameters(c, z, y).value;
    ParametersOfInverse(c, z, y, exp);
    InverseData(c, z, y, exp);
    ForwardData(c, x, y, exp);
    AffineInverseInverse(z.data, p.logS.data, p.t.data, exp);
  }
}
