# Affine coupling layer of pixyz, in Dafny

This project models `AffineCouplingLayer` and its two mask builders from
`pixyz/flows/coupling.py`. The layer is one invertible step of a
normalizing flow. A 0/1 mask splits the coordinates of the input into two
halves:

- the conditioning half (mask 1) passes through unchanged;
- the transformed half (mask 0) is scaled by `exp(log_s)` and shifted by `t`.

Caller-supplied networks compute `log_s` and `t` from `mask * x`, so they
see only the conditioning half.

The model has five modules:

- `Results` (`results.dfy`): `Option` and `Result`. Python's exceptions become `Failure` values.
- `Tensors` (`tensors.dfy`): a tensor is a shape plus its elements in row-major order. The module holds the index arithmetic (`Ravel`, `Unravel`), torch broadcasting of a smaller shape to the input's shape (`Broadcast`), the element-wise operations, the per-batch sums of `view(n, -1).sum(-1)`, and the affine map `x * exp(s) + t` with its inverse.
- `Masks` (`masks.dfy`): `checkerboard_mask` (a parity grid) and `channel_wise_mask`. The latter is a method that fills a fresh array by slice assignment, specified by the function `ChannelWise`.
- `Coupling` (`coupling.dfy`): the layer's logic as functions of its configuration. This covers the validation of `__init__`, `build_mask`, `mask * x`, `get_parameters`, the value of `forward` and of `inverse`, and the recorded log-determinant. The lemmas form a chain:
  1. the parameters vanish on the conditioning half;
  2. so `forward` and `inverse` are the identity there;
  3. so `mask * forward(x) == mask * x`;
  4. so `inverse` recomputes the same parameters;
  5. so `inverse(forward(x, y), y) == x`, and the other way round.
- `Layer` (`layer.dfy`): the object itself. It is a class whose attributes are fixed by the constructor, plus the field `_logdet_jacobian`, which `forward` overwrites.

Modelling choices:

- Values are `real`. `torch.exp` is a parameter `exp: real -> real`. The round trips assume only `ExpLaws(exp)`: exp(0) = 1 and exp(a) * exp(-a) = 1. The identities on the conditioning half assume only exp(0) = 1.
- The networks are deterministic functions of `(mask * x, y)`. `Option<Tensor>` stands for the optional `y`.
- `log_s.view(log_s.size(0), -1)` on an empty batch cannot infer the size for `-1`, and torch raises. The model reports this as `ShapeError` from `LogDet`. `Forward` then returns that error and records nothing.
- When the pair `scale_net`/`translate_net` and `scale_translate_net` are all given, the code keeps the pair and drops the combined network. The model does the same (`Configure`, `AffineCouplingLayer.New`).

## Model

| member | source | states |
|---|---|---|
| Masks.Checkerboard | pixyz/flows/coupling.py:196-199 | `checkerboard_mask(h, w, inverse)` is a well-formed (h, w) array, one element per grid position; its values are stated by the rows below |
| Masks.CheckerboardValue | pixyz/flows/coupling.py:196-197 | entry (i, j) of `checkerboard_mask(h, w, inverse)` is (i + j + (inverse is False)) mod 2, as 0.0/1.0 |
| Masks.CheckerboardAt | pixyz/flows/coupling.py:182-197 | the checkerboard entry at (i, j) is 1 exactly when i + j is even (plain) or odd (inverted), and 0 exactly in the other case |
| Masks.CheckerboardComplement | pixyz/flows/coupling.py:196-197 | every checkerboard entry is 0 or 1, and the plain and inverted grids of the same size add up to 1 everywhere |
| Masks.CheckerboardExample | pixyz/flows/coupling.py:182-187 | `checkerboard_mask(5, 4, False)` is the documented 5-by-4 array, starting with 1 at (0, 0) |
| Masks.InvertedCheckerboardExample | pixyz/flows/coupling.py:188-193 | `checkerboard_mask(5, 4, True)` is the documented 5-by-4 array, starting with 0 at (0, 0) |
| Masks.InvertedCheckerboard5By5 | pixyz/flows/coupling.py:69-77 | the inverted 5-by-5 grid is the one the `build_mask` documentation prints |
| Masks.GridSlice | pixyz/flows/coupling.py:196 | row i of the flat grid is the row of parities i + j + bias, j = 0 .. width-1 |
| Masks.GridComplement | pixyz/flows/coupling.py:197 | the grids with bias 1 and bias 0 are 0/1-valued and sum to 1 at every flat position |
| Masks.ChannelWiseMask | pixyz/flows/coupling.py:221-227 | filling a zero array with 1 on `[:C // 2]`, or on `[C // 2:]` when inverted, yields exactly `ChannelWise(C, inverse)` |
| Masks.ChannelWise | pixyz/flows/coupling.py:221-227 | the value of `channel_wise_mask(C, inverse)`: a well-formed vector of C elements, laid out as `ChannelWiseLayout` states |
| Masks.ChannelWiseLayout | pixyz/flows/coupling.py:221-225 | the plain mask is 1 exactly below C // 2, the inverted one exactly from C // 2 on; both are 0/1 and they sum to 1 |
| Masks.ChannelWiseExample | pixyz/flows/coupling.py:215-218 | C = 6 gives [1, 1, 1, 0, 0, 0] and [0, 0, 0, 1, 1, 1] |
| Coupling.Configure | pixyz/flows/coupling.py:27-44 | succeeds exactly for a known mask type together with either both separate networks or the combined one, else `ValueError`; the pair wins over the combined network; exactly one configuration is kept; the flag is stored as given |
| Coupling.BuildMask | pixyz/flows/coupling.py:80-95 | rank 4 gives a (1, 1, H, W) checkerboard or a (1, C, 1, 1) channel split; rank 2 without checkerboard gives a (1, F) split; every other case raises `ValueError`; the result always broadcasts to the input's shape |
| Coupling.MaskBinary | pixyz/flows/coupling.py:80-95 | every mask `build_mask` returns holds only 0 and 1 |
| Coupling.ExpandedMask | pixyz/flows/coupling.py:127-128 | the mask as `mask * x` sees it, broadcast to the input's shape: defined exactly when `build_mask` succeeds, one 0/1 entry per input element |
| Coupling.CheckerboardMaskMeaning | pixyz/flows/coupling.py:80-84 | on a rank-4 input, the checkerboard mask at (b, c, i, j) is 1 exactly when (i + j) mod 2 is 0 (plain) or 1 (inverted) |
| Coupling.ChannelMaskMeaning | pixyz/flows/coupling.py:85-93 | on a rank-4 or rank-2 input, the channel-wise mask is 1 exactly when the index on axis 1 is below half its size (plain) or not (inverted) |
| Coupling.ExpandedMaskAt | pixyz/flows/coupling.py:80-95 | at every input position, the mask is 0 or 1 and has the meaning of the two lemmas above |
| Coupling.MaskComplement | pixyz/flows/coupling.py:80-95 | at every input position, the plain and the inverted mask add up to 1 |
| Coupling.ChannelMaskExample | pixyz/flows/coupling.py:58-68 | a channel-wise, non-inverted layer on a (1, 4, 3, 3) input builds the (1, 4, 1, 1) mask [1, 1, 0, 0] |
| Coupling.CheckerboardMaskExample | pixyz/flows/coupling.py:69-77 | an inverted checkerboard layer on a (1, 2, 5, 5) input builds the documented (1, 1, 5, 5) mask |
| Coupling.MaskedInput | pixyz/flows/coupling.py:127-128 | `mask * x` has the input's shape, equals `x` where the mask is 1 and is 0 where it is 0; it fails exactly when `build_mask` does |
| Coupling.NetworkOutput | pixyz/flows/coupling.py:130-141 | with the separate networks, `log_s` is `scale_net(x_masked, y)` and `t` is `translate_net(x_masked, y)`; otherwise both come from `scale_translate_net(x_masked, y)` |
| Coupling.GetParameters | pixyz/flows/coupling.py:127-146 | `ValueError` when `build_mask` raises; otherwise succeeds exactly when the networks' outputs for `mask * x` have the input's shape, and then returns two tensors of that shape |
| Coupling.ParametersMasked | pixyz/flows/coupling.py:143-144 | `log_s` and `t` are 0 where the mask is 1, and equal the networks' outputs where it is 0 |
| Coupling.ParametersOfMaskedInput | pixyz/flows/coupling.py:127-141 | two inputs of the same shape with the same `mask * x` get the same `(log_s, t)` |
| Coupling.IdentityNetworksParameters | pixyz/flows/coupling.py:111-124 | with networks that return their input, as in the documented examples, every entry of `log_s` and `t` is 0 |
| Coupling.ForwardValue | pixyz/flows/coupling.py:149-150 | `forward` returns a tensor of the input's shape exactly when `get_parameters` succeeds, and its error otherwise |
| Coupling.LogDet | pixyz/flows/coupling.py:151-152 | one entry per batch element b, the sum of the `log_s` entries at every multi-index starting with b; raises exactly on an empty batch |
| Coupling.LogDetIgnoresConditioning | pixyz/flows/coupling.py:143-152 | only the transformed half contributes: two layers with the same mask whose networks' raw `log_s` agree where the mask is 0 record the same log-determinant |
| Coupling.InverseValue | pixyz/flows/coupling.py:157-158 | `inverse` returns a tensor of the input's shape exactly when `get_parameters` succeeds on it, and its error otherwise |
| Coupling.ForwardFixesConditioning | pixyz/flows/coupling.py:143-150 | if exp(0) = 1, `forward(x)` equals `x` at every position where the mask is 1 |
| Coupling.InverseFixesConditioning | pixyz/flows/coupling.py:156-158 | if exp(0) = 1, `inverse(z)` equals `z` at every position where the mask is 1 |
| Coupling.ForwardMasked | pixyz/flows/coupling.py:127-150 | `mask * forward(x) == mask * x` |
| Coupling.InverseMasked | pixyz/flows/coupling.py:156-158 | `mask * inverse(z) == mask * z` |
| Coupling.ParametersOfForward | pixyz/flows/coupling.py:127-150 | `get_parameters(forward(x, y), y)` is `get_parameters(x, y)` |
| Coupling.ParametersOfInverse | pixyz/flows/coupling.py:156-158 | `get_parameters(inverse(z, y), y)` is `get_parameters(z, y)` |
| Coupling.InverseForward | pixyz/flows/coupling.py:148-160 | under the exp laws, `inverse(forward(x, y), y) == x` whenever `forward` succeeds |
| Coupling.ForwardInverse | pixyz/flows/coupling.py:148-160 | under the exp laws, `forward(inverse(z, y), y) == z` whenever `inverse` succeeds |
| Tensors.MaskedComplementAt | pixyz/flows/coupling.py:143-144 | `a * (1 - mask)` is 0 where the mask is 1 and `a` where it is 0 |
| Tensors.AffineInverse | pixyz/flows/coupling.py:150-158 | under the exp laws, `(z - t) * exp(-s)` undoes `z = x * exp(s) + t`, element for element |
| Tensors.AffineInverseInverse | pixyz/flows/coupling.py:150-158 | under the exp laws, `x * exp(s) + t` undoes `x = (z - t) * exp(-s)` |
| Tensors.AffineRoundTrip | pixyz/flows/coupling.py:150-158 | for one element: if z = x * exp(s) + t and w = (z - t) * exp(-s), then w = x |
| Tensors.AffineRoundTripInverse | pixyz/flows/coupling.py:150-158 | for one element: if x = (z - t) * exp(-s) and w = x * exp(s) + t, then w = z |
| Tensors.AffineIdentityAt | pixyz/flows/coupling.py:150 | where s and t are 0 and exp(0) = 1, `x * exp(s) + t` is `x` |
| Tensors.InverseAffineIdentityAt | pixyz/flows/coupling.py:158 | where s and t are 0 and exp(0) = 1, `(z - t) * exp(-s)` is `z` |
| Tensors.BatchSums | pixyz/flows/coupling.py:152 | `t.view(t.size(0), -1).sum(-1)`: one entry per batch element b, the sum of `BatchElement(t, b)`, the elements read at the multi-indices that start with b |
| Tensors.RowAt | pixyz/flows/coupling.py:152 | row b of the `view(n, -1)` layout holds at the row-major position of `rest` the element at multi-index `[b] + rest` |
| Tensors.RowIsBatchElement | pixyz/flows/coupling.py:152 | row b of the `view(n, -1)` layout is exactly batch element b |
| Tensors.Broadcast | pixyz/flows/coupling.py:128 | the mask broadcast to the input's shape, one element per input position; `BroadcastAt` gives the element at each position |
| Tensors.BroadcastValues | pixyz/flows/coupling.py:128 | broadcasting the mask to the input's shape introduces no value the mask does not hold |
| Tensors.BroadcastAt | pixyz/flows/coupling.py:128 | a broadcast element at a multi-index is the mask element at the projected index (axes of size 1 read index 0) |
| Tensors.UnravelRavel | pixyz/flows/coupling.py:84 | the flat row-major position of a multi-index converts back to that multi-index |
| Tensors.RavelUnravel | pixyz/flows/coupling.py:84 | every flat position is the row-major position of its multi-index |
| Layer.AffineCouplingLayer.New | pixyz/flows/coupling.py:21-44 | construction fails with `ValueError` exactly when `Configure` does; otherwise it gives a fresh layer with the configuration `Configure` chooses and no recorded log-determinant |
| Layer.AffineCouplingLayer.constructor | pixyz/flows/coupling.py:28-42 | given one valid network configuration, stores the mask type, flag and networks as attributes, gives a `Valid` layer and no recorded log-determinant |
| Layer.AffineCouplingLayer.Forward | pixyz/flows/coupling.py:148-154 | returns `ForwardValue`. With `compute_jacobian` it records `LogDet` as `_logdet_jacobian`, or raises its error when the view fails. Without it, or when the parameters fail, the field is left unchanged |
| Layer.AffineCouplingLayer.Inverse | pixyz/flows/coupling.py:156-160 | returns `InverseValue` and changes no field, `_logdet_jacobian` included |

## Left out

- Floating point: values are reals, so the round trips hold exactly, where float32 holds them only up to rounding. The dtype `float32`, `torch.from_numpy`, `.to(x.device)` and autograd are not modelled.
- `torch.exp` is not defined. Only the two laws the proofs need are assumed, as a precondition (`ExpLaws`).
- The parameter networks' internals are not modelled. They are arbitrary deterministic functions of `(mask * x, y)`. Calling them with or without `y` becomes a call with `Option<Tensor>`.
- Coupling.GetParameters: a network output whose shape is not the input's is reported as `ShapeError`. torch would broadcast some such shapes in `log_s * (1 - mask)` instead of raising.
- The `Flow` base class is not part of this model. This covers `in_channels` and `super().__init__`, the initial value of `_logdet_jacobian` (taken to be `None`), and how flows compose.
- `extra_repr` is string formatting only.
- Python truthiness is not modelled. Network presence is an `Option`, so a falsy, non-`None` network counts as present. The flag is a `bool`, so the identity test `inverse_mask is False` cannot see non-bool flags such as `0`.
