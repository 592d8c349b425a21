/** The `AffineCouplingLayer` object: the attributes `__init__` sets once,
    and `_logdet_jacobian`, which every `forward` asked for the Jacobian
    overwrites. */
module Layer {
  import opened Results
  import opened Tensors
  import opened Coupling

  class AffineCouplingLayer {
    const maskType: MaskType
    const inverseMask: bool
    const scaleNet: Option<Net>
    const translateNet: Option<Net>
    const scaleTranslateNet: Option<PairNet>
    /** `_logdet_jacobian`: `None` until a `forward` records one. */
    var logdetJacobian: Option<seq<real>>

    /** The attributes as one value, for the functions of `Coupling`. */
    function Config(): LayerConfig
    {
      LayerConfig(maskType, inverseMask, scaleNet, translateNet, scaleTranslateNet)
    }

    /** Exactly one network configuration is kept. */
    predicate Valid()
    {
      ValidConfig(Config())
    }

    constructor (maskType: MaskType, inverseMask: bool, scaleNet: Option<Net>,
                 translateNet: Option<Net>, scaleTranslateNet: Option<PairNet>)
      requires ValidConfig(LayerConfig(maskType, inverseMask, scaleNet, translateNet, scaleTranslateNet))
      ensures Valid()
      ensures Config() == LayerConfig(maskType, inverseMask, scaleNet, translateNet, scaleTranslateNet)
      ensures logdetJacobian.None?
    {
      this.maskType := maskType;
      this.inverseMask := inverseMask;
      this.scaleNet := scaleNet;
      this.translateNet := translateNet;
      this.scaleTranslateNet := scaleTranslateNet;
      logdetJacobian := None;
    }

    /** `AffineCouplingLayer(in_channels, mask_type, scale_net, translate_net,
        scale_translate_net, inverse_mask)`: the layer `Configure` describes,
        or the `ValueError` it raises. */
    static method New(maskType: string, scaleNet: Option<Net>, translateNet: Option<Net>,
                      scaleTranslateNet: Option<PairNet>, inverseMask: bool)
      returns (r: Result<AffineCouplingLayer, Error>)
      ensures r.Failure? <==> Configure(maskType, scaleNet, translateNet, scaleTranslateNet, inverseMask).Failure?
      ensures r.Failure? ==> r.error == ValueError
      ensures r.Success? ==>
        && fresh(r.value)
        && r.value.Valid()
        && r.value.Config() == Configure(maskType, scaleNet, translateNet, scaleTranslateNet, inverseMask).value
        && r.value.logdetJacobian.None?
    {
      var config := Configure(maskType, scaleNet, translateNet, scaleTranslateNet, inverseMask);
      if config.Failure? {
        return Failure(config.error);
      }
      var c := config.value;
      var layer := new AffineCouplingLayer(c.maskType, c.inverseMask, c.scaleNet, c.translateNet, c.scaleTranslateNet);
      r := Success(layer);
    }

    /** `forward(x, y, compute_jacobian)`: returns `ForwardValue`; when asked
        to, it first records `LogDet`, and raises instead if that fails.
        Nothing is recorded when the parameters cannot be computed or when
        the Jacobian is not asked for. */
    method Forward(x: Tensor, y: Option<Tensor>, computeJacobian: bool, exp: real -> real)
      returns (r: Result<Tensor, Error>)
      requires Valid() && WellFormed(x)
      modifies this
      ensures var f := ForwardValue(Config(), x, y, exp);
        if f.Success? && computeJacobian then
          var d := LogDet(Config(), x, y);
          if d.Success? then r == f && logdetJacobian == Some(d.value)
          else r == Failure(d.error) && logdetJacobian == old(logdetJacobian)
        else
          r == f && logdetJacobian == old(logdetJacobian)
    {
      var p := GetParameters(Config(), x, y);
      if p.Failure? {
        return Failure(p.error);
      }
      var logS, t := p.value.logS, p.value.t;
      var z := Tensor(x.dims, Plus(Times(x.data, Apply(exp, logS.data)), t.data));
      if computeJacobian {
        if x.dims[0] == 0 {
          return Failure(ShapeError);
        }
        logdetJacobian := Some(BatchSums(logS));
      }
      r := Success(z);
    }

    /** `inverse(z, y)`: returns `InverseValue` and leaves every attribute,
        `_logdet_jacobian` included, as it is. */
    method Inverse(z: Tensor, y: Option<Tensor>, exp: real -> real) returns (r: Result<Tensor, Error>)
      requires Valid() && WellFormed(z)
      ensures r == InverseValue(Config(), z, y, exp)
    {
      var p := GetParameters(Config(), z, y);
      if p.Failure? {
        return Failure(p.error);
      }
      var logS, t := p.value.logS, p.value.t;
      r := Success(Tensor(z.dims, Times(Minus(z.data, t.data), Apply(exp, Negate(logS.data)))));
    }
  }
}
