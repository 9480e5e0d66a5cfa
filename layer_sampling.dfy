/** Sampling the simulated fields at the observations, layer by layer:
    the field type, the clipping of layer indices at the lowest layer, and
    the vectors of samples one cascade pass needs. Layers are internal,
    bottom-up (0 = lowest). */
module LayerSampling {

  /** A simulated field sampled at one observation's location and date:
      (observation ordinal, layer) -> value. Used once for the nearest-cell
      sample and once for the linear interpolation in x, y and time. */
  type Field = (nat, nat) -> real

  /** A field without layers (depth to phreatic surface). */
  type SurfaceField = nat -> real

  /** Layer indices below the lowest layer are clipped to it. */
  function Clamp(i: int): nat {
    if i < 0 then 0 else i
  }

  /** The interpolation done one layer group at a time (to bound memory):
      for l from the top layer down, the observations assigned to layer l
      get the interpolated value of layer l - shift (clipped at 0). The
      result is the per-observation interpolation, whatever the grouping. */
  method InterpolateByLayer(layer: seq<nat>, itop: nat, base: seq<real>, intp: Field, shift: nat)
    returns (r: seq<real>)
    requires |base| == |layer|
    requires forall o :: 0 <= o < |layer| ==> layer[o] <= itop
    ensures |r| == |layer|
    ensures forall o :: 0 <= o < |layer| ==> r[o] == intp(o, Clamp(layer[o] - shift))
  {
    var n := |layer|;
    r := base;
    var l: int := itop;
    while l >= 0
      invariant -1 <= l <= itop
      invariant |r| == n
      invariant forall o :: 0 <= o < n ==> r[o] == if layer[o] > l then intp(o, Clamp(layer[o] - shift)) else base[o]
    {
      if exists o :: 0 <= o < n && layer[o] == l {
        var prev := r;
        r := seq(n, o requires 0 <= o < n => if layer[o] == l then intp(o, Clamp(l - shift)) else prev[o]);
      }
      l := l - 1;
    }
  }

  /** A field sampled at every observation, `shift` layers below its own
      (ds.sel with the layer index clipped at the lowest layer). */
  method SampleField(f: Field, lay: seq<nat>, shift: nat) returns (v: seq<real>)
    ensures |v| == |lay|
    ensures forall o :: 0 <= o < |lay| ==> v[o] == f(o, Clamp(lay[o] - shift))
  {
    v := seq(|lay|, o requires 0 <= o < |lay| => f(o, Clamp(lay[o] - shift)));
  }

  /** The bottom of the layer `shift` below each observation's own,
      clipped at the lowest layer. */
  method SampleBottoms(zb: seq<seq<real>>, lay: seq<nat>, shift: nat) returns (v: seq<real>)
    requires |zb| == |lay|
    requires forall o :: 0 <= o < |lay| ==> lay[o] < |zb[o]|
    ensures |v| == |lay|
    ensures forall o :: 0 <= o < |lay| ==> v[o] == zb[o][Clamp(lay[o] - shift)]
  {
    v := seq(|lay|, o requires 0 <= o < |lay| => zb[o][Clamp(lay[o] - shift)]);
  }

  /** The samples of one cascade pass (the temp_xr datasets of depth k and
      k + 1 with layers clipped at the lowest one): the nearest-cell values
      k and k + 1 layers below each observation's own, the interpolation k
      layers below, and the bottom of the layer k below. */
  method SampleLayers(cell: Field, intp: Field, itop: nat, lay: seq<nat>, zb: seq<seq<real>>, k: nat, base: seq<real>)
    returns (cellK: seq<real>, cellBelowK: seq<real>, intpK: seq<real>, bottomsK: seq<real>)
    requires |zb| == |base| == |lay|
    requires forall o :: 0 <= o < |lay| ==> lay[o] <= itop && lay[o] < |zb[o]|
    ensures |cellK| == |cellBelowK| == |intpK| == |bottomsK| == |lay|
    ensures forall o :: 0 <= o < |lay| ==> cellK[o] == cell(o, Clamp(lay[o] - k))
    ensures forall o :: 0 <= o < |lay| ==> cellBelowK[o] == cell(o, Clamp(lay[o] - (k + 1)))
    ensures forall o :: 0 <= o < |lay| ==> intpK[o] == intp(o, Clamp(lay[o] - k))
    ensures forall o :: 0 <= o < |lay| ==> bottomsK[o] == zb[o][Clamp(lay[o] - k)]
  {
    cellK := SampleField(cell, lay, k);
    cellBelowK := SampleField(cell, lay, k + 1);
    intpK := InterpolateByLayer(lay, itop, base, intp, k);
    bottomsK := SampleBottoms(zb, lay, k);
  }
}
