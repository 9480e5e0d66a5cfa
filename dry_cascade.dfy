/** Extraction of simulated heads at the observations and the dry-cell
    cascade: an observation whose layer has gone dry (by MIKE SHE's own
    criterion, on the nearest-cell value) takes its values from the first
    deeper layer that is not dry, or from the lowest layer once the cascade
    has stepped past it. Layers are internal, bottom-up (0 = lowest). */
module DryCascade {

  import opened Wrappers
  import opened LayerSampling

  /** The dry criterion for a layer with bottom `bottom`: its head is less
      than eps above the bottom and the head one layer down is more than eps
      below it. */
  predicate DryCell(eps: real, here: real, below: real, bottom: real) {
    here < bottom + eps && below < bottom - eps
  }

  /** Whether observation o (assigned layer `layer`, column of bottoms
      `bottoms`) is still marked dry after k steps of the cascade; k == 0 is
      the initial test at the assigned layer. */
  predicate DryAfter(cell: Field, eps: real, o: nat, layer: nat, bottoms: seq<real>, k: nat)
    requires layer < |bottoms|
    decreases k
  {
    var lk := Clamp(layer - k);
    (k == 0 || DryAfter(cell, eps, o, layer, bottoms, k - 1))
    && DryCell(eps, cell(o, lk), cell(o, Clamp(layer - k - 1)), bottoms[lk])
    && layer - k >= 0
  }

  /** The dry set only shrinks: dry after k steps means dry after every
      earlier step. */
  lemma {:induction false} DryShrinks(cell: Field, eps: real, o: nat, layer: nat, bottoms: seq<real>, j: nat, k: nat)
    requires layer < |bottoms| && j <= k
    requires DryAfter(cell, eps, o, layer, bottoms, k)
    ensures DryAfter(cell, eps, o, layer, bottoms, j)
    decreases k - j
  {
    if j < k {
      DryShrinks(cell, eps, o, layer, bottoms, j, k - 1);
    }
  }

  /** An observation is dry after k steps only while k layers remain below
      its own. */
  lemma StillAboveBottom(cell: Field, eps: real, o: nat, layer: nat, bottoms: seq<real>, k: nat)
    requires layer < |bottoms|
    requires DryAfter(cell, eps, o, layer, bottoms, k)
    ensures k <= layer
  {
  }

  /** The first step at or after k at which the observation is no longer dry. */
  function ResolutionFrom(cell: Field, eps: real, o: nat, layer: nat, bottoms: seq<real>, k: nat): (r: nat)
    requires layer < |bottoms|
    requires 1 <= k <= layer + 1
    requires DryAfter(cell, eps, o, layer, bottoms, k - 1)
    ensures k <= r <= layer + 1
    ensures DryAfter(cell, eps, o, layer, bottoms, r - 1) && !DryAfter(cell, eps, o, layer, bottoms, r)
    decreases layer + 1 - k
  {
    if !DryAfter(cell, eps, o, layer, bottoms, k) then k
    else ResolutionFrom(cell, eps, o, layer, bottoms, k + 1)
  }

  /** The step at which an initially dry observation resolves ("Layer dry -
      k below"); at the latest the step past the lowest layer. */
  function Resolution(cell: Field, eps: real, o: nat, layer: nat, bottoms: seq<real>): (r: nat)
    requires layer < |bottoms|
    requires DryAfter(cell, eps, o, layer, bottoms, 0)
    ensures 1 <= r <= layer + 1
  {
    ResolutionFrom(cell, eps, o, layer, bottoms, 1)
  }

  /** An initially dry observation leaves the dry set at exactly one step,
      and that step is Resolution. */
  lemma ResolvesOnce(cell: Field, eps: real, o: nat, layer: nat, bottoms: seq<real>, k: nat)
    requires layer < |bottoms| && k >= 1
    requires DryAfter(cell, eps, o, layer, bottoms, 0)
    ensures (DryAfter(cell, eps, o, layer, bottoms, k - 1) && !DryAfter(cell, eps, o, layer, bottoms, k))
            <==> k == Resolution(cell, eps, o, layer, bottoms)
  {
    var r := Resolution(cell, eps, o, layer, bottoms);
    if k < r {
      DryShrinks(cell, eps, o, layer, bottoms, k, r - 1);
    } else if k > r && DryAfter(cell, eps, o, layer, bottoms, k - 1) {
      DryShrinks(cell, eps, o, layer, bottoms, r, k - 1);
    }
  }

  /** The layer whose samples the observation holds after k steps. */
  function LayerAfter(cell: Field, eps: real, o: nat, layer: nat, bottoms: seq<real>, k: nat): nat
    requires layer < |bottoms|
  {
    if DryAfter(cell, eps, o, layer, bottoms, 0) && !DryAfter(cell, eps, o, layer, bottoms, k)
    then Clamp(layer - Resolution(cell, eps, o, layer, bottoms))
    else layer
  }

  /** The 'dry' annotation after k steps: the number of layers stepped down
      once resolved, the annotation it had before otherwise. */
  function NoteAfter(cell: Field, eps: real, o: nat, layer: nat, bottoms: seq<real>, k: nat, before: Option<nat>): Option<nat>
    requires layer < |bottoms|
  {
    if DryAfter(cell, eps, o, layer, bottoms, 0) && !DryAfter(cell, eps, o, layer, bottoms, k)
    then Some(Resolution(cell, eps, o, layer, bottoms))
    else before
  }

  /** The layer whose samples an observation finally reports. */
  function SourceLayer(cell: Field, eps: real, o: nat, layer: nat, bottoms: seq<real>): (l: nat)
    requires layer < |bottoms|
    ensures l <= layer
    ensures !DryAfter(cell, eps, o, layer, bottoms, 0) ==> l == layer
  {
    if DryAfter(cell, eps, o, layer, bottoms, 0)
    then Clamp(layer - Resolution(cell, eps, o, layer, bottoms))
    else layer
  }

  /** What one cascade step at depth k does to one observation whose dry
      flag goes from wasDry to nowDry. */
  predicate StepFacts(cell: Field, eps: real, o: nat, layer: nat, bottoms: seq<real>, k: nat, before: Option<nat>,
                      wasDry: bool, nowDry: bool)
    requires layer < |bottoms| && k >= 1
  {
    && nowDry == DryAfter(cell, eps, o, layer, bottoms, k)
    && (wasDry && !nowDry ==>
          LayerAfter(cell, eps, o, layer, bottoms, k) == Clamp(layer - k)
          && NoteAfter(cell, eps, o, layer, bottoms, k, before) == Some(k))
    && (!(wasDry && !nowDry) ==>
          LayerAfter(cell, eps, o, layer, bottoms, k) == LayerAfter(cell, eps, o, layer, bottoms, k - 1)
          && NoteAfter(cell, eps, o, layer, bottoms, k, before) == NoteAfter(cell, eps, o, layer, bottoms, k - 1, before))
  }

  /** One cascade step for one observation, from the values the step
      samples: the new dry flag is DryAfter(k), and the step either resolves
      the observation, moving it to the layer k below its own and annotating
      it with k, or changes nothing. */
  lemma StepAt(cell: Field, eps: real, o: nat, layer: nat, bottoms: seq<real>, k: nat, before: Option<nat>,
               wasDry: bool, here: real, below: real, bottom: real, nowDry: bool)
    requires layer < |bottoms| && k >= 1
    requires wasDry == DryAfter(cell, eps, o, layer, bottoms, k - 1)
    requires here == cell(o, Clamp(layer - k)) && below == cell(o, Clamp(layer - k - 1))
    requires bottom == bottoms[Clamp(layer - k)]
    requires nowDry == (wasDry && DryCell(eps, here, below, bottom) && layer - k >= 0)
    ensures StepFacts(cell, eps, o, layer, bottoms, k, before, wasDry, nowDry)
  {
    if wasDry {
      DryShrinks(cell, eps, o, layer, bottoms, 0, k - 1);
      if !nowDry {
        ResolvesOnce(cell, eps, o, layer, bottoms, k);
      }
    }
  }

  /** The cascade step on whole columns: observations that stop being dry
      at depth k take the samples of layer-k and the note Some(k); all
      others keep theirs. */
  lemma StepPost(cell: Field, intp: Field, eps: real, lay: seq<nat>, zb: seq<seq<real>>, k: nat,
                 dry0: seq<Option<nat>>, dryNow: seq<bool>, cellK: seq<real>, cellBelowK: seq<real>,
                 intpK: seq<real>, bottomsK: seq<real>, stillDry: seq<bool>,
                 cell0: seq<real>, intp0: seq<real>, note0: seq<Option<nat>>,
                 cell1: seq<real>, intp1: seq<real>, note1: seq<Option<nat>>)
    requires k >= 1
    requires |zb| == |dry0| == |dryNow| == |cellK| == |cellBelowK| == |intpK| == |bottomsK| == |stillDry| == |lay|
    requires |cell0| == |intp0| == |note0| == |cell1| == |intp1| == |note1| == |lay|
    requires forall o :: 0 <= o < |lay| ==> lay[o] < |zb[o]|
    requires forall o :: 0 <= o < |lay| ==> dryNow[o] == DryAfter(cell, eps, o, lay[o], zb[o], k - 1)
    requires forall o :: 0 <= o < |lay| ==>
               cell0[o] == cell(o, LayerAfter(cell, eps, o, lay[o], zb[o], k - 1))
               && intp0[o] == intp(o, LayerAfter(cell, eps, o, lay[o], zb[o], k - 1))
    requires forall o :: 0 <= o < |lay| ==> note0[o] == NoteAfter(cell, eps, o, lay[o], zb[o], k - 1, dry0[o])
    requires forall o :: 0 <= o < |lay| ==> cellK[o] == cell(o, Clamp(lay[o] - k))
    requires forall o :: 0 <= o < |lay| ==> cellBelowK[o] == cell(o, Clamp(lay[o] - (k + 1)))
    requires forall o :: 0 <= o < |lay| ==> intpK[o] == intp(o, Clamp(lay[o] - k))
    requires forall o :: 0 <= o < |lay| ==> bottomsK[o] == zb[o][Clamp(lay[o] - k)]
    requires forall o :: 0 <= o < |lay| ==>
               stillDry[o] == (dryNow[o] && DryCell(eps, cellK[o], cellBelowK[o], bottomsK[o]) && lay[o] - k >= 0)
    requires forall o :: 0 <= o < |lay| ==>
               var resolved := dryNow[o] && !stillDry[o];
               && cell1[o] == (if resolved then cellK[o] else cell0[o])
               && intp1[o] == (if resolved then intpK[o] else intp0[o])
               && note1[o] == (if resolved then Some(k) else note0[o])
    ensures forall o :: 0 <= o < |lay| ==> stillDry[o] == DryAfter(cell, eps, o, lay[o], zb[o], k)
    ensures forall o :: 0 <= o < |lay| ==>
              cell1[o] == cell(o, LayerAfter(cell, eps, o, lay[o], zb[o], k))
              && intp1[o] == intp(o, LayerAfter(cell, eps, o, lay[o], zb[o], k))
    ensures forall o :: 0 <= o < |lay| ==> note1[o] == NoteAfter(cell, eps, o, lay[o], zb[o], k, dry0[o])
  {
    forall o | 0 <= o < |lay|
      ensures StepFacts(cell, eps, o, lay[o], zb[o], k, dry0[o], dryNow[o], stillDry[o])
    {
      StepAt(cell, eps, o, lay[o], zb[o], k, dry0[o], dryNow[o], cellK[o], cellBelowK[o], bottomsK[o], stillDry[o]);
    }
  }

  /** Before the cascade every observation holds the samples of its own
      layer and its annotation, and is dry by the test at its own layer. */
  lemma StartState(cell: Field, intp: Field, eps: real, lay: seq<nat>, zb: seq<seq<real>>,
                   dry0: seq<Option<nat>>, cell0: seq<real>, cellBelow: seq<real>, intp0: seq<real>,
                   bottoms: seq<real>, dryNow: seq<bool>)
    requires |zb| == |dry0| == |cell0| == |cellBelow| == |intp0| == |bottoms| == |dryNow| == |lay|
    requires forall o :: 0 <= o < |lay| ==> lay[o] < |zb[o]|
    requires forall o :: 0 <= o < |lay| ==> cell0[o] == cell(o, Clamp(lay[o] - 0))
    requires forall o :: 0 <= o < |lay| ==> cellBelow[o] == cell(o, Clamp(lay[o] as int - 1))
    requires forall o :: 0 <= o < |lay| ==> intp0[o] == intp(o, Clamp(lay[o] - 0))
    requires forall o :: 0 <= o < |lay| ==> bottoms[o] == zb[o][Clamp(lay[o] - 0)]
    requires forall o :: 0 <= o < |lay| ==>
               dryNow[o] == (true && DryCell(eps, cell0[o], cellBelow[o], bottoms[o]) && lay[o] - 0 >= 0)
    ensures AtStep(cell, intp, eps, lay, zb, 0, dry0, dryNow, cell0, intp0, dry0)
  {
  }

  /** Once no observation is dry, each holds the samples of its source
      layer and, if it was dry at first, the note of its resolution step. */
  lemma FinalState(cell: Field, intp: Field, eps: real, lay: seq<nat>, zb: seq<seq<real>>, steps: nat,
                   dry0: seq<Option<nat>>, dryNow: seq<bool>, simCell: seq<real>, simIntp: seq<real>,
                   dry: seq<Option<nat>>)
    requires AtStep(cell, intp, eps, lay, zb, steps, dry0, dryNow, simCell, simIntp, dry)
    requires !AnyDry(dryNow)
    ensures Extracted(cell, intp, eps, lay, zb, dry0, simCell, simIntp, dry)
    ensures forall o :: 0 <= o < |lay| && DryAfter(cell, eps, o, lay[o], zb[o], 0) ==>
              Resolution(cell, eps, o, lay[o], zb[o]) <= steps
  {
    forall o | 0 <= o < |lay|
      ensures FinalFacts(cell, eps, o, lay[o], zb[o], steps, dry0[o])
    {
      FinalAt(cell, eps, o, lay[o], zb[o], steps, dry0[o], dryNow[o]);
    }
  }

  /** What an observation that is no longer dry after k steps holds. */
  predicate FinalFacts(cell: Field, eps: real, o: nat, layer: nat, bottoms: seq<real>, k: nat, before: Option<nat>)
    requires layer < |bottoms|
  {
    && LayerAfter(cell, eps, o, layer, bottoms, k) == SourceLayer(cell, eps, o, layer, bottoms)
    && NoteAfter(cell, eps, o, layer, bottoms, k, before)
       == (if DryAfter(cell, eps, o, layer, bottoms, 0) then Some(Resolution(cell, eps, o, layer, bottoms)) else before)
    && (DryAfter(cell, eps, o, layer, bottoms, 0) ==> Resolution(cell, eps, o, layer, bottoms) <= k)
  }

  lemma FinalAt(cell: Field, eps: real, o: nat, layer: nat, bottoms: seq<real>, k: nat, before: Option<nat>, d: bool)
    requires layer < |bottoms|
    requires d == DryAfter(cell, eps, o, layer, bottoms, k) && !d
    ensures FinalFacts(cell, eps, o, layer, bottoms, k, before)
  {
    if DryAfter(cell, eps, o, layer, bottoms, 0) {
      var r := Resolution(cell, eps, o, layer, bottoms);
      if k < r {
        DryShrinks(cell, eps, o, layer, bottoms, k, r - 1);
      }
    }
  }

  // ---- Column operations of the observation table ------------------------

  /** dry.any() */
  predicate AnyDry(dry: seq<bool>) {
    exists o :: 0 <= o < |dry| && dry[o]
  }

  /** The cascade's state after k steps: the dry mask, the samples each
      observation holds, and its 'dry' annotation (dry0 is the annotation
      before the cascade). */
  ghost predicate AtStep(cell: Field, intp: Field, eps: real, lay: seq<nat>, zb: seq<seq<real>>, k: nat,
                         dry0: seq<Option<nat>>, dryNow: seq<bool>, cells: seq<real>, intps: seq<real>,
                         notes: seq<Option<nat>>)
  {
    && |zb| == |dry0| == |dryNow| == |cells| == |intps| == |notes| == |lay|
    && (forall o :: 0 <= o < |lay| ==> lay[o] < |zb[o]|)
    && (forall o :: 0 <= o < |lay| ==> dryNow[o] == DryAfter(cell, eps, o, lay[o], zb[o], k))
    && (forall o :: 0 <= o < |lay| ==>
          cells[o] == cell(o, LayerAfter(cell, eps, o, lay[o], zb[o], k))
          && intps[o] == intp(o, LayerAfter(cell, eps, o, lay[o], zb[o], k)))
    && (forall o :: 0 <= o < |lay| ==> notes[o] == NoteAfter(cell, eps, o, lay[o], zb[o], k, dry0[o]))
  }

  /** While some observation is dry, the cascade has not yet stepped past
      the top layer. */
  lemma DryBound(cell: Field, intp: Field, eps: real, itop: nat, lay: seq<nat>, zb: seq<seq<real>>, k: nat,
                 dry0: seq<Option<nat>>, dryNow: seq<bool>, cells: seq<real>, intps: seq<real>,
                 notes: seq<Option<nat>>)
    requires forall o :: 0 <= o < |lay| ==> lay[o] <= itop
    requires AtStep(cell, intp, eps, lay, zb, k, dry0, dryNow, cells, intps, notes)
    requires AnyDry(dryNow)
    ensures k <= itop
  {
    var w :| 0 <= w < |dryNow| && dryNow[w];
    StillAboveBottom(cell, eps, w, lay[w], zb[w], k);
  }

  /** One pass of the cascade loop, at depth k = iz_below: re-test the
      observations still dry one layer further down, and give those that
      are no longer dry the samples of that layer and the note k. */
  method CascadeStep(cell: Field, intp: Field, eps: real, itop: nat, lay: seq<nat>, zb: seq<seq<real>>, k: nat,
                     ghost dry0: seq<Option<nat>>, dryNow: seq<bool>, cells: seq<real>, intps: seq<real>,
                     notes: seq<Option<nat>>)
    returns (stillDry: seq<bool>, cells': seq<real>, intps': seq<real>, notes': seq<Option<nat>>)
    requires k >= 1
    requires forall o :: 0 <= o < |lay| ==> lay[o] <= itop
    requires AtStep(cell, intp, eps, lay, zb, k - 1, dry0, dryNow, cells, intps, notes)
    ensures AtStep(cell, intp, eps, lay, zb, k, dry0, stillDry, cells', intps', notes')
  {
    var cellK, cellBelowK, intpK, bottomsK := SampleLayers(cell, intp, itop, lay, zb, k, cells);
    stillDry, cells', intps', notes' := Retest(cell, intp, eps, lay, zb, k, dry0, dryNow, cells, intps, notes,
                                               cellK, cellBelowK, intpK, bottomsK);
  }

  /** The second half of a cascade pass, from the samples k layers down:
      the dry mask only shrinks, and the observations leaving it take those
      samples and the note k (the masked assignments). */
  method Retest(cell: Field, intp: Field, eps: real, lay: seq<nat>, zb: seq<seq<real>>, k: nat,
                ghost dry0: seq<Option<nat>>, dryNow: seq<bool>, cells: seq<real>, intps: seq<real>,
                notes: seq<Option<nat>>, cellK: seq<real>, cellBelowK: seq<real>, intpK: seq<real>, bottomsK: seq<real>)
    returns (stillDry: seq<bool>, cells': seq<real>, intps': seq<real>, notes': seq<Option<nat>>)
    requires k >= 1
    requires AtStep(cell, intp, eps, lay, zb, k - 1, dry0, dryNow, cells, intps, notes)
    requires |cellK| == |cellBelowK| == |intpK| == |bottomsK| == |lay|
    requires forall o :: 0 <= o < |lay| ==> cellK[o] == cell(o, Clamp(lay[o] - k))
    requires forall o :: 0 <= o < |lay| ==> cellBelowK[o] == cell(o, Clamp(lay[o] - (k + 1)))
    requires forall o :: 0 <= o < |lay| ==> intpK[o] == intp(o, Clamp(lay[o] - k))
    requires forall o :: 0 <= o < |lay| ==> bottomsK[o] == zb[o][Clamp(lay[o] - k)]
    ensures AtStep(cell, intp, eps, lay, zb, k, dry0, stillDry, cells', intps', notes')
  {
    var n := |lay|;
    stillDry := seq(n, o => 0 <= o < n && dryNow[o] && DryCell(eps, cellK[o], cellBelowK[o], bottomsK[o]) && lay[o] - k >= 0);
    assert forall o :: 0 <= o < n ==>
             stillDry[o] == (dryNow[o] && DryCell(eps, cellK[o], cellBelowK[o], bottomsK[o]) && lay[o] - k >= 0);
    notes' := seq(n, o => if 0 <= o < n && dryNow[o] && !stillDry[o] then Some(k) else if 0 <= o < n then notes[o] else None);
    cells' := seq(n, o => if 0 <= o < n && dryNow[o] && !stillDry[o] then cellK[o] else if 0 <= o < n then cells[o] else 0.0);
    intps' := seq(n, o => if 0 <= o < n && dryNow[o] && !stillDry[o] then intpK[o] else if 0 <= o < n then intps[o] else 0.0);
    StepPost(cell, intp, eps, lay, zb, k, dry0, dryNow, cellK, cellBelowK, intpK, bottomsK, stillDry,
             cells, intps, notes, cells', intps', notes');
  }

  /** The outcome of extraction and cascade: every observation holds the
      samples of its source layer, and an observation that was dry at its
      own layer carries the note of the step that resolved it; the others
      keep their note. */
  ghost predicate Extracted(cell: Field, intp: Field, eps: real, lay: seq<nat>, zb: seq<seq<real>>,
                            dry0: seq<Option<nat>>, cells: seq<real>, intps: seq<real>, notes: seq<Option<nat>>)
  {
    && |zb| == |dry0| == |cells| == |intps| == |notes| == |lay|
    && (forall o :: 0 <= o < |lay| ==> lay[o] < |zb[o]|)
    && (forall o :: 0 <= o < |lay| ==>
          cells[o] == cell(o, SourceLayer(cell, eps, o, lay[o], zb[o]))
          && intps[o] == intp(o, SourceLayer(cell, eps, o, lay[o], zb[o])))
    && (forall o :: 0 <= o < |lay| ==>
          notes[o] == if DryAfter(cell, eps, o, lay[o], zb[o], 0)
                      then Some(Resolution(cell, eps, o, lay[o], zb[o]))
                      else dry0[o])
  }

  /** Sampling at each observation's layer followed by the cascade loop
      (while any observation is dry, step one layer further down). */
  method Cascade(cell: Field, intp: Field, eps: real, itop: nat, lay: seq<nat>, zb: seq<seq<real>>,
                 dry0: seq<Option<nat>>)
    returns (steps: nat, cells: seq<real>, intps: seq<real>, notes: seq<Option<nat>>)
    requires |zb| == |dry0| == |lay|
    requires forall o :: 0 <= o < |lay| ==> lay[o] < |zb[o]| == itop + 1
    ensures Extracted(cell, intp, eps, lay, zb, dry0, cells, intps, notes)
    ensures steps <= itop + 1
    ensures forall o :: 0 <= o < |lay| && DryAfter(cell, eps, o, lay[o], zb[o], 0) ==>
              Resolution(cell, eps, o, lay[o], zb[o]) <= steps
  {
    var dryNow;
    dryNow, cells, intps := InitialSamples(cell, intp, eps, itop, lay, zb, dry0);
    steps, dryNow, cells, intps, notes := CascadeLoop(cell, intp, eps, itop, lay, zb, dry0, dryNow, cells, intps);
    FinalState(cell, intp, eps, lay, zb, steps, dry0, dryNow, cells, intps, notes);
  }

  /** The samples at each observation's own layer and the initial dry test. */
  method InitialSamples(cell: Field, intp: Field, eps: real, itop: nat, lay: seq<nat>, zb: seq<seq<real>>,
                        dry0: seq<Option<nat>>)
    returns (dryNow: seq<bool>, cells: seq<real>, intps: seq<real>)
    requires |zb| == |dry0| == |lay|
    requires forall o :: 0 <= o < |lay| ==> lay[o] < |zb[o]| == itop + 1
    ensures AtStep(cell, intp, eps, lay, zb, 0, dry0, dryNow, cells, intps, dry0)
  {
    cells := SampleField(cell, lay, 0);
    var cellBelow := SampleField(cell, lay, 1);
    intps := InterpolateByLayer(lay, itop, cells, intp, 0);
    var bottoms := SampleBottoms(zb, lay, 0);
    dryNow := seq(|lay|, o requires 0 <= o < |lay| => DryCell(eps, cells[o], cellBelow[o], bottoms[o]));
    StartState(cell, intp, eps, lay, zb, dry0, cells, cellBelow, intps, bottoms, dryNow);
  }

  /** while dry.any(): iz_below += 1 and one cascade step. */
  method CascadeLoop(cell: Field, intp: Field, eps: real, itop: nat, lay: seq<nat>, zb: seq<seq<real>>,
                     dry0: seq<Option<nat>>, dry: seq<bool>, cells0: seq<real>, intps0: seq<real>)
    returns (steps: nat, dryNow: seq<bool>, cells: seq<real>, intps: seq<real>, notes: seq<Option<nat>>)
    requires forall o :: 0 <= o < |lay| ==> lay[o] <= itop
    requires AtStep(cell, intp, eps, lay, zb, 0, dry0, dry, cells0, intps0, dry0)
    ensures steps <= itop + 1
    ensures AtStep(cell, intp, eps, lay, zb, steps, dry0, dryNow, cells, intps, notes)
    ensures !AnyDry(dryNow)
  {
    var n := |lay|;
    steps, dryNow, cells, intps, notes := 0, dry, cells0, intps0, dry0;
    while AnyDry(dryNow)
      invariant steps <= itop + 1
      invariant AtStep(cell, intp, eps, lay, zb, steps, dry0, dryNow, cells, intps, notes)
      decreases itop + 1 - steps
    {
      DryBound(cell, intp, eps, itop, lay, zb, steps, dry0, dryNow, cells, intps, notes);
      steps := steps + 1;
      dryNow, cells, intps, notes := CascadeStep(cell, intp, eps, itop, lay, zb, steps, dry0, dryNow, cells, intps, notes);
    }
  }

  /** The observation table (out_obs) as far as extraction and the cascade
      read and write it, one entry per observation. */
  class ObservationTable {
    var layer: seq<nat>
    var zBottoms: seq<seq<real>>
    var simCell: seq<real>
    var simIntp: seq<real>
    /** The 'dry' column: Some(k) is the text "Layer dry - k below". */
    var dry: seq<Option<nat>>

    ghost predicate Valid()
      reads this
    {
      && |layer| == |zBottoms| == |simCell| == |simIntp| == |dry|
      && forall o :: 0 <= o < |layer| ==> layer[o] < |zBottoms[o]|
    }

    constructor (layer: seq<nat>, zBottoms: seq<seq<real>>)
      requires |layer| == |zBottoms|
      requires forall o :: 0 <= o < |layer| ==> layer[o] < |zBottoms[o]|
      ensures Valid() && this.layer == layer && this.zBottoms == zBottoms
      ensures dry == seq(|layer|, _ => None)
    {
      this.layer, this.zBottoms := layer, zBottoms;
      simCell := seq(|layer|, _ => 0.0);
      simIntp := seq(|layer|, _ => 0.0);
      dry := seq(|layer|, _ => None);
    }

    /** Head statistics: sample the nearest cell and the interpolation at
        every observation's layer, then run the dry-cell cascade. Returns
        the number of cascade steps (iz_below). */
    method ExtractHeads(cell: Field, intp: Field, eps: real, itop: nat) returns (steps: nat)
      requires Valid()
      requires forall o :: 0 <= o < |layer| ==> |zBottoms[o]| == itop + 1
      modifies this`simCell, this`simIntp, this`dry
      ensures Valid()
      ensures Extracted(cell, intp, eps, layer, zBottoms, old(dry), simCell, simIntp, dry)
      ensures steps <= itop + 1
      ensures forall o :: 0 <= o < |layer| && DryAfter(cell, eps, o, layer[o], zBottoms[o], 0) ==>
                Resolution(cell, eps, o, layer[o], zBottoms[o]) <= steps
    {
      var cells, intps, notes;
      steps, cells, intps, notes := Cascade(cell, intp, eps, itop, layer, zBottoms, dry);
      simCell, simIntp, dry := cells, intps, notes;
    }

    /** Depth-to-phreatic statistics: no layers and no cascade; the samples
        are negated so that positive values mean below ground. */
    method ExtractDepths(cell: SurfaceField, intp: SurfaceField)
      requires Valid()
      modifies this`simCell, this`simIntp
      ensures Valid()
      ensures forall o :: 0 <= o < |layer| ==> simCell[o] == -cell(o) && simIntp[o] == -intp(o)
    {
      var n := |layer|;
      simCell := seq(n, o requires 0 <= o < n => -cell(o));
      simIntp := seq(n, o requires 0 <= o < n => -intp(o));
    }
  }

  /** A head of 4.0 in a layer with bottom 4.5, eps 0.1, and 3.0 one layer
      down: the layer is dry. */
  lemma DryExample()
    ensures DryCell(0.1, 4.0, 3.0, 4.5)
  {
  }
}
