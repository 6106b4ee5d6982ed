/**
 When a stage may start and with which inputs (oakridge-core/src/scheduler.rs:
 all_required_inputs_satisfied, input_inherits_fan_out, producer_stages_are_done, resolved_inputs).
 */
module Readiness {
  import opened Optional
  import opened Workflow

  datatype StageStatus = Pending | Running | Parked | Done | Failed
  datatype Entry = Entry(id: InstanceId, status: StageStatus)
  type Index = map<StageKey, Entry>

  predicate IsDelegated(def: Def, stage: StageKey) {
    stage in def.stages && def.stages[stage].delegated
  }

  predicate FansOut(def: Def, stage: StageKey) {
    IsDelegated(def, stage) && def.stages[stage].fanOut.Some?
  }

  /** The consumer fans over the slot and one of the slot's producers is itself fanned. */
  predicate InheritsFanOut(def: Def, to: Endpoint) {
    && IsDelegated(def, to.stage) && def.stages[to.stage].fanOut == Some(OverInput(to.slot))
    && exists p :: p in Producers(def, to) && FansOut(def, p)
  }

  predicate Collects(def: Def, stage: StageKey, slot: InputSlot) {
    slot.collect || InheritsFanOut(def, Endpoint(stage, slot.name))
  }

  predicate WaitsForCompletion(def: Def, stage: StageKey, slot: InputSlot) {
    slot.delivery == ProducerComplete && Collects(def, stage, slot)
  }

  predicate IsDone(index: Index, stage: StageKey) {
    stage in index && index[stage].status == Done
  }

  predicate ProducersDone(def: Def, index: Index, to: Endpoint) {
    Producers(def, to) != {} && forall p :: p in Producers(def, to) ==> IsDone(index, p)
  }

  predicate SlotSatisfied(def: Def, index: Index, r: Resolved, stage: StageKey, slot: InputSlot) {
    if WaitsForCompletion(def, stage, slot) then ProducersDone(def, index, Endpoint(stage, slot.name))
    else UnitsAt(r, Endpoint(stage, slot.name)) != map[]
  }

  predicate Satisfied(def: Def, index: Index, r: Resolved, stage: StageKey) {
    stage in def.stages
    && forall slot :: slot in def.stages[stage].inputs && !slot.optional ==> SlotSatisfied(def, index, r, stage, slot)
  }

  /** A stage that needs no input: it starts when the run starts. */
  predicate IsSource(def: Def, stage: StageKey) {
    stage in def.stages && forall slot :: slot in def.stages[stage].inputs ==> slot.optional
  }

  lemma SourcesOfFreshRun(def: Def, stage: StageKey)
    ensures Satisfied(def, map[], map[], stage) <==> IsSource(def, stage)
  {
    if Satisfied(def, map[], map[], stage) {
      forall slot | slot in def.stages[stage].inputs ensures slot.optional {
        var to := Endpoint(stage, slot.name);
        assert Producers(def, to) != {} ==> exists p :: p in Producers(def, to) && !IsDone(map[], p);
      }
    }
  }

  /** New entries are never Done and old ones are kept. */
  ghost predicate Grown(index: Index, index': Index) {
    && (forall k :: k in index ==> k in index' && index'[k] == index[k])
    && (forall k :: k in index' && k !in index ==> index'[k].status == Pending || index'[k].status == Failed)
  }

  /** Starting stages makes no other stage ready. */
  lemma GrownKeepsReadiness(def: Def, index: Index, index': Index, r: Resolved, stage: StageKey)
    requires Grown(index, index')
    ensures Satisfied(def, index', r, stage) <==> Satisfied(def, index, r, stage)
    ensures Satisfied(def, index', r, stage) ==> stage in def.stages
  {
    forall to ensures ProducersDone(def, index', to) <==> ProducersDone(def, index, to) {
      GrownKeepsDone(def, index, index', to);
    }
    assert forall slot: InputSlot ::
        SlotSatisfied(def, index', r, stage, slot) <==> SlotSatisfied(def, index, r, stage, slot);
  }

  lemma GrownKeepsDone(def: Def, index: Index, index': Index, to: Endpoint)
    requires Grown(index, index')
    ensures ProducersDone(def, index', to) <==> ProducersDone(def, index, to)
  {
    assert forall p :: IsDone(index', p) <==> IsDone(index, p);
  }

  /** Of `stages`, exactly those whose required inputs are there were added to the index. */
  ghost predicate StartsReady(def: Def, index: Index, r: Resolved, stages: set<StageKey>, index': Index) {
    forall k :: k in index' <==> k in index || (k in stages && Satisfied(def, index, r, k))
  }

  lemma StartsReadyStep(def: Def, index: Index, r: Resolved, stages: set<StageKey>, c: StageKey, index': Index,
                        index'': Index)
    requires StartsReady(def, index, r, stages, index')
    requires index''.Keys == index'.Keys + if Satisfied(def, index, r, c) then {c} else {}
    ensures StartsReady(def, index, r, stages + {c}, index'')
  {
    forall k ensures k in index'' <==> k in index || (k in stages + {c} && Satisfied(def, index, r, k)) {
      assert k in index'' <==> k in index''.Keys;
    }
  }

  lemma {:induction false} FoundSlotIsDeclared(inputs: seq<InputSlot>, name: SlotName)
    ensures FindSlot(inputs, name).Some?
            ==> FindSlot(inputs, name).value in inputs && FindSlot(inputs, name).value.name == name
  {
    if inputs != [] {
      FoundSlotIsDeclared(inputs[1..], name);
    }
  }

  // --- what waiting and being ready come to ---

  ghost predicate HasEdgeInto(def: Def, to: Endpoint) {
    exists e :: e in def.edges && e.to == to
  }

  lemma ProducersDoneIs(def: Def, index: Index, to: Endpoint)
    ensures ProducersDone(def, index, to) <==>
            HasEdgeInto(def, to)
            && forall e :: e in def.edges && e.to == to
                           ==> e.from.stage in index && index[e.from.stage].status == StageStatus.Done
  {
    assert forall e :: e in def.edges && e.to == to ==> e.from.stage in Producers(def, to);
    if ProducersDone(def, index, to) {
      var p :| p in Producers(def, to);
    }
  }

  /** The consumer is delegated, fans over the slot, and an edge leads there from a delegated stage that fans out. */
  ghost predicate FansOverFanned(def: Def, to: Endpoint) {
    && to.stage in def.stages && def.stages[to.stage].delegated
    && def.stages[to.stage].fanOut == Some(OverInput(to.slot))
    && exists e :: e in def.edges && e.to == to && e.from.stage in def.stages && def.stages[e.from.stage].delegated
                   && def.stages[e.from.stage].fanOut.Some?
  }

  lemma CollectsIs(def: Def, stage: StageKey, slot: InputSlot)
    ensures Collects(def, stage, slot) <==> slot.collect || FansOverFanned(def, Endpoint(stage, slot.name))
  {
    var to := Endpoint(stage, slot.name);
    assert forall e :: e in def.edges && e.to == to ==> e.from.stage in Producers(def, to);
    if FansOverFanned(def, to) {
      var e :| e in def.edges && e.to == to && e.from.stage in def.stages && def.stages[e.from.stage].delegated
               && def.stages[e.from.stage].fanOut.Some?;
      assert FansOut(def, e.from.stage);
    }
  }

  /** A required collection, or a slot that inherits a fan-out, waits until every producer is Done. */
  lemma CollectionWaits(def: Def, index: Index, r: Resolved, stage: StageKey, slot: InputSlot, e: Edge)
    requires Satisfied(def, index, r, stage) && slot in def.stages[stage].inputs && !slot.optional
    requires slot.delivery == ProducerComplete && (slot.collect || FansOverFanned(def, Endpoint(stage, slot.name)))
    requires e in def.edges && e.to == Endpoint(stage, slot.name)
    ensures e.from.stage in index && index[e.from.stage].status == StageStatus.Done
  {
    CollectsIs(def, stage, slot);
    assert SlotSatisfied(def, index, r, stage, slot);
    ProducersDoneIs(def, index, Endpoint(stage, slot.name));
  }

  /** Any other required slot is ready as soon as one unit is there, whatever its producers do. */
  lemma OtherSlotNeedsOneUnit(def: Def, index: Index, r: Resolved, stage: StageKey, slot: InputSlot)
    requires slot.delivery == UnitComplete || !(slot.collect || FansOverFanned(def, Endpoint(stage, slot.name)))
    ensures SlotSatisfied(def, index, r, stage, slot)
            <==> exists unit :: Lookup(r, Endpoint(stage, slot.name), unit).Some?
  {
    CollectsIs(def, stage, slot);
    var units := UnitsAt(r, Endpoint(stage, slot.name));
    if units != map[] {
      var unit :| unit in units;
      assert Lookup(r, Endpoint(stage, slot.name), unit).Some?;
    }
  }

  // --- the inputs handed to a stage ---

  datatype ResolvedInput = Collection(units: Units) | Single(artifact: Artifact)
  type Inputs = map<SlotName, ResolvedInput>

  /** The slot's units do not fit the slot: an empty required collection, or several units for a scalar. */
  predicate Misfit(def: Def, r: Resolved, stage: StageKey, slot: InputSlot) {
    var units := UnitsAt(r, Endpoint(stage, slot.name));
    if Collects(def, stage, slot) then units == map[] && !slot.optional else |units| > 1
  }

  predicate InputsFitSlots(def: Def, r: Resolved, stage: StageKey) {
    stage in def.stages && forall slot :: slot in def.stages[stage].inputs ==> !Misfit(def, r, stage, slot)
  }

  /** The inputs fit exactly if no required collection is empty and no scalar slot holds two units. */
  lemma InputsFitIff(def: Def, r: Resolved, stage: StageKey)
    requires stage in def.stages
    ensures InputsFitSlots(def, r, stage) <==>
            forall slot :: slot in def.stages[stage].inputs ==> SlotFits(def, r, stage, slot)
  {
    forall slot | slot in def.stages[stage].inputs
      ensures SlotFits(def, r, stage, slot) <==> !Misfit(def, r, stage, slot)
    {
      SlotFitsIff(def, r, stage, slot);
    }
  }

  ghost predicate SlotFits(def: Def, r: Resolved, stage: StageKey, slot: InputSlot) {
    var to := Endpoint(stage, slot.name);
    if slot.collect || FansOverFanned(def, to) then
      slot.optional || exists unit :: Lookup(r, to, unit).Some?
    else
      forall u, v :: Lookup(r, to, u).Some? && Lookup(r, to, v).Some? ==> u == v
  }

  lemma SlotFitsIff(def: Def, r: Resolved, stage: StageKey, slot: InputSlot)
    ensures SlotFits(def, r, stage, slot) <==> !Misfit(def, r, stage, slot)
  {
    CollectsIs(def, stage, slot);
    var to := Endpoint(stage, slot.name);
    var units := UnitsAt(r, to);
    assert forall u :: Lookup(r, to, u).Some? <==> u in units;
    assert |units| == |units.Keys|;
    if units != map[] {
      var unit :| unit in units;
      assert Lookup(r, to, unit).Some?;
      AtMostOne(units.Keys, unit);
      if y :| y in units.Keys && y != unit {
        assert Lookup(r, to, y).Some?;
      }
    }
  }

  lemma AtMostOne<T>(s: set<T>, x: T)
    requires x in s
    ensures |s| > 1 <==> exists y :: y in s && y != x
  {
    if y :| y in s && y != x {
      SubsetSize({x, y}, s);
    } else {
      assert s == {x};
    }
  }

  lemma SourceInputsFit(def: Def, stage: StageKey)
    requires IsSource(def, stage)
    ensures InputsFitSlots(def, map[], stage)
  {
  }

  /** What a slot contributes: all its units, its only unit, or nothing. */
  predicate Contributes(def: Def, r: Resolved, stage: StageKey, slot: InputSlot, input: Option<ResolvedInput>) {
    var units := UnitsAt(r, Endpoint(stage, slot.name));
    if Collects(def, stage, slot) then input == Some(Collection(units))
    else if units == map[] then input == None
    else input.Some? && input.value.Single? && input.value.artifact in units.Values
  }

  function InputAt(inputs: Inputs, name: SlotName): Option<ResolvedInput> {
    if name in inputs then Some(inputs[name]) else None
  }

  predicate NamedOnce(slots: seq<InputSlot>, i: nat)
    requires i < |slots|
  {
    forall j :: 0 <= j < |slots| && j != i ==> slots[j].name != slots[i].name
  }

  /** Every slot whose name is not declared twice is bound to what it contributes. */
  ghost predicate InputsFit(def: Def, r: Resolved, stage: StageKey, inputs: Inputs)
    requires stage in def.stages
  {
    var slots := def.stages[stage].inputs;
    forall i :: 0 <= i < |slots| && NamedOnce(slots, i)
                ==> Contributes(def, r, stage, slots[i], InputAt(inputs, slots[i].name))
  }

  method ResolveInputs(def: Def, r: Resolved, stage: StageKey) returns (res: Option<Inputs>)
    requires stage in def.stages
    ensures res.Some? <==> InputsFitSlots(def, r, stage)
    ensures res.Some? ==> InputsFit(def, r, stage, res.value)
    ensures res.Some? ==> forall name :: name in res.value
                                         ==> exists slot :: slot in def.stages[stage].inputs && slot.name == name
  {
    var slots := def.stages[stage].inputs;
    var inputs: Inputs := map[];
    for k := 0 to |slots|
      invariant forall j :: 0 <= j < k ==> !Misfit(def, r, stage, slots[j])
      invariant forall name :: name in inputs ==> exists j :: 0 <= j < k && slots[j].name == name
      invariant forall i :: 0 <= i < k && NamedOnce(slots, i)
                  ==> Contributes(def, r, stage, slots[i], InputAt(inputs, slots[i].name))
    {
      var slot := slots[k];
      var units := UnitsAt(r, Endpoint(stage, slot.name));
      if Misfit(def, r, stage, slot) {
        return None;
      }
      ghost var before := inputs;
      if Collects(def, stage, slot) {
        inputs := inputs[slot.name := Collection(units)];
      } else if |units| == 1 {
        var unit :| unit in units;
        inputs := inputs[slot.name := Single(units[unit])];
      }
      forall i | 0 <= i <= k && NamedOnce(slots, i)
        ensures Contributes(def, r, stage, slots[i], InputAt(inputs, slots[i].name))
      {
        if i < k {
          assert slots[k].name != slots[i].name;
          assert InputAt(inputs, slots[i].name) == InputAt(before, slots[i].name);
        } else {
          assert slot.name !in before;
        }
      }
    }
    return Some(inputs);
  }
}
