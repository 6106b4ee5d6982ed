/**
 Where the contents of `resolved` come from, and when they are complete: the invariants of a fresh run
 and the steps that keep them (oakridge-core/src/scheduler.rs, RunTask).
 */
module Gathering {
  import opened Optional
  import opened Workflow
  import opened Readiness

  /** `done`: the stages that have been Done at some time. */
  datatype State = State(index: Index, resolved: Resolved, rows: seq<Artifact>, done: set<StageKey>, nextId: nat,
                         handles: set<InstanceId>)

  // --- the latest artifact of every output and unit ---

  /** known_outputs: the declared type of an output; a later declaration of the same name replaces an earlier one. */
  function KnownType(outputs: seq<OutputSlot>, name: SlotName): Option<TypeName> {
    if outputs == [] then None
    else if outputs[|outputs| - 1].name == name then Some(outputs[|outputs| - 1].artifactType)
    else KnownType(outputs[..|outputs| - 1], name)
  }

  predicate Emits(node: StageNode, a: Artifact) {
    a.outputName.Some? && KnownType(node.outputs, a.outputName.value) == Some(a.artifactType)
  }

  /** The row is a version of what the instance emitted for this output and unit. */
  predicate Candidate(node: StageNode, id: InstanceId, output: SlotName, unit: string, a: Artifact) {
    a.instance == id && a.outputName == Some(output) && Emits(node, a) && UnitLabel(a) == unit
  }

  /** The last declaration of an output name gives its type. */
  lemma {:induction false} KnownTypeIsLast(outputs: seq<OutputSlot>, name: SlotName)
    ensures match KnownType(outputs, name)
            case None => forall i :: 0 <= i < |outputs| ==> outputs[i].name != name
            case Some(t) => exists i :: 0 <= i < |outputs| && outputs[i] == OutputSlot(name, t)
                                        && forall j :: i < j < |outputs| ==> outputs[j].name != name
  {
    if outputs != [] {
      var k := |outputs| - 1;
      if outputs[k].name != name {
        KnownTypeIsLast(outputs[..k], name);
        assert forall i :: 0 <= i < k ==> outputs[..k][i] == outputs[i];
        if KnownType(outputs[..k], name).Some? {
          var i :| 0 <= i < k && outputs[..k][i] == OutputSlot(name, KnownType(outputs[..k], name).value)
                   && forall j :: i < j < k ==> outputs[..k][j].name != name;
          assert outputs[i] == OutputSlot(name, KnownType(outputs, name).value);
        }
      } else {
        assert outputs[k] == OutputSlot(name, outputs[k].artifactType);
      }
    }
  }

  /** A row counts for an output and unit if it is the instance's, names the output, and has its declared type. */
  lemma CandidateIs(node: StageNode, id: InstanceId, output: SlotName, unit: string, a: Artifact)
    ensures Candidate(node, id, output, unit, a) <==>
            a.instance == id && a.outputName == Some(output) && IsForUnit(a, unit)
            && exists i :: 0 <= i < |node.outputs| && node.outputs[i] == OutputSlot(output, a.artifactType)
                           && forall j :: i < j < |node.outputs| ==> node.outputs[j].name != output
  {
    KnownTypeIsLast(node.outputs, output);
  }

  predicate Supersedes(a: Artifact, b: Artifact) {
    a.version > b.version || (a.version == b.version && a.createdAt > b.createdAt)
  }

  ghost predicate IsLatest(node: StageNode, id: InstanceId, rows: seq<Artifact>, output: SlotName, unit: string,
                           cell: Option<Artifact>) {
    match cell
    case None => forall a :: a in rows ==> !Candidate(node, id, output, unit, a)
    case Some(b) => b in rows && Candidate(node, id, output, unit, b)
                    && forall a :: a in rows && Candidate(node, id, output, unit, a)
                                   ==> a.version < b.version || (a.version == b.version && a.createdAt <= b.createdAt)
  }

  datatype OutputUnit = OutputUnit(output: SlotName, unit: string)
  type Latest = map<OutputUnit, Artifact>

  function LatestAt(m: Latest, k: OutputUnit): Option<Artifact> {
    if k in m then Some(m[k]) else None
  }

  ghost predicate HoldsLatest(node: StageNode, id: InstanceId, rows: seq<Artifact>, m: Latest) {
    forall k: OutputUnit :: IsLatest(node, id, rows, k.output, k.unit, LatestAt(m, k))
  }

  lemma RowKeepsLatest(node: StageNode, id: InstanceId, rows: seq<Artifact>, a: Artifact, m: Latest, m': Latest)
    requires HoldsLatest(node, id, rows, m)
    requires if a.instance == id && Emits(node, a)
                && var k := OutputUnit(a.outputName.value, UnitLabel(a)); (k !in m || Supersedes(a, m[k]))
             then m' == m[OutputUnit(a.outputName.value, UnitLabel(a)) := a] else m' == m
    ensures HoldsLatest(node, id, rows + [a], m')
  {
    forall k: OutputUnit ensures IsLatest(node, id, rows + [a], k.output, k.unit, LatestAt(m', k)) {
      assert IsLatest(node, id, rows, k.output, k.unit, LatestAt(m, k));
    }
  }

  method LatestByOutputAndUnit(node: StageNode, id: InstanceId, rows: seq<Artifact>) returns (m: Latest)
    ensures HoldsLatest(node, id, rows, m)
  {
    m := map[];
    for i := 0 to |rows|
      invariant HoldsLatest(node, id, rows[..i], m)
    {
      var a := rows[i];
      ghost var before := m;
      if a.instance == id && Emits(node, a) {
        var k := OutputUnit(a.outputName.value, UnitLabel(a));
        if k !in m || Supersedes(a, m[k]) {
          m := m[k := a];
        }
      }
      RowKeepsLatest(node, id, rows[..i], a, before, m);
      assert rows[..i + 1] == rows[..i] + [a];
    }
    assert rows[..|rows|] == rows;
  }

  predicate IsRelease(stage: StageKey, m: Latest, o: Output) {
    o.stage == stage && LatestAt(m, OutputUnit(o.slot, UnitLabel(o.artifact))) == Some(o.artifact)
  }

  ghost predicate IsReleased(m: Latest, k: OutputUnit, batch: seq<Output>)
    requires k in m
  {
    exists i :: 0 <= i < |batch| && batch[i].artifact == m[k] && batch[i].slot == k.output
  }

  /** The batch a completed stage releases: the outputs in `m` and no others, in any order. */
  ghost predicate BatchOf(stage: StageKey, m: Latest, batch: seq<Output>) {
    && (forall i :: 0 <= i < |batch| ==> IsRelease(stage, m, batch[i]))
    && (forall k :: k in m ==> IsReleased(m, k, batch))
  }

  method BatchFrom(stage: StageKey, m: Latest) returns (batch: seq<Output>)
    requires forall k :: k in m ==> UnitLabel(m[k]) == k.unit
    ensures BatchOf(stage, m, batch)
  {
    batch := [];
    var left := m.Keys;
    while left != {}
      invariant left <= m.Keys
      invariant forall i :: 0 <= i < |batch| ==> IsRelease(stage, m, batch[i])
      invariant forall k :: k in m && k !in left ==> IsReleased(m, k, batch)
      decreases |left|
    {
      var k :| k in left;
      ghost var before := batch;
      batch := batch + [Output(stage, m[k], k.output)];
      left := left - {k};
      assert OutputUnit(k.output, UnitLabel(m[k])) == k;
      assert batch[|before|].artifact == m[k];
      forall j | j in m && j !in left ensures IsReleased(m, j, batch) {
        if j != k {
          var i :| 0 <= i < |before| && before[i].artifact == m[j] && before[i].slot == j.output;
          assert batch[i] == before[i];
        }
      }
    }
  }

  // --- the invariants ---

  ghost predicate Identified(def: Def, s: State) {
    && (forall k :: k in s.index ==> k in def.stages && s.index[k].id < s.nextId)
    && (forall j, k :: j in s.index && k in s.index && s.index[j].id == s.index[k].id ==> j == k)
    && (forall k :: IsDone(s.index, k) ==> k in s.done)
  }

  /** The stage `p` filed `b`; if it is a delegated stage, it has been Done and `b` is one of its rows. */
  ghost predicate FiledBy(def: Def, s: State, to: Endpoint, unit: string, b: Artifact, p: StageKey) {
    && p in Producers(def, to) && p in s.index && p in def.stages
    && s.index[p].id == b.instance && unit == UnitKey(def, p, to, UnitLabel(b))
    && (IsDelegated(def, p) ==> && p in s.done && b in s.rows && Emits(def.stages[p], b)
                                && Edge(Endpoint(p, b.outputName.value), to) in def.edges)
  }

  ghost predicate Filed(def: Def, s: State, to: Endpoint, unit: string, b: Artifact) {
    exists p :: FiledBy(def, s, to, unit, b, p)
  }

  ghost predicate Origin(def: Def, s: State) {
    forall to, unit :: !IsUnitComplete(def, to) && Lookup(s.resolved, to, unit).Some?
                       ==> Filed(def, s, to, unit, Lookup(s.resolved, to, unit).value)
  }

  /** A slot fed only by delegated stages, each by one edge, whose keys cannot collide. */
  ghost predicate GatherSlot(def: Def, to: Endpoint) {
    && !IsUnitComplete(def, to) && KeysApart(def, to)
    && (forall p :: p in Producers(def, to) ==> IsDelegated(def, p))
    && (forall e, f :: e in def.edges && f in def.edges && e.to == to && f.to == to && e.from.stage == f.from.stage
                       ==> e == f)
  }

  /** Everything the producer emitted for the edge is in the slot, in its latest version. */
  ghost predicate Complete(def: Def, s: State, e: Edge)
    requires e.from.stage in s.index && e.from.stage in def.stages
  {
    var p := e.from.stage;
    forall unit :: IsLatest(def.stages[p], s.index[p].id, s.rows, e.from.slot, unit,
                            Lookup(s.resolved, e.to, UnitKey(def, p, e.to, unit)))
  }

  ghost predicate IsOwed(def: Def, s: State, e: Edge, releasing: set<StageKey>) {
    GatherSlot(def, e.to) && IsDone(s.index, e.from.stage) && e.from.stage in def.stages && e.from.stage !in releasing
  }

  /** Every gathered slot is complete for each producer that is Done, apart from the stage being released. */
  ghost predicate Gathered(def: Def, s: State, releasing: set<StageKey>) {
    forall e :: e in def.edges && IsOwed(def, s, e, releasing) ==> Complete(def, s, e)
  }

  ghost predicate IsIncremental(def: Def, stage: StageKey) {
    stage in def.stages && exists slot :: slot in def.stages[stage].inputs && slot.delivery == UnitComplete
  }

  /** A required slot fed only by delegated stages has seen one of them Done. */
  ghost predicate Gated(def: Def, done: set<StageKey>, stage: StageKey) {
    stage in def.stages && !IsIncremental(def, stage) ==>
      forall slot :: slot in def.stages[stage].inputs && !slot.optional
                     && (forall p :: p in Producers(def, Endpoint(stage, slot.name)) ==> IsDelegated(def, p))
                     ==> exists p :: p in Producers(def, Endpoint(stage, slot.name)) && p in done
  }

  ghost predicate Inv(def: Def, s: State, releasing: set<StageKey>) {
    Identified(def, s) && Origin(def, s) && Gathered(def, s, releasing)
    && forall k :: k in s.index ==> Gated(def, s.done, k)
  }

  lemma FreshRun(def: Def)
    ensures Inv(def, State(map[], map[], [], {}, 0, {}), {})
  {
  }

  // --- a ready stage is gated, and its collections are complete ---

  /** The gate: an artifact of a delegated stage is in a producer_complete slot only once that stage has been Done. */
  lemma GateHolds(def: Def, s: State, p: StageKey, to: Endpoint, unit: string)
    requires Inv(def, s, {}) && p in s.index && IsDelegated(def, p) && !IsUnitComplete(def, to)
    requires Lookup(s.resolved, to, unit).Some? && Lookup(s.resolved, to, unit).value.instance == s.index[p].id
    ensures p in s.done && Lookup(s.resolved, to, unit).value in s.rows
  {
    var b := Lookup(s.resolved, to, unit).value;
    assert Filed(def, s, to, unit, b);
    var q :| FiledBy(def, s, to, unit, b, q);
    assert q == p;
  }

  lemma IncrementalSlot(def: Def, to: Endpoint)
    requires IsUnitComplete(def, to)
    ensures IsIncremental(def, to.stage)
  {
    FoundSlotIsDeclared(def.stages[to.stage].inputs, to.slot);
  }

  lemma SatisfiedIsGated(def: Def, s: State, stage: StageKey)
    requires Inv(def, s, {}) && Satisfied(def, s.index, s.resolved, stage)
    ensures Gated(def, s.done, stage)
  {
    if !IsIncremental(def, stage) {
      forall slot | slot in def.stages[stage].inputs && !slot.optional
                    && (forall p :: p in Producers(def, Endpoint(stage, slot.name)) ==> IsDelegated(def, p))
        ensures exists p :: p in Producers(def, Endpoint(stage, slot.name)) && p in s.done
      {
        SatisfiedSlotIsGated(def, s, stage, slot);
      }
    }
  }

  lemma SatisfiedSlotIsGated(def: Def, s: State, stage: StageKey, slot: InputSlot)
    requires Inv(def, s, {}) && SlotSatisfied(def, s.index, s.resolved, stage, slot)
    requires !IsIncremental(def, stage)
    requires forall p :: p in Producers(def, Endpoint(stage, slot.name)) ==> IsDelegated(def, p)
    ensures exists p :: p in Producers(def, Endpoint(stage, slot.name)) && p in s.done
  {
    var to := Endpoint(stage, slot.name);
    if WaitsForCompletion(def, stage, slot) {
      var p :| p in Producers(def, to);
      assert IsDone(s.index, p);
    } else {
      var unit :| unit in UnitsAt(s.resolved, to);
      if IsUnitComplete(def, to) { IncrementalSlot(def, to); }
      assert Lookup(s.resolved, to, unit).Some?;
      var p :| FiledBy(def, s, to, unit, Lookup(s.resolved, to, unit).value, p);
    }
  }

  function UnitAt(units: Units, key: string): Option<Artifact> {
    if key in units then Some(units[key]) else None
  }

  /** One entry per emitted (producer, unit), each the latest, and no other entry. */
  ghost predicate ExactGather(def: Def, s: State, to: Endpoint, units: Units) {
    && (forall e :: e in def.edges && e.to == to ==> e.from.stage in s.index && e.from.stage in def.stages)
    && (forall e, unit :: e in def.edges && e.to == to ==>
          IsLatest(def.stages[e.from.stage], s.index[e.from.stage].id, s.rows, e.from.slot, unit,
                   UnitAt(units, UnitKey(def, e.from.stage, to, unit))))
    && (forall key :: key in units ==> exists e :: e in def.edges && e.to == to
                                                   && key == UnitKey(def, e.from.stage, to, UnitLabel(units[key]))
                                                   && Candidate(def.stages[e.from.stage], s.index[e.from.stage].id,
                                                                e.from.slot, UnitLabel(units[key]), units[key]))
  }

  lemma CompleteGather(def: Def, s: State, to: Endpoint)
    requires Inv(def, s, {}) && GatherSlot(def, to) && ProducersDone(def, s.index, to)
    ensures ExactGather(def, s, to, UnitsAt(s.resolved, to))
  {
    var units := UnitsAt(s.resolved, to);
    forall e | e in def.edges && e.to == to
      ensures e.from.stage in s.index && e.from.stage in def.stages && Complete(def, s, e)
    {
      assert e.from.stage in Producers(def, to);
      assert IsDone(s.index, e.from.stage) && IsOwed(def, s, e, {});
    }
    forall e, unit | e in def.edges && e.to == to
      ensures IsLatest(def.stages[e.from.stage], s.index[e.from.stage].id, s.rows, e.from.slot, unit,
                       UnitAt(units, UnitKey(def, e.from.stage, to, unit)))
    {
      assert Complete(def, s, e);
      var key := UnitKey(def, e.from.stage, to, unit);
      assert Lookup(s.resolved, to, key) == UnitAt(units, key);
    }
    forall key | key in units
      ensures exists e :: e in def.edges && e.to == to && key == UnitKey(def, e.from.stage, to, UnitLabel(units[key]))
                          && Candidate(def.stages[e.from.stage], s.index[e.from.stage].id, e.from.slot,
                                       UnitLabel(units[key]), units[key])
    {
      assert Lookup(s.resolved, to, key) == Some(units[key]);
      var p :| FiledBy(def, s, to, key, units[key], p);
      var e := Edge(Endpoint(p, units[key].outputName.value), to);
      assert e in def.edges && e.to == to;
    }
  }

  /** With one producer the entries of an exact gather are named by the units alone. */
  lemma SoleGatherIsByUnit(def: Def, s: State, to: Endpoint, units: Units, e: Edge, unit: string)
    requires ExactGather(def, s, to, units) && e in def.edges && e.to == to && Producers(def, to) == {e.from.stage}
    ensures e.from.stage in s.index && e.from.stage in def.stages
    ensures IsLatest(def.stages[e.from.stage], s.index[e.from.stage].id, s.rows, e.from.slot, unit, UnitAt(units, unit))
    ensures unit in units ==> IsForUnit(units[unit], unit)
  {
    assert UnitKey(def, e.from.stage, to, unit) == unit;
  }

  /** With several, by the producer's key, a ':' and the unit. */
  lemma SharedGatherIsByProducer(def: Def, s: State, to: Endpoint, units: Units, e: Edge, f: Edge, unit: string)
    requires ExactGather(def, s, to, units) && e in def.edges && f in def.edges && e.to == to && f.to == to
    requires e.from.stage != f.from.stage
    ensures e.from.stage in s.index && e.from.stage in def.stages
    ensures IsLatest(def.stages[e.from.stage], s.index[e.from.stage].id, s.rows, e.from.slot, unit,
                     UnitAt(units, e.from.stage.text + ":" + unit))
  {
    assert e.from.stage in Producers(def, to) && f.from.stage in Producers(def, to);
    SeveralProducers(def, to, e.from.stage, f.from.stage);
    assert UnitKey(def, e.from.stage, to, unit) == e.from.stage.text + ":" + unit;
  }

  // --- steps that do not file artifacts ---

  ghost predicate Extends(s: State, s': State) {
    && (forall k :: k in s.index ==> k in s'.index && s'.index[k].id == s.index[k].id)
    && s.done <= s'.done && (forall a :: a in s.rows ==> a in s'.rows)
  }

  lemma FiledStays(def: Def, s: State, s': State, to: Endpoint, unit: string, b: Artifact)
    requires Extends(s, s') && Filed(def, s, to, unit, b)
    ensures Filed(def, s', to, unit, b)
  {
    var p :| FiledBy(def, s, to, unit, b, p);
    assert FiledBy(def, s', to, unit, b, p);
  }

  lemma OriginStays(def: Def, s: State, s': State)
    requires Origin(def, s) && Extends(s, s') && s'.resolved == s.resolved
    ensures Origin(def, s')
  {
    forall to, unit | !IsUnitComplete(def, to) && Lookup(s'.resolved, to, unit).Some?
      ensures Filed(def, s', to, unit, Lookup(s'.resolved, to, unit).value)
    {
      FiledStays(def, s, s', to, unit, Lookup(s.resolved, to, unit).value);
    }
  }

  lemma StartKeepsInv(def: Def, s: State, stage: StageKey, status: StageStatus, s': State)
    requires Inv(def, s, {}) && stage !in s.index && stage in def.stages && status != Done && Gated(def, s.done, stage)
    requires s' == s.(index := s.index[stage := Entry(s.nextId, status)], nextId := s.nextId + 1, handles := s'.handles)
    ensures Inv(def, s', {})
  {
    OriginStays(def, s, s');
    forall e | e in def.edges && IsOwed(def, s', e, {})
      ensures Complete(def, s', e)
    {
      assert IsOwed(def, s, e, {});
    }
  }

  lemma StatusKeepsInv(def: Def, s: State, stage: StageKey, status: StageStatus, s': State)
    requires Inv(def, s, {}) && stage in s.index
    requires s' == s.(index := s.index[stage := s.index[stage].(status := status)],
                      done := if status == Done then s.done + {stage} else s.done, handles := s'.handles)
    ensures Inv(def, s', if status == Done then {stage} else {})
  {
    OriginStays(def, s, s');
    forall e | e in def.edges && IsOwed(def, s', e, if status == Done then {stage} else {})
      ensures Complete(def, s', e)
    {
      assert IsOwed(def, s, e, {});
    }
    forall k | k in s'.index ensures Gated(def, s'.done, k) {
      assert Gated(def, s.done, k);
    }
  }

  /** A new row harms nothing while its instance is not Done. */
  lemma RowKeepsInv(def: Def, s: State, a: Artifact, s': State)
    requires Inv(def, s, {})
    requires forall k :: IsDone(s.index, k) ==> s.index[k].id != a.instance
    requires s' == s.(rows := s.rows + [a])
    ensures Inv(def, s', {})
  {
    OriginStays(def, s, s');
    forall e | e in def.edges && IsOwed(def, s', e, {})
      ensures Complete(def, s', e)
    {
      assert IsOwed(def, s, e, {});
      var p := e.from.stage;
      forall unit ensures IsLatest(def.stages[p], s.index[p].id, s'.rows, e.from.slot, unit,
                                   Lookup(s.resolved, e.to, UnitKey(def, p, e.to, unit))) {
        assert IsLatest(def.stages[p], s.index[p].id, s.rows, e.from.slot, unit,
                        Lookup(s.resolved, e.to, UnitKey(def, p, e.to, unit)));
      }
    }
  }

  /** Handles play no part in where artifacts come from. */
  lemma SameButHandles(def: Def, s: State, s': State, releasing: set<StageKey>)
    requires Inv(def, s, releasing) && s' == s.(handles := s'.handles)
    ensures Inv(def, s', releasing)
  {
    OriginStays(def, s, s');
    forall e | e in def.edges && IsOwed(def, s', e, releasing) ensures Complete(def, s', e) {
      assert IsOwed(def, s, e, releasing);
    }
  }

  // --- steps that file artifacts ---

  /** A unit delivered early goes only to a unit_complete slot. */
  lemma UnitKeepsInv(def: Def, s: State, to: Endpoint, unit: string, a: Artifact, s': State)
    requires Inv(def, s, {}) && IsUnitComplete(def, to)
    requires s' == s.(resolved := Insert(s.resolved, to, unit, a))
    ensures Inv(def, s', {})
  {
    forall at, u | !IsUnitComplete(def, at) && Lookup(s'.resolved, at, u).Some?
      ensures Filed(def, s', at, u, Lookup(s'.resolved, at, u).value)
    {
      assert Lookup(s'.resolved, at, u) == Lookup(s.resolved, at, u);
      FiledStays(def, s, s', at, u, Lookup(s.resolved, at, u).value);
    }
    forall e | e in def.edges && IsOwed(def, s', e, {})
      ensures Complete(def, s', e)
    {
      assert IsOwed(def, s, e, {});
      assert UnitsAt(s'.resolved, e.to) == UnitsAt(s.resolved, e.to);
    }
  }

  /** Filing an artifact of a stage that is not delegated leaves the gathered slots alone. */
  lemma FileKeepsInv(def: Def, s: State, o: Output, s': State)
    requires Inv(def, s, {}) && o.stage in s.index && s.index[o.stage].id == o.artifact.instance
    requires !IsDelegated(def, o.stage)
    requires s' == s.(resolved := FileOutput(def, s.resolved, o))
    ensures Inv(def, s', {})
  {
    forall to, unit | !IsUnitComplete(def, to) && Lookup(s'.resolved, to, unit).Some?
      ensures Filed(def, s', to, unit, Lookup(s'.resolved, to, unit).value)
    {
      FileOutputCell(def, s.resolved, o, to, unit);
      if Reaches(def, o, to, unit) {
        assert Edge(Endpoint(o.stage, o.slot), to).from.stage in Producers(def, to);
        assert FiledBy(def, s', to, unit, o.artifact, o.stage);
      } else {
        FiledStays(def, s, s', to, unit, Lookup(s.resolved, to, unit).value);
      }
    }
    forall e | e in def.edges && IsOwed(def, s', e, {})
      ensures Complete(def, s', e)
    {
      assert IsOwed(def, s, e, {});
      forall unit ensures Lookup(s'.resolved, e.to, unit) == Lookup(s.resolved, e.to, unit) {
        FileOutputCell(def, s.resolved, o, e.to, unit);
        assert Reaches(def, o, e.to, unit) ==> Edge(Endpoint(o.stage, o.slot), e.to).from.stage in Producers(def, e.to);
      }
    }
  }

  /** The batch `batch` of the latest artifacts of the stage `p`, which has just become Done. */
  ghost predicate Releases(def: Def, s: State, p: StageKey, m: Latest, batch: seq<Output>) {
    && IsDelegated(def, p) && IsDone(s.index, p)
    && HoldsLatest(def.stages[p], s.index[p].id, s.rows, m) && BatchOf(p, m, batch)
  }

  lemma ReleasedIsLatest(def: Def, s: State, p: StageKey, m: Latest, batch: seq<Output>, i: nat)
    requires Releases(def, s, p, m, batch) && i < |batch|
    ensures batch[i].stage == p && batch[i].artifact in s.rows
    ensures IsLatest(def.stages[p], s.index[p].id, s.rows, batch[i].slot, UnitLabel(batch[i].artifact),
                     Some(batch[i].artifact))
  {
    assert IsRelease(p, m, batch[i]);
    var k := OutputUnit(batch[i].slot, UnitLabel(batch[i].artifact));
    assert IsLatest(def.stages[p], s.index[p].id, s.rows, k.output, k.unit, LatestAt(m, k));
  }

  lemma ReleaseKeepsOrigin(def: Def, s: State, p: StageKey, m: Latest, batch: seq<Output>, s': State)
    requires Identified(def, s) && Origin(def, s) && Releases(def, s, p, m, batch)
    requires s' == s.(resolved := FileAll(def, s.resolved, batch))
    ensures Origin(def, s')
  {
    forall to, unit | !IsUnitComplete(def, to) && Lookup(s'.resolved, to, unit).Some?
      ensures Filed(def, s', to, unit, Lookup(s'.resolved, to, unit).value)
    {
      var cell := Lookup(s'.resolved, to, unit);
      FileAllCell(def, s.resolved, batch, to, unit);
      if i :| 0 <= i < |batch| && Reaches(def, batch[i], to, unit) && cell == Some(batch[i].artifact) {
        ReleasedIsLatest(def, s, p, m, batch, i);
        assert Edge(Endpoint(p, batch[i].slot), to).from.stage in Producers(def, to);
        assert FiledBy(def, s', to, unit, cell.value, p);
      } else {
        FiledStays(def, s, s', to, unit, cell.value);
      }
    }
  }

  /** In a gathered slot a released artifact reaches its own stage's unit and no other cell. */
  lemma ReleaseReaches(def: Def, o: Output, e: Edge, unit: string)
    requires e in def.edges && GatherSlot(def, e.to)
    ensures Reaches(def, o, e.to, UnitKey(def, e.from.stage, e.to, unit))
            <==> o.stage == e.from.stage && o.slot == e.from.slot && UnitLabel(o.artifact) == unit
  {
    assert e.from.stage in Producers(def, e.to);
    if Reaches(def, o, e.to, UnitKey(def, e.from.stage, e.to, unit)) {
      var f := Edge(Endpoint(o.stage, o.slot), e.to);
      assert f in def.edges && f.from.stage in Producers(def, e.to);
      UnitKeyInjective(def, e.to, o.stage, e.from.stage, UnitLabel(o.artifact), unit);
    } else if o.stage == e.from.stage && o.slot == e.from.slot {
      assert Edge(Endpoint(o.stage, o.slot), e.to) == e;
    }
  }

  /** An occupied cell of a gathered slot holds a row its stage emitted for that unit. */
  lemma OccupiedMeansEmitted(def: Def, s: State, e: Edge, unit: string)
    requires Identified(def, s) && Origin(def, s) && IsDone(s.index, e.from.stage)
    requires e in def.edges && GatherSlot(def, e.to)
    requires Lookup(s.resolved, e.to, UnitKey(def, e.from.stage, e.to, unit)).Some?
    ensures exists a :: a in s.rows
                        && Candidate(def.stages[e.from.stage], s.index[e.from.stage].id, e.from.slot, unit, a)
  {
    var key := UnitKey(def, e.from.stage, e.to, unit);
    var b := Lookup(s.resolved, e.to, key).value;
    assert Filed(def, s, e.to, key, b);
    var p :| FiledBy(def, s, e.to, key, b, p);
    assert e.from.stage in Producers(def, e.to);
    UnitKeyInjective(def, e.to, p, e.from.stage, UnitLabel(b), unit);
    assert Edge(Endpoint(p, b.outputName.value), e.to) == e;
  }

  lemma HeldIsDelivered(def: Def, s: State, m: Latest, batch: seq<Output>, e: Edge, unit: string)
    requires Releases(def, s, e.from.stage, m, batch) && e in def.edges && GatherSlot(def, e.to)
    requires OutputUnit(e.from.slot, unit) in m
    ensures exists i :: 0 <= i < |batch| && Reaches(def, batch[i], e.to, UnitKey(def, e.from.stage, e.to, unit))
  {
    var k := OutputUnit(e.from.slot, unit);
    assert IsReleased(m, k, batch);
    var i :| 0 <= i < |batch| && batch[i].artifact == m[k] && batch[i].slot == k.output;
    assert IsRelease(e.from.stage, m, batch[i]);
    assert IsLatest(def.stages[e.from.stage], s.index[e.from.stage].id, s.rows, k.output, k.unit, LatestAt(m, k));
    ReleaseReaches(def, batch[i], e, unit);
  }

  lemma ReleaseCompletesUnit(def: Def, s: State, m: Latest, batch: seq<Output>, s': State, e: Edge, unit: string)
    requires Identified(def, s) && Origin(def, s) && Releases(def, s, e.from.stage, m, batch)
    requires s' == s.(resolved := FileAll(def, s.resolved, batch)) && e in def.edges && GatherSlot(def, e.to)
    ensures IsLatest(def.stages[e.from.stage], s.index[e.from.stage].id, s.rows, e.from.slot, unit,
                     Lookup(s'.resolved, e.to, UnitKey(def, e.from.stage, e.to, unit)))
  {
    var p, key, k := e.from.stage, UnitKey(def, e.from.stage, e.to, unit), OutputUnit(e.from.slot, unit);
    assert IsLatest(def.stages[p], s.index[p].id, s.rows, k.output, k.unit, LatestAt(m, k));
    if k in m {
      HeldIsDelivered(def, s, m, batch, e, unit);
    }
    if Lookup(s.resolved, e.to, key).Some? {
      OccupiedMeansEmitted(def, s, e, unit);
    }
    FileAllCell(def, s.resolved, batch, e.to, key);
    if i :| 0 <= i < |batch| && Reaches(def, batch[i], e.to, key)
            && Lookup(s'.resolved, e.to, key) == Some(batch[i].artifact) {
      ReleaseReaches(def, batch[i], e, unit);
      ReleasedIsLatest(def, s, p, m, batch, i);
    }
  }

  lemma ReleaseSparesOthers(def: Def, s: State, p: StageKey, m: Latest, batch: seq<Output>, s': State, e: Edge,
                            unit: string)
    requires Releases(def, s, p, m, batch) && e.from.stage != p
    requires s' == s.(resolved := FileAll(def, s.resolved, batch)) && e in def.edges && GatherSlot(def, e.to)
    ensures var key := UnitKey(def, e.from.stage, e.to, unit);
            Lookup(s'.resolved, e.to, key) == Lookup(s.resolved, e.to, key)
  {
    var key := UnitKey(def, e.from.stage, e.to, unit);
    FileAllCell(def, s.resolved, batch, e.to, key);
    forall i | 0 <= i < |batch| ensures !Reaches(def, batch[i], e.to, key) {
      ReleaseReaches(def, batch[i], e, unit);
      assert IsRelease(p, m, batch[i]);
    }
  }

  /** Releasing the completed stage makes its gathered slots complete and keeps the others so. */
  lemma ReleaseKeepsInv(def: Def, s: State, p: StageKey, m: Latest, batch: seq<Output>, s': State)
    requires Inv(def, s, {p}) && Releases(def, s, p, m, batch)
    requires s' == s.(resolved := FileAll(def, s.resolved, batch))
    ensures Inv(def, s', {})
  {
    ReleaseKeepsOrigin(def, s, p, m, batch, s');
    forall e | e in def.edges && IsOwed(def, s', e, {})
      ensures Complete(def, s', e)
    {
      forall unit ensures IsLatest(def.stages[e.from.stage], s'.index[e.from.stage].id, s'.rows, e.from.slot, unit,
                                   Lookup(s'.resolved, e.to, UnitKey(def, e.from.stage, e.to, unit))) {
        if e.from.stage == p {
          ReleaseCompletesUnit(def, s, m, batch, s', e, unit);
        } else {
          ReleaseSparesOthers(def, s, p, m, batch, s', e, unit);
          assert IsOwed(def, s, e, {p});
        }
      }
    }
  }

  /** A stage that is not delegated feeds no gathered slot. */
  lemma NothingToRelease(def: Def, s: State, p: StageKey)
    requires Inv(def, s, {p}) && !IsDelegated(def, p)
    ensures Inv(def, s, {})
  {
    forall e | e in def.edges && IsOwed(def, s, e, {})
      ensures Complete(def, s, e)
    {
      assert e.from.stage in Producers(def, e.to);
      assert IsOwed(def, s, e, {p});
    }
  }

  // --- launches ---

  /** What a stage was given when it was executed, and the state it was taken from. */
  datatype Launch = Launch(stage: StageKey, retried: bool, inputs: Inputs, at: State)

  /** The stage waits for the slot's producers and may gather from them. */
  ghost predicate AwaitsGather(def: Def, stage: StageKey, i: nat)
    requires stage in def.stages && i < |def.stages[stage].inputs|
  {
    var slot := def.stages[stage].inputs[i];
    && NamedOnce(def.stages[stage].inputs, i) && GatherSlot(def, Endpoint(stage, slot.name))
    && !slot.optional && WaitsForCompletion(def, stage, slot)
  }

  ghost predicate HasExactCollection(def: Def, l: Launch, slot: InputSlot) {
    && InputAt(l.inputs, slot.name).Some? && l.inputs[slot.name].Collection?
    && ExactGather(def, l.at, Endpoint(l.stage, slot.name), l.inputs[slot.name].units)
  }

  /** A first launch of a stage without unit_complete slots finds every awaited collection complete. */
  ghost predicate WellFed(def: Def, l: Launch) {
    && l.stage in def.stages && Gated(def, l.at.done, l.stage)
    && (forall i :: 0 <= i < |def.stages[l.stage].inputs| && AwaitsGather(def, l.stage, i)
                    && (ProducersDone(def, l.at.index, Endpoint(l.stage, def.stages[l.stage].inputs[i].name))
                        || (!l.retried && !IsIncremental(def, l.stage)))
                    ==> HasExactCollection(def, l, def.stages[l.stage].inputs[i]))
  }

  lemma LaunchIsWellFed(def: Def, l: Launch)
    requires Inv(def, l.at, {}) && l.stage in def.stages && InputsFit(def, l.at.resolved, l.stage, l.inputs)
    requires Gated(def, l.at.done, l.stage)
    requires l.retried || IsIncremental(def, l.stage) || Satisfied(def, l.at.index, l.at.resolved, l.stage)
    ensures WellFed(def, l)
  {
    var slots := def.stages[l.stage].inputs;
    forall i | 0 <= i < |slots| && AwaitsGather(def, l.stage, i)
               && (ProducersDone(def, l.at.index, Endpoint(l.stage, slots[i].name))
                   || (!l.retried && !IsIncremental(def, l.stage)))
      ensures HasExactCollection(def, l, slots[i])
    {
      var to := Endpoint(l.stage, slots[i].name);
      assert slots[i] in slots;
      assert Satisfied(def, l.at.index, l.at.resolved, l.stage)
             ==> SlotSatisfied(def, l.at.index, l.at.resolved, l.stage, slots[i]);
      assert Contributes(def, l.at.resolved, l.stage, slots[i], InputAt(l.inputs, slots[i].name));
      CompleteGather(def, l.at, to);
    }
  }

  /** At most one launch was recorded: this stage, in this state, well fed. */
  ghost predicate LaunchedFrom(def: Def, stage: StageKey, retried: bool, s: State, before: seq<Launch>,
                               after: seq<Launch>) {
    after == before
    || (|after| == |before| + 1 && after[..|before|] == before && WellFed(def, after[|before|])
        && after[|before|].stage == stage && after[|before|].retried == retried && after[|before|].at == s)
  }

  method PrepareInputs(def: Def, r: Resolved, stage: StageKey, retried: bool,
                       ghost s: State) returns (inputs: Option<Inputs>)
    requires r == s.resolved && Inv(def, s, {}) && stage in def.stages && Gated(def, s.done, stage)
    requires retried || IsIncremental(def, stage) || Satisfied(def, s.index, r, stage)
    ensures inputs.Some? <==> InputsFitSlots(def, r, stage)
    ensures inputs.Some? ==> WellFed(def, Launch(stage, retried, inputs.value, s))
  {
    inputs := ResolveInputs(def, r, stage);
    if inputs.Some? {
      LaunchIsWellFed(def, Launch(stage, retried, inputs.value, s));
    }
  }
}
