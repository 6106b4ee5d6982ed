/**
 Rebuilding `resolved` from the artifact rows when the service restarts
 (oakridge-core/src/scheduler.rs, Coordinator::recover), compared with the map a live run holds.
 */
module Recovery {
  import opened Optional
  import opened Workflow

  type Instances = map<InstanceId, StageKey>

  /** The first declared output of the artifact's type, for rows written before output names were stored. */
  function OutputOfType(outputs: seq<OutputSlot>, artifactType: TypeName): Option<SlotName> {
    if outputs == [] then None
    else if outputs[0].artifactType == artifactType then Some(outputs[0].name)
    else OutputOfType(outputs[1..], artifactType)
  }

  /** Which stage and output a row belongs to, if that can be told. */
  function OutputOf(def: Def, instances: Instances, a: Artifact): Option<Output> {
    if a.instance !in instances || instances[a.instance] !in def.stages then None else
      var stage := instances[a.instance];
      var name := if a.outputName.Some? then a.outputName
                  else OutputOfType(def.stages[stage].outputs, a.artifactType);
      if name.None? then None else Some(Output(stage, a, name.value))
  }

  lemma {:induction false} OutputOfTypeIsFirst(outputs: seq<OutputSlot>, artifactType: TypeName)
    ensures match OutputOfType(outputs, artifactType)
            case None => forall i :: 0 <= i < |outputs| ==> outputs[i].artifactType != artifactType
            case Some(name) => exists i :: 0 <= i < |outputs| && outputs[i] == OutputSlot(name, artifactType)
                                           && forall j :: 0 <= j < i ==> outputs[j].artifactType != artifactType
  {
    if outputs != [] {
      if outputs[0].artifactType == artifactType {
        assert outputs[0] == OutputSlot(outputs[0].name, artifactType);
      } else {
        var rest := outputs[1..];
        OutputOfTypeIsFirst(rest, artifactType);
        assert forall i :: 0 <= i < |rest| ==> rest[i] == outputs[i + 1];
        if OutputOfType(rest, artifactType).Some? {
          var i :| 0 <= i < |rest| && rest[i] == OutputSlot(OutputOfType(rest, artifactType).value, artifactType)
                   && forall j :: 0 <= j < i ==> rest[j].artifactType != artifactType;
          assert outputs[i + 1] == rest[i] && forall j :: 0 < j < i + 1 ==> outputs[j] == rest[j - 1];
        }
      }
    }
  }

  /** A row belongs to its instance's stage, under its output name or else the first output of its type. */
  lemma RowBelongsTo(def: Def, instances: Instances, a: Artifact, stage: StageKey, slot: SlotName)
    ensures OutputOf(def, instances, a) == Some(Output(stage, a, slot)) <==>
            a.instance in instances && instances[a.instance] == stage && stage in def.stages
            && if a.outputName.Some? then a.outputName == Some(slot)
               else var outputs := def.stages[stage].outputs;
                    exists i :: 0 <= i < |outputs| && outputs[i] == OutputSlot(slot, a.artifactType)
                                && forall j :: 0 <= j < i ==> outputs[j].artifactType != a.artifactType
  {
    if stage in def.stages {
      OutputOfTypeIsFirst(def.stages[stage].outputs, a.artifactType);
    }
  }

  /** The row belongs in the cell. Recovery does not ask how the slot is delivered. */
  predicate FilesInto(def: Def, instances: Instances, a: Artifact, to: Endpoint, unit: string) {
    var o := OutputOf(def, instances, a);
    o.Some? && Edge(Endpoint(o.value.stage, o.value.slot), to) in def.edges
    && unit == UnitKey(def, o.value.stage, to, UnitLabel(a))
  }

  /** With one producer a row goes to the cell of its unit; with several, to the one of producer, ':' and unit. */
  lemma RowFilesUnder(def: Def, instances: Instances, a: Artifact, o: Output, to: Endpoint, unit: string)
    requires OutputOf(def, instances, a) == Some(o) && Edge(Endpoint(o.stage, o.slot), to) in def.edges
    ensures Producers(def, to) == {o.stage} ==> (FilesInto(def, instances, a, to, unit) <==> IsForUnit(a, unit))
    ensures (exists q :: q in Producers(def, to) && q != o.stage) && IsForUnit(a, unit)
            ==> FilesInto(def, instances, a, to, o.stage.text + ":" + unit)
  {
    assert Edge(Endpoint(o.stage, o.slot), to).from.stage in Producers(def, to);
    if q :| q in Producers(def, to) && q != o.stage {
      SeveralProducers(def, to, o.stage, q);
    }
  }

  /** The cell holds a row that belongs there and none is newer; it is empty only if no row belongs there. */
  ghost predicate HoldsNewest(def: Def, instances: Instances, rows: seq<Artifact>, to: Endpoint, unit: string,
                              cell: Option<Artifact>) {
    match cell
    case None => forall a :: a in rows ==> !FilesInto(def, instances, a, to, unit)
    case Some(b) => b in rows && FilesInto(def, instances, b, to, unit)
                    && forall a :: a in rows && FilesInto(def, instances, a, to, unit) ==> a.createdAt <= b.createdAt
  }

  function KeepNewer(r: Resolved, to: Endpoint, unit: string, a: Artifact): Resolved {
    var current := Lookup(r, to, unit);
    if current.None? || a.createdAt > current.value.createdAt then Insert(r, to, unit, a) else r
  }

  function KeepAlong(def: Def, edges: seq<Edge>, r: Resolved, o: Output): Resolved {
    if edges == [] then r else
      var k := |edges| - 1;
      var before := KeepAlong(def, edges[..k], r, o);
      if edges[k].from == Endpoint(o.stage, o.slot)
      then KeepNewer(before, edges[k].to, UnitKey(def, o.stage, edges[k].to, UnitLabel(o.artifact)), o.artifact)
      else before
  }

  lemma {:induction false} KeepAlongCell(def: Def, edges: seq<Edge>, r: Resolved, o: Output, to: Endpoint, unit: string)
    ensures var was, now := Lookup(r, to, unit), Lookup(KeepAlong(def, edges, r, o), to, unit);
            if Edge(Endpoint(o.stage, o.slot), to) in edges && unit == UnitKey(def, o.stage, to, UnitLabel(o.artifact))
               && (was.None? || o.artifact.createdAt > was.value.createdAt)
            then now == Some(o.artifact) else now == was
    ensures NoEmptyEntry(r) ==> NoEmptyEntry(KeepAlong(def, edges, r, o))
  {
    if edges != [] {
      var k := |edges| - 1;
      KeepAlongCell(def, edges[..k], r, o, to, unit);
      assert edges == edges[..k] + [edges[k]];
      if NoEmptyEntry(r) {
        InsertNotEmpty(KeepAlong(def, edges[..k], r, o), edges[k].to,
                       UnitKey(def, o.stage, edges[k].to, UnitLabel(o.artifact)), o.artifact);
      }
    }
  }

  lemma RowKeepsNewest(def: Def, instances: Instances, rows: seq<Artifact>, a: Artifact, r: Resolved, r': Resolved)
    requires var o := OutputOf(def, instances, a); r' == if o.Some? then KeepAlong(def, def.edges, r, o.value) else r
    requires forall to, unit :: HoldsNewest(def, instances, rows, to, unit, Lookup(r, to, unit))
    ensures forall to, unit :: HoldsNewest(def, instances, rows + [a], to, unit, Lookup(r', to, unit))
    ensures NoEmptyEntry(r) ==> NoEmptyEntry(r')
  {
    var o := OutputOf(def, instances, a);
    forall to, unit ensures HoldsNewest(def, instances, rows + [a], to, unit, Lookup(r', to, unit)) {
      assert HoldsNewest(def, instances, rows, to, unit, Lookup(r, to, unit));
      if o.Some? {
        KeepAlongCell(def, def.edges, r, o.value, to, unit);
      }
    }
    if o.Some? {
      KeepAlongCell(def, def.edges, r, o.value, Endpoint(o.value.stage, o.value.slot), "");
    }
  }

  method KeepOutput(def: Def, r: Resolved, o: Output) returns (r': Resolved)
    ensures r' == KeepAlong(def, def.edges, r, o)
  {
    r' := r;
    for i := 0 to |def.edges|
      invariant r' == KeepAlong(def, def.edges[..i], r, o)
    {
      var e := def.edges[i];
      assert def.edges[..i + 1][..i] == def.edges[..i];
      if e.from == Endpoint(o.stage, o.slot) {
        r' := KeepNewer(r', e.to, UnitKey(def, o.stage, e.to, UnitLabel(o.artifact)), o.artifact);
      }
    }
    assert def.edges[..|def.edges|] == def.edges;
  }

  method RebuildResolved(def: Def, instances: Instances, rows: seq<Artifact>) returns (r: Resolved)
    ensures NoEmptyEntry(r)
    ensures forall to, unit :: HoldsNewest(def, instances, rows, to, unit, Lookup(r, to, unit))
  {
    r := map[];
    for i := 0 to |rows|
      invariant NoEmptyEntry(r)
      invariant forall to, unit :: HoldsNewest(def, instances, rows[..i], to, unit, Lookup(r, to, unit))
    {
      ghost var before := r;
      var o := OutputOf(def, instances, rows[i]);
      if o.Some? {
        r := KeepOutput(def, r, o.value);
      }
      RowKeepsNewest(def, instances, rows[..i], rows[i], before, r);
      assert rows[..i + 1] == rows[..i] + [rows[i]];
    }
    assert rows[..|rows|] == rows;
  }

  // --- the live map ---

  /** No delegated stage, and every slot is filled when its producer emits. */
  ghost predicate Plain(def: Def) {
    && (forall p :: p in def.stages ==> !def.stages[p].delegated)
    && (forall to :: !IsUnitComplete(def, to))
  }

  /** What was emitted, in order: every artifact names its stage and output, and no stage's clock stands still. */
  ghost predicate Emissions(def: Def, instances: Instances, outputs: seq<Output>) {
    && (forall i :: 0 <= i < |outputs| ==> OutputOf(def, instances, outputs[i].artifact) == Some(outputs[i]))
    && (forall i, j :: 0 <= i < j < |outputs| && outputs[i].stage == outputs[j].stage
                       ==> outputs[i].artifact.createdAt < outputs[j].artifact.createdAt)
  }

  ghost predicate SameRows(outputs: seq<Output>, rows: seq<Artifact>) {
    forall a :: a in rows <==> exists i :: 0 <= i < |outputs| && outputs[i].artifact == a
  }

  /** Every output that reaches a cell comes from the same producer. */
  lemma OneProducerPerCell(def: Def, o: Output, p: Output, to: Endpoint, unit: string)
    requires KeysApart(def, to) && Reaches(def, o, to, unit) && Reaches(def, p, to, unit)
    ensures o.stage == p.stage
  {
    assert Edge(Endpoint(o.stage, o.slot), to).from.stage in Producers(def, to);
    assert Edge(Endpoint(p.stage, p.slot), to).from.stage in Producers(def, to);
    UnitKeyInjective(def, to, o.stage, p.stage, UnitLabel(o.artifact), UnitLabel(p.artifact));
  }

  /** Recovery and the live run agree on where an emitted artifact goes. */
  lemma SameCell(def: Def, instances: Instances, outputs: seq<Output>, rows: seq<Artifact>, i: nat, to: Endpoint,
                 unit: string)
    requires Plain(def) && Emissions(def, instances, outputs) && SameRows(outputs, rows) && i < |outputs|
    ensures outputs[i].artifact in rows
    ensures FilesInto(def, instances, outputs[i].artifact, to, unit) <==> Reaches(def, outputs[i], to, unit)
  {
    assert OutputOf(def, instances, outputs[i].artifact) == Some(outputs[i]);
  }

  /** Of the outputs that reach a cell, the newest is the last. */
  lemma NewestIsLast(def: Def, instances: Instances, outputs: seq<Output>, i: nat, j: nat, to: Endpoint, unit: string)
    requires KeysApart(def, to) && Emissions(def, instances, outputs) && i < |outputs| && j < |outputs|
    requires Reaches(def, outputs[i], to, unit) && Reaches(def, outputs[j], to, unit)
    requires forall k :: i < k < |outputs| ==> !Reaches(def, outputs[k], to, unit)
    requires outputs[i].artifact.createdAt <= outputs[j].artifact.createdAt
    ensures i == j
  {
    OneProducerPerCell(def, outputs[i], outputs[j], to, unit);
  }

  /** Any cell that holds the newest of the rows holds what the live run filed there last. */
  lemma NewestIsLive(def: Def, instances: Instances, outputs: seq<Output>, rows: seq<Artifact>, to: Endpoint,
                     unit: string, cell: Option<Artifact>)
    requires Plain(def) && KeysApart(def, to) && Emissions(def, instances, outputs) && SameRows(outputs, rows)
    requires HoldsNewest(def, instances, rows, to, unit, cell)
    ensures cell == Lookup(FileAll(def, map[], outputs), to, unit)
  {
    var live := Lookup(FileAll(def, map[], outputs), to, unit);
    FileAllCell(def, map[], outputs, to, unit);
    forall k | 0 <= k < |outputs|
      ensures outputs[k].artifact in rows
      ensures FilesInto(def, instances, outputs[k].artifact, to, unit) <==> Reaches(def, outputs[k], to, unit)
    {
      SameCell(def, instances, outputs, rows, k, to, unit);
    }
    if i :| 0 <= i < |outputs| && Reaches(def, outputs[i], to, unit) && live == Some(outputs[i].artifact)
            && forall k :: i < k < |outputs| ==> !Reaches(def, outputs[k], to, unit) {
      var j :| 0 <= j < |outputs| && outputs[j].artifact == cell.value;
      NewestIsLast(def, instances, outputs, i, j, to, unit);
    }
  }

  /** Folding the rows in any order gives the map that live processing of all the emissions gave. */
  method RecoverEqualsLive(def: Def, instances: Instances, ghost outputs: seq<Output>, rows: seq<Artifact>)
    returns (r: Resolved)
    requires Plain(def) && (forall to :: KeysApart(def, to))
    requires Emissions(def, instances, outputs) && SameRows(outputs, rows)
    ensures r == FileAll(def, map[], outputs)
  {
    r := RebuildResolved(def, instances, rows);
    ghost var live := FileAll(def, map[], outputs);
    forall to, unit ensures Lookup(r, to, unit) == Lookup(live, to, unit) {
      NewestIsLive(def, instances, outputs, rows, to, unit, Lookup(r, to, unit));
    }
    FileAllCell(def, map[], outputs, Endpoint(StageKey(""), SlotName("")), "");
    SameCells(r, live);
  }
}
