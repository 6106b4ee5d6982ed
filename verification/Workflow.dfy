/**
 Workflow definitions, artifacts and the `resolved` map of the run scheduler
 (oakridge-core/src/scheduler.rs, oakridge-core/src/types.rs).
 */
module Workflow {
  import opened Optional

  datatype StageKey = StageKey(text: string)
  datatype SlotName = SlotName(text: string)
  datatype TypeName = TypeName(text: string)

  datatype InputDelivery = ProducerComplete | UnitComplete
  datatype InputSlot = InputSlot(name: SlotName, optional: bool, collect: bool, delivery: InputDelivery)
  datatype OutputSlot = OutputSlot(name: SlotName, artifactType: TypeName)
  datatype FanOut = OverInput(slot: SlotName) | OverOther

  /** `delegated`: the stage type is "delegated_session"; only then does `fanOut` mean anything. */
  datatype StageNode = StageNode(delegated: bool, fanOut: Option<FanOut>, inputs: seq<InputSlot>,
                                 outputs: seq<OutputSlot>)
  datatype Endpoint = Endpoint(stage: StageKey, slot: SlotName)
  datatype Edge = Edge(from: Endpoint, to: Endpoint)
  datatype Def = Def(stages: map<StageKey, StageNode>, edges: seq<Edge>)

  type InstanceId = nat

  datatype Artifact = Artifact(id: nat, instance: InstanceId, artifactType: TypeName, outputName: Option<SlotName>,
                               unitLabel: Option<string>, version: int, createdAt: int)

  type Units = map<string, Artifact>
  type Resolved = map<Endpoint, Units>

  function UnitLabel(a: Artifact): string {
    if a.unitLabel.Some? then a.unitLabel.value else "0"
  }

  function FindSlot(inputs: seq<InputSlot>, name: SlotName): Option<InputSlot> {
    if inputs == [] then None
    else if inputs[0].name == name then Some(inputs[0])
    else FindSlot(inputs[1..], name)
  }

  predicate IsUnitComplete(def: Def, to: Endpoint) {
    to.stage in def.stages
    && match FindSlot(def.stages[to.stage].inputs, to.slot)
       case Some(slot) => slot.delivery == UnitComplete
       case None => false
  }

  /** The stages with an edge into the slot. */
  function Producers(def: Def, to: Endpoint): set<StageKey> {
    set e | e in def.edges && e.to == to :: e.from.stage
  }

  /** resolved_unit_id: the unit label, namespaced by the producer when several producers share the slot. */
  function UnitKey(def: Def, producer: StageKey, to: Endpoint, unit: string): string {
    if |Producers(def, to)| > 1 then producer.text + ":" + unit else unit
  }

  function UnitsAt(r: Resolved, to: Endpoint): Units {
    if to in r then r[to] else map[]
  }

  function Lookup(r: Resolved, to: Endpoint, unit: string): Option<Artifact> {
    if unit in UnitsAt(r, to) then Some(UnitsAt(r, to)[unit]) else None
  }

  function Insert(r: Resolved, to: Endpoint, unit: string, a: Artifact): Resolved {
    r[to := UnitsAt(r, to)[unit := a]]
  }

  /** Entries are only ever created by an insert, so no inner map is empty. */
  ghost predicate NoEmptyEntry(r: Resolved) {
    forall to :: to in r ==> r[to] != map[]
  }

  lemma InsertNotEmpty(r: Resolved, to: Endpoint, unit: string, a: Artifact)
    requires NoEmptyEntry(r)
    ensures NoEmptyEntry(Insert(r, to, unit, a))
  {
    assert unit in UnitsAt(r, to)[unit := a];
  }

  /** Two resolved maps with the same cells are the same. */
  lemma SameCells(r: Resolved, s: Resolved)
    requires NoEmptyEntry(r) && NoEmptyEntry(s)
    requires forall to, unit :: Lookup(r, to, unit) == Lookup(s, to, unit)
    ensures r == s
  {
    forall to ensures UnitsAt(r, to) == UnitsAt(s, to) && (to in r <==> to in s) {
      forall unit ensures unit in UnitsAt(r, to) <==> unit in UnitsAt(s, to) {
        assert Lookup(r, to, unit) == Lookup(s, to, unit);
      }
      forall unit | unit in UnitsAt(r, to) ensures UnitsAt(r, to)[unit] == UnitsAt(s, to)[unit] {
        assert Lookup(r, to, unit) == Lookup(s, to, unit);
      }
      assert UnitsAt(r, to) == UnitsAt(s, to);
    }
  }

  // --- filing one artifact along the edges of its output ---

  /** An artifact together with the stage and output slot that produced it. */
  datatype Output = Output(stage: StageKey, artifact: Artifact, slot: SlotName)

  predicate Delivers(def: Def, e: Edge, o: Output) {
    e.from == Endpoint(o.stage, o.slot) && !IsUnitComplete(def, e.to)
  }

  function FileAlong(def: Def, edges: seq<Edge>, r: Resolved, o: Output): Resolved {
    if edges == [] then r else
      var k := |edges| - 1;
      var before := FileAlong(def, edges[..k], r, o);
      if Delivers(def, edges[k], o)
      then Insert(before, edges[k].to, UnitKey(def, o.stage, edges[k].to, UnitLabel(o.artifact)), o.artifact)
      else before
  }

  /** The output reaches the cell: an edge leads there, the slot is gathered, and the unit key matches. */
  predicate Reaches(def: Def, o: Output, to: Endpoint, unit: string) {
    Edge(Endpoint(o.stage, o.slot), to) in def.edges && !IsUnitComplete(def, to)
    && unit == UnitKey(def, o.stage, to, UnitLabel(o.artifact))
  }

  lemma {:induction false} FileAlongCell(def: Def, edges: seq<Edge>, r: Resolved, o: Output, to: Endpoint, unit: string)
    ensures Lookup(FileAlong(def, edges, r, o), to, unit)
            == if Edge(Endpoint(o.stage, o.slot), to) in edges && !IsUnitComplete(def, to)
                  && unit == UnitKey(def, o.stage, to, UnitLabel(o.artifact))
               then Some(o.artifact) else Lookup(r, to, unit)
    ensures NoEmptyEntry(r) ==> NoEmptyEntry(FileAlong(def, edges, r, o))
  {
    if edges != [] {
      var k := |edges| - 1;
      FileAlongCell(def, edges[..k], r, o, to, unit);
      assert edges == edges[..k] + [edges[k]];
      if Delivers(def, edges[k], o) && NoEmptyEntry(r) {
        InsertNotEmpty(FileAlong(def, edges[..k], r, o), edges[k].to,
                       UnitKey(def, o.stage, edges[k].to, UnitLabel(o.artifact)), o.artifact);
      }
    }
  }

  function FileOutput(def: Def, r: Resolved, o: Output): Resolved {
    FileAlong(def, def.edges, r, o)
  }

  lemma FileOutputCell(def: Def, r: Resolved, o: Output, to: Endpoint, unit: string)
    ensures Lookup(FileOutput(def, r, o), to, unit)
            == if Reaches(def, o, to, unit) then Some(o.artifact) else Lookup(r, to, unit)
    ensures NoEmptyEntry(r) ==> NoEmptyEntry(FileOutput(def, r, o))
  {
    FileAlongCell(def, def.edges, r, o, to, unit);
  }

  // --- the cells by name ---

  /** The unit an artifact is for: its label, or "0" for the implicit unit. */
  ghost predicate IsForUnit(a: Artifact, unit: string) {
    a.unitLabel == Some(unit) || (a.unitLabel.None? && unit == "0")
  }

  /** The first input declared under the slot's name decides how the slot is delivered. */
  lemma {:induction false} FirstDeclaredSlot(inputs: seq<InputSlot>, name: SlotName, i: nat)
    requires i < |inputs| && inputs[i].name == name && forall j :: 0 <= j < i ==> inputs[j].name != name
    ensures FindSlot(inputs, name) == Some(inputs[i])
  {
    if i > 0 {
      FirstDeclaredSlot(inputs[1..], name, i - 1);
    }
  }

  lemma DeliveryIs(def: Def, to: Endpoint, i: nat)
    requires to.stage in def.stages && i < |def.stages[to.stage].inputs|
    requires def.stages[to.stage].inputs[i].name == to.slot
    requires forall j :: 0 <= j < i ==> def.stages[to.stage].inputs[j].name != to.slot
    ensures IsUnitComplete(def, to) <==> def.stages[to.stage].inputs[i].delivery == UnitComplete
  {
    FirstDeclaredSlot(def.stages[to.stage].inputs, to.slot, i);
  }

  /** The only producer of a slot files a unit under the unit's own name, and touches no other. */
  lemma SoleProducerFilesUnderUnit(def: Def, r: Resolved, p: StageKey, a: Artifact, slot: SlotName, to: Endpoint,
                                   unit: string, other: string)
    requires Producers(def, to) == {p} && Edge(Endpoint(p, slot), to) in def.edges && !IsUnitComplete(def, to)
    requires IsForUnit(a, unit) && other != unit
    ensures Lookup(FileOutput(def, r, Output(p, a, slot)), to, unit) == Some(a)
    ensures Lookup(FileOutput(def, r, Output(p, a, slot)), to, other) == Lookup(r, to, other)
  {
    FileOutputCell(def, r, Output(p, a, slot), to, unit);
    FileOutputCell(def, r, Output(p, a, slot), to, other);
  }

  /** One of several producers files it under its own key, a ':' and the unit. */
  lemma SharedSlotFilesUnderProducer(def: Def, r: Resolved, p: StageKey, q: StageKey, a: Artifact, slot: SlotName,
                                     to: Endpoint, unit: string, other: string)
    requires q in Producers(def, to) && p != q && Edge(Endpoint(p, slot), to) in def.edges && !IsUnitComplete(def, to)
    requires IsForUnit(a, unit) && other != p.text + ":" + unit
    ensures Lookup(FileOutput(def, r, Output(p, a, slot)), to, p.text + ":" + unit) == Some(a)
    ensures Lookup(FileOutput(def, r, Output(p, a, slot)), to, other) == Lookup(r, to, other)
  {
    assert Edge(Endpoint(p, slot), to).from.stage in Producers(def, to);
    SeveralProducers(def, to, p, q);
    FileOutputCell(def, r, Output(p, a, slot), to, p.text + ":" + unit);
    FileOutputCell(def, r, Output(p, a, slot), to, other);
  }

  /** A unit_complete slot, and a slot no edge of the output leads to, is left alone. */
  lemma FilingSpares(def: Def, r: Resolved, o: Output, to: Endpoint, unit: string)
    requires IsUnitComplete(def, to) || Edge(Endpoint(o.stage, o.slot), to) !in def.edges
    ensures Lookup(FileOutput(def, r, o), to, unit) == Lookup(r, to, unit)
  {
    FileOutputCell(def, r, o, to, unit);
  }

  function FileAll(def: Def, r: Resolved, outputs: seq<Output>): Resolved {
    if outputs == [] then r else
      var k := |outputs| - 1;
      FileOutput(def, FileAll(def, r, outputs[..k]), outputs[k])
  }

  /** A batch changes a cell only where one of its outputs reaches, and then to the last such artifact. */
  lemma {:induction false} FileAllCell(def: Def, r: Resolved, outputs: seq<Output>, to: Endpoint, unit: string)
    ensures var cell := Lookup(FileAll(def, r, outputs), to, unit);
            || (cell == Lookup(r, to, unit) && forall i :: 0 <= i < |outputs| ==> !Reaches(def, outputs[i], to, unit))
            || exists i :: 0 <= i < |outputs| && Reaches(def, outputs[i], to, unit) && cell == Some(outputs[i].artifact)
                           && forall j :: i < j < |outputs| ==> !Reaches(def, outputs[j], to, unit)
    ensures NoEmptyEntry(r) ==> NoEmptyEntry(FileAll(def, r, outputs))
  {
    hide FileOutput, Reaches, Lookup, NoEmptyEntry;
    if outputs != [] {
      var k := |outputs| - 1;
      FileAllCell(def, r, outputs[..k], to, unit);
      FileOutputCell(def, FileAll(def, r, outputs[..k]), outputs[k], to, unit);
    }
  }

  // --- unit keys ---

  /** Read as a namespace, the key `p` contains the key `q`. */
  predicate Encloses(p: StageKey, q: StageKey) {
    p.text + ":" <= q.text
  }

  lemma NamespaceSplits(p: StageKey, q: StageKey, u: string, v: string)
    requires p.text + ":" + u == q.text + ":" + v
    ensures Encloses(p, q) || Encloses(q, p) || (p == q && u == v)
  {
    var s := p.text + ":" + u;
    assert s[..|p.text| + 1] == p.text + ":" && s[|p.text| + 1..] == u;
    assert s[..|q.text| + 1] == q.text + ":" && s[|q.text| + 1..] == v;
    if |p.text| < |q.text| {
      assert s[..|q.text|] == q.text;
      assert s[..|q.text|][..|p.text| + 1] == s[..|p.text| + 1];
    } else if |q.text| < |p.text| {
      assert s[..|p.text|] == p.text;
      assert s[..|p.text|][..|q.text| + 1] == s[..|q.text| + 1];
    } else {
      assert p.text == s[..|p.text|] == q.text;
    }
  }

  /** Two producers of a shared slot can collide exactly when one key continues the other after a ':'. */
  lemma KeysCollideIffEnclosed(def: Def, to: Endpoint, p: StageKey, q: StageKey)
    requires p in Producers(def, to) && q in Producers(def, to) && p != q
    ensures (exists u, v :: UnitKey(def, p, to, u) == UnitKey(def, q, to, v)) <==> Encloses(p, q) || Encloses(q, p)
  {
    SeveralProducers(def, to, p, q);
    if u, v :| UnitKey(def, p, to, u) == UnitKey(def, q, to, v) {
      NamespaceSplits(p, q, u, v);
    }
    if Encloses(p, q) {
      EnclosedKeysCollide(def, to, p, q);
    }
    if Encloses(q, p) {
      EnclosedKeysCollide(def, to, q, p);
    }
  }

  lemma EnclosedKeysCollide(def: Def, to: Endpoint, p: StageKey, q: StageKey)
    requires |Producers(def, to)| > 1 && Encloses(p, q)
    ensures exists u, v :: UnitKey(def, p, to, u) == UnitKey(def, q, to, v)
  {
    var rest := q.text[|p.text| + 1..];
    assert q.text == p.text + ":" + rest;
    assert p.text + ":" + (rest + ":") == q.text + ":" + "";
    assert UnitKey(def, p, to, rest + ":") == UnitKey(def, q, to, "");
  }

  lemma SeveralProducers(def: Def, to: Endpoint, p: StageKey, q: StageKey)
    requires p in Producers(def, to) && q in Producers(def, to) && p != q
    ensures |Producers(def, to)| > 1
  {
    SubsetSize({p, q}, Producers(def, to));
  }

  /** No producer's key encloses another's: a condition on the definition alone. */
  ghost predicate KeysApart(def: Def, to: Endpoint) {
    forall p, q :: p in Producers(def, to) && q in Producers(def, to) && p != q ==> !Encloses(p, q)
  }

  /** With keys apart, a unit key of a slot determines the producer and the unit. */
  lemma UnitKeyInjective(def: Def, to: Endpoint, p: StageKey, q: StageKey, u: string, v: string)
    requires p in Producers(def, to) && q in Producers(def, to) && KeysApart(def, to)
    requires UnitKey(def, p, to, u) == UnitKey(def, q, to, v)
    ensures p == q && u == v
  {
    if p != q {
      KeysCollideIffEnclosed(def, to, p, q);
    } else if |Producers(def, to)| > 1 {
      assert (p.text + ":" + u)[|p.text| + 1..] == u;
      assert (p.text + ":" + v)[|p.text| + 1..] == v;
    }
  }

  /** Conversely, keys that are not apart let two producers of the slot share a unit key. */
  lemma KeysApartIsExact(def: Def, to: Endpoint)
    ensures KeysApart(def, to) <==>
            forall p, q, u, v :: p in Producers(def, to) && q in Producers(def, to) && p != q
                                 ==> UnitKey(def, p, to, u) != UnitKey(def, q, to, v)
  {
    forall p, q | p in Producers(def, to) && q in Producers(def, to) && p != q
      ensures (exists u, v :: UnitKey(def, p, to, u) == UnitKey(def, q, to, v)) <==> Encloses(p, q) || Encloses(q, p)
    {
      KeysCollideIffEnclosed(def, to, p, q);
    }
  }

  lemma {:induction false} SubsetSize<T>(a: set<T>, b: set<T>)
    requires a <= b
    ensures |a| <= |b|
  {
    if x :| x in a {
      SubsetSize(a - {x}, b - {x});
    }
  }

  /** "a" encloses "a:b": with both feeding one slot, one artifact would replace the other. */
  lemma ColonMakesKeysCollide()
    ensures var to := Endpoint(StageKey("z"), SlotName("in"));
            var p, q := StageKey("a:b"), StageKey("a");
            var def := Def(map[], [Edge(Endpoint(p, SlotName("o")), to), Edge(Endpoint(q, SlotName("o")), to)]);
            p in Producers(def, to) && q in Producers(def, to) && UnitKey(def, p, to, "c") == UnitKey(def, q, to, "b:c")
  {
    var to := Endpoint(StageKey("z"), SlotName("in"));
    var p, q := StageKey("a:b"), StageKey("a");
    var def := Def(map[], [Edge(Endpoint(p, SlotName("o")), to), Edge(Endpoint(q, SlotName("o")), to)]);
    assert def.edges[0].from.stage in Producers(def, to) && def.edges[1].from.stage in Producers(def, to);
    SeveralProducers(def, to, p, q);
    assert "a:b" + ":" + "c" == "a" + ":" + "b:c";
  }
}
