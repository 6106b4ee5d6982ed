/** Two runs that end as done although a stage had everything it required: the cases Overlooking describes. */
module OverlookedRuns {
  import opened Optional
  import opened Workflow
  import opened Readiness
  import opened Gathering
  import opened RunSteps
  import opened Overlooking
  import opened RunScheduler

  const A := StageKey("a")
  const B := StageKey("b")
  const C := StageKey("c")
  const Out := SlotName("out")
  const Report := TypeName("report")
  const CIn := Endpoint(C, SlotName("in"))

  /** A producer without inputs. */
  function Producer(delegated: bool, fanOut: Option<FanOut>): StageNode {
    StageNode(delegated, fanOut, [], [OutputSlot(Out, Report)])
  }

  /** A consumer with one required collection. */
  const Consumer := StageNode(false, None, [InputSlot(CIn.slot, false, true, ProducerComplete)], [])

  /** The run ended well, and the consumer could have started with inputs that fit. */
  ghost predicate EndsWithoutConsumer(task: RunTask)
    reads task
  {
    && task.stopped && task.runStatus == RunDone
    && Overlooked(task.def, task.index, task.resolved, C) && InputsFitSlots(task.def, task.resolved, C)
  }

  lemma ConsumerWaits(def: Def, index: Index, r: Resolved)
    requires C in def.stages && def.stages[C] == Consumer
    ensures Satisfied(def, index, r, C) <==> ProducersDone(def, index, CIn)
    ensures UnitsAt(r, CIn) != map[] ==> InputsFitSlots(def, r, C)
    ensures !IsUnitComplete(def, CIn)
  {
    var slot := Consumer.inputs[0];
    assert slot in Consumer.inputs && WaitsForCompletion(def, C, slot);
    assert forall s :: s in Consumer.inputs ==> s == slot;
    assert FindSlot(Consumer.inputs, CIn.slot) == Some(slot);
  }

  lemma NoUnitSlots(def: Def, to: Endpoint)
    requires to.stage in def.stages ==> def.stages[to.stage] == Consumer || def.stages[to.stage].inputs == []
    ensures !IsUnitComplete(def, to)
  {
    assert Consumer.inputs[1..] == [];
    assert FindSlot(Consumer.inputs[1..], to.slot) == None;
  }

  /** The run is going on with this index and no event is waiting. */
  ghost predicate Idle(task: RunTask, def: Def, index: Index)
    reads task
  {
    && task.def == def && task.Valid() && task.InStep() && !task.stopped && task.queue == []
    && task.index == index && Awake(index, [])
  }

  // --- a producer that is not delegated ---

  const OneDef := Def(map[A := Producer(false, None), C := Consumer], [Edge(Endpoint(A, Out), CIn)])

  lemma OneDefFacts(index: Index, r: Resolved)
    ensures forall k :: IsSource(OneDef, k) <==> k == A
    ensures Satisfied(OneDef, index, r, C) <==> IsDone(index, A)
    ensures forall to :: !IsUnitComplete(OneDef, to)
  {
    assert OneDef.edges[0].from.stage in Producers(OneDef, CIn);
    assert Producers(OneDef, CIn) == {A};
    ConsumerWaits(OneDef, index, r);
    assert Consumer.inputs[0] in Consumer.inputs;
    forall to ensures !IsUnitComplete(OneDef, to) {
      NoUnitSlots(OneDef, to);
    }
  }

  lemma OneDefEmission(index: Index, a: Artifact, index': Index, r': Resolved)
    requires index == map[A := Entry(a.instance, Pending)]
    requires EmissionHandled(OneDef, index, map[], a, Out, index', r')
    ensures index' == index && UnitsAt(r', CIn) != map[]
  {
    var o := Output(A, a, Out);
    OneDefFacts(index, r');
    FileOutputCell(OneDef, map[], o, CIn, UnitKey(OneDef, A, CIn, UnitLabel(a)));
    assert OneDef.edges[0] == Edge(Endpoint(A, Out), CIn) && index[A].id == a.instance;
    assert StartsReady(OneDef, index, r', Consumers(OneDef, OneDef.edges, [o]), index');
  }

  lemma OneDefCompletion(index: Index, r: Resolved, rows: seq<Artifact>, id: InstanceId, index': Index, r': Resolved)
    requires index == map[A := Entry(id, Pending)] && UnitsAt(r, CIn) != map[]
    requires StatusHandled(OneDef, index, r, rows, id, Done, index', r')
    ensures !HasActive(index') && FinalStatus(index') == RunDone
    ensures Overlooked(OneDef, index', r', C) && InputsFitSlots(OneDef, r', C)
  {
    hide Followed, Satisfied, InputsFitSlots;
    var done := Completed(index, A);
    assert !AwaitsMoreUnits(OneDef, index, A);
    assert Accepts(OneDef, index, id, Done, A);
    OneDefFollows(done, r, rows, index', r');
    assert index' == map[A := Entry(id, Done)];
    OneDefFacts(index', r');
    ConsumerWaits(OneDef, index', r');
  }

  /** A stage that is not delegated feeds nobody when it completes. */
  lemma OneDefFollows(index: Index, r: Resolved, rows: seq<Artifact>, index': Index, r': Resolved)
    requires Followed(OneDef, index, r, rows, A, index', r')
    ensures index' == index && UnitsAt(r', CIn) == UnitsAt(r, CIn)
  {
    OneDefFacts(index, r');
    assert forall k :: !FedBy(OneDef, index, rows, A, k);
    NobodyStarts(OneDef, index, r, rows, A, index', r');
  }

  method StartOne() returns (task: RunTask, id: InstanceId)
    ensures fresh(task) && Idle(task, OneDef, map[A := Entry(id, Pending)]) && task.resolved == map[]
  {
    hide AllHold, IsLive, Overlooked, Satisfied;
    task := new RunTask(OneDef, k => Executed);
    OneDefFacts(map[], map[]);
    task.PrimeSourceStages();
    assert IsSource(OneDef, A) && task.index[A].status == Pending;
    id := task.index[A].id;
    assert task.index == map[A := Entry(id, Pending)];
  }

  method EmitOne(task: RunTask, id: InstanceId)
    requires Idle(task, OneDef, map[A := Entry(id, Pending)]) && task.resolved == map[]
    modifies task
    ensures Idle(task, OneDef, map[A := Entry(id, Pending)]) && UnitsAt(task.resolved, CIn) != map[]
  {
    hide AllHold, IsLive, Satisfied, EmissionHandled, StartsReady;
    var a := Artifact(0, id, Report, Some(Out), None, 1, 0);
    task.Emit(A, a);
    ghost var index := task.index;
    task.HandleNext([]);
    OneDefEmission(index, a, task.index, task.resolved);
    assert IsActive(task.index[A].status);
  }

  /** The producer emits, then completes: the artifact waits in the slot, and nobody looks at the consumer again. */
  method PlainProducerOverlooks() returns (task: RunTask)
    ensures fresh(task) && EndsWithoutConsumer(task)
  {
    hide AllHold, IsLive, Satisfied, StatusHandled, Overlooked, InputsFitSlots;
    var id;
    task, id := StartOne();
    EmitOne(task, id);
    ghost var index, r := task.index, task.resolved;
    task.Report(StatusChanged(id, Done));
    task.HandleNext([]);
    OneDefCompletion(index, r, task.rows, id, task.index, task.resolved);
  }

  // --- a delegated producer that ends without artifacts ---

  const TwoDef := Def(map[A := Producer(true, None), B := Producer(true, Some(OverOther)), C := Consumer],
                      [Edge(Endpoint(A, Out), CIn), Edge(Endpoint(B, Out), CIn)])

  lemma TwoDefFacts(index: Index, r: Resolved)
    ensures forall k :: IsSource(TwoDef, k) <==> k == A || k == B
    ensures Satisfied(TwoDef, index, r, C) <==> IsDone(index, A) && IsDone(index, B)
    ensures forall to :: !IsUnitComplete(TwoDef, to)
    ensures Producers(TwoDef, CIn) == {A, B}
  {
    assert TwoDef.edges[0].from.stage in Producers(TwoDef, CIn);
    assert TwoDef.edges[1].from.stage in Producers(TwoDef, CIn);
    assert Producers(TwoDef, CIn) == {A, B};
    ConsumerWaits(TwoDef, index, r);
    assert Consumer.inputs[0] in Consumer.inputs;
    forall to ensures !IsUnitComplete(TwoDef, to) {
      NoUnitSlots(TwoDef, to);
    }
  }

  lemma TwoDefGatherSlot()
    ensures GatherSlot(TwoDef, CIn)
  {
    TwoDefFacts(map[], map[]);
    assert !Encloses(A, B) && !Encloses(B, A);
  }

  /** The first producer's artifact is in the slot once that producer is Done. */
  lemma TwoDefGathers(s: State, a: Artifact)
    requires Gathered(TwoDef, s, {}) && IsDone(s.index, A) && s.index[A].id == a.instance && a in s.rows
    requires a.artifactType == Report && a.outputName == Some(Out)
    ensures UnitsAt(s.resolved, CIn) != map[]
  {
    hide GatherSlot;
    TwoDefGatherSlot();
    var e := TwoDef.edges[0];
    assert e in TwoDef.edges && IsOwed(TwoDef, s, e, {}) && Complete(TwoDef, s, e);
    var cell := Lookup(s.resolved, CIn, UnitKey(TwoDef, A, CIn, UnitLabel(a)));
    assert IsLatest(TwoDef.stages[A], s.index[A].id, s.rows, Out, UnitLabel(a), cell);
    assert KnownType(Producer(true, None).outputs, Out) == Some(Report);
    assert Candidate(TwoDef.stages[A], s.index[A].id, Out, UnitLabel(a), a);
  }

  /** A completion that starts nobody leaves the index as it was just after the status was written. */
  lemma NobodyStarts(def: Def, index: Index, r: Resolved, rows: seq<Artifact>, p: StageKey, index': Index, r': Resolved)
    requires Followed(def, index, r, rows, p, index', r') && forall to :: !IsUnitComplete(def, to)
    requires forall k :: FedBy(def, index, rows, p, k) ==> k == C
    requires !FedBy(def, index, rows, p, C) || !Satisfied(def, index, r', C)
    ensures index' == index
  {
    forall k ensures k in index' <==> k in index {
      assert !ExhaustsInto(def, index, p, k);
    }
  }

  lemma TwoDefCompletion(index: Index, r: Resolved, rows: seq<Artifact>, p: StageKey, index': Index, r': Resolved)
    requires Followed(TwoDef, index, r, rows, p, index', r')
    requires !FedBy(TwoDef, index, rows, p, C) || !IsDone(index, A) || !IsDone(index, B)
    ensures index' == index
    ensures !FedBy(TwoDef, index, rows, p, C) ==> UnitsAt(r', CIn) == UnitsAt(r, CIn)
  {
    TwoDefFacts(index, r');
    assert forall e :: e in TwoDef.edges ==> e.to.stage == C;
    NobodyStarts(TwoDef, index, r, rows, p, index', r');
  }

  /** After `p` completed, where the other producer is still pending or `p` has no row. */
  lemma TwoDefStatus(index: Index, r: Resolved, rows: seq<Artifact>, p: StageKey, index': Index, r': Resolved)
    requires p in index && (p == A || p == B)
    requires StatusHandled(TwoDef, index, r, rows, index[p].id, Done, index', r')
    requires (p == A && !IsDone(index, B)) || (forall a :: a in rows ==> a.instance != index[p].id)
    ensures index' == Completed(index, p)
    ensures (forall a :: a in rows ==> a.instance != index[p].id) ==> UnitsAt(r', CIn) == UnitsAt(r, CIn)
  {
    hide Followed, Satisfied;
    assert !AwaitsMoreUnits(TwoDef, index, p);
    assert Accepts(TwoDef, index, index[p].id, Done, p);
    TwoDefCompletion(Completed(index, p), r, rows, p, index', r');
  }

  lemma DistinctInstances(def: Def, s: State, queue: seq<Event>, log: Log)
    requires AllHold(def, s, queue, log, {}) && A in s.index && B in s.index
    ensures s.index[A].id != s.index[B].id
  {
    assert A.text != B.text;
  }

  function TwoIndex(ia: InstanceId, a: StageStatus, ib: InstanceId, b: StageStatus): Index {
    map[A := Entry(ia, a), B := Entry(ib, b)]
  }

  function RowOf(id: InstanceId): Artifact {
    Artifact(0, id, Report, Some(Out), None, 1, 0)
  }

  method StartTwo() returns (task: RunTask, ia: InstanceId, ib: InstanceId)
    ensures fresh(task) && Idle(task, TwoDef, TwoIndex(ia, Pending, ib, Pending)) && ia != ib && task.rows == []
  {
    hide AllHold, IsLive, Overlooked, Satisfied;
    task := new RunTask(TwoDef, k => Executed);
    TwoDefFacts(map[], map[]);
    task.PrimeSourceStages();
    assert IsSource(TwoDef, A) && IsSource(TwoDef, B);
    ia, ib := task.index[A].id, task.index[B].id;
    DistinctInstances(TwoDef, task.Now(), task.queue, task.History());
    assert task.index == TwoIndex(ia, Pending, ib, Pending);
  }

  method EmitFirst(task: RunTask, ia: InstanceId, ib: InstanceId)
    requires Idle(task, TwoDef, TwoIndex(ia, Pending, ib, Pending)) && ia != ib && task.rows == []
    modifies task
    ensures Idle(task, TwoDef, TwoIndex(ia, Pending, ib, Pending)) && task.rows == [RowOf(ia)]
  {
    hide AllHold, IsLive, Satisfied, StartsReady;
    task.Emit(A, RowOf(ia));
    task.HandleNext([]);
    assert IsActive(task.index[A].status);
  }

  method CompleteFirst(task: RunTask, ia: InstanceId, ib: InstanceId)
    requires Idle(task, TwoDef, TwoIndex(ia, Pending, ib, Pending)) && ia != ib && task.rows == [RowOf(ia)]
    modifies task
    ensures Idle(task, TwoDef, TwoIndex(ia, Done, ib, Pending)) && task.rows == [RowOf(ia)]
    ensures UnitsAt(task.resolved, CIn) != map[]
  {
    hide AllHold, IsLive, Satisfied, StatusHandled, Overlooked, HasActive;
    ghost var r := task.resolved;
    task.Report(StatusChanged(ia, Done));
    task.HandleNext([]);
    TwoDefFirst(ia, ib, r, task.rows, task.index, task.resolved);
    FirstIsGathered(task.Now(), task.queue, task.History(), RowOf(ia));
  }

  lemma TwoDefFirst(ia: InstanceId, ib: InstanceId, r: Resolved, rows: seq<Artifact>, index': Index, r': Resolved)
    requires StatusHandled(TwoDef, TwoIndex(ia, Pending, ib, Pending), r, rows, ia, Done, index', r') && ia != ib
    ensures index' == TwoIndex(ia, Done, ib, Pending) && HasActive(index')
  {
    hide StatusHandled;
    TwoDefStatus(TwoIndex(ia, Pending, ib, Pending), r, rows, A, index', r');
    assert index' == TwoIndex(ia, Done, ib, Pending);
    assert IsActive(index'[B].status);
  }

  lemma FirstIsGathered(s: State, queue: seq<Event>, log: Log, a: Artifact)
    requires AllHold(TwoDef, s, queue, log, {}) && IsDone(s.index, A) && s.index[A].id == a.instance && s.rows == [a]
    requires a.artifactType == Report && a.outputName == Some(Out)
    ensures UnitsAt(s.resolved, CIn) != map[]
  {
    TwoDefGathers(s, a);
  }

  lemma TwoDefEnd(ia: InstanceId, ib: InstanceId, r: Resolved, rows: seq<Artifact>, index': Index, r': Resolved)
    requires ia != ib && rows == [RowOf(ia)] && UnitsAt(r, CIn) != map[]
    requires StatusHandled(TwoDef, TwoIndex(ia, Done, ib, Pending), r, rows, ib, Done, index', r')
    ensures !HasActive(index') && FinalStatus(index') == RunDone
    ensures Overlooked(TwoDef, index', r', C) && InputsFitSlots(TwoDef, r', C)
  {
    hide StatusHandled, Satisfied;
    TwoDefStatus(TwoIndex(ia, Done, ib, Pending), r, rows, B, index', r');
    assert index' == TwoIndex(ia, Done, ib, Done);
    TwoDefFacts(index', r');
    ConsumerWaits(TwoDef, index', r');
  }

  /**
   The first producer's artifact is gathered; the second one, last to complete, fans out over no units. The
   consumer's collection is then complete and not empty, and the run ends without it.
   */
  method EmptyProducerOverlooks() returns (task: RunTask)
    ensures fresh(task) && EndsWithoutConsumer(task)
  {
    hide AllHold, IsLive, Satisfied, StatusHandled, Overlooked, InputsFitSlots;
    var ia, ib;
    task, ia, ib := StartTwo();
    EmitFirst(task, ia, ib);
    CompleteFirst(task, ia, ib);
    ghost var r := task.resolved;
    task.Report(StatusChanged(ib, Done));
    task.HandleNext([]);
    TwoDefEnd(ia, ib, r, task.rows, task.index, task.resolved);
  }
}
