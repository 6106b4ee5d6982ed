/**
 What the events of one workflow run do to its index, its map, its queue and its log, on plain values
 (oakridge-core/src/scheduler.rs, RunTask), and what every step keeps.
 */
module RunSteps {
  import opened Optional
  import opened Workflow
  import opened Readiness
  import opened Gathering
  import opened Recovery

  datatype Event =
    | ArtifactEmitted(artifact: Artifact, output: SlotName)
    | StatusChanged(instance: InstanceId, status: StageStatus)
    | UnitCompleted(instance: InstanceId, unit: string, artifact: Artifact)

  datatype RunStatus = RunRunning | RunDone | RunFailed

  predicate IsActive(status: StageStatus) {
    status == Pending || status == Running || status == Parked
  }

  predicate HasActive(index: Index) {
    exists k :: k in index && IsActive(index[k].status)
  }

  predicate AnyFailed(index: Index) {
    exists k :: k in index && index[k].status == Failed
  }

  function FinalStatus(index: Index): RunStatus {
    if AnyFailed(index) then RunFailed else RunDone
  }

  /** The run ends when every stage is Done or Failed, and well exactly if every one is Done. */
  lemma EndedIs(index: Index)
    ensures HasActive(index) <==> exists k :: k in index && index[k].status != Done && index[k].status != Failed
    ensures FinalStatus(index) == RunFailed <==> exists k :: k in index && index[k].status == Failed
    ensures !HasActive(index) ==>
              (FinalStatus(index) == RunDone <==> forall k :: k in index ==> index[k].status == Done)
    ensures FinalStatus(index) == RunDone || FinalStatus(index) == RunFailed
  {
  }

  // --- consumers ---

  /** The stages that a batch of outputs is delivered to along some of the edges. */
  function Consumers(def: Def, edges: seq<Edge>, outputs: seq<Output>): set<StageKey> {
    set e, o | e in edges && o in outputs && Delivers(def, e, o) :: e.to.stage
  }

  lemma ConsumersOfEdge(def: Def, edges: seq<Edge>, e: Edge, o: Output)
    ensures Consumers(def, edges + [e], [o])
            == Consumers(def, edges, [o]) + if Delivers(def, e, o) then {e.to.stage} else {}
  {
    assert o in [o];
  }

  lemma ConsumersOfBatch(def: Def, edges: seq<Edge>, outputs: seq<Output>, o: Output)
    ensures Consumers(def, edges, outputs + [o]) == Consumers(def, edges, outputs) + Consumers(def, edges, [o])
  {
  }

  /** The delegated stage `p` has a row for an edge into a slot of `k` that it fills when it is Done. */
  ghost predicate FedBy(def: Def, index: Index, rows: seq<Artifact>, p: StageKey, k: StageKey) {
    p in index && IsDelegated(def, p)
    && exists e, a :: e in def.edges && e.from.stage == p && e.to.stage == k && !IsUnitComplete(def, e.to)
                      && a in rows && Candidate(def.stages[p], index[p].id, e.from.slot, UnitLabel(a), a)
  }

  lemma RowReachesConsumer(def: Def, s: State, m: Latest, batch: seq<Output>, e: Edge, a: Artifact)
    requires Releases(def, s, e.from.stage, m, batch) && e in def.edges && !IsUnitComplete(def, e.to) && a in s.rows
    requires Candidate(def.stages[e.from.stage], s.index[e.from.stage].id, e.from.slot, UnitLabel(a), a)
    ensures e.to.stage in Consumers(def, def.edges, batch)
  {
    var k := OutputUnit(e.from.slot, UnitLabel(a));
    assert IsLatest(def.stages[e.from.stage], s.index[e.from.stage].id, s.rows, k.output, k.unit, LatestAt(m, k));
    assert IsReleased(m, k, batch);
    var i :| 0 <= i < |batch| && batch[i].artifact == m[k] && batch[i].slot == k.output;
    assert IsRelease(e.from.stage, m, batch[i]);
    assert batch[i] in batch && Delivers(def, e, batch[i]);
  }

  /** The batch a completed stage releases is delivered to exactly the stages it feeds. */
  lemma ReleaseFeeds(def: Def, s: State, p: StageKey, m: Latest, batch: seq<Output>, k: StageKey)
    requires Releases(def, s, p, m, batch)
    ensures k in Consumers(def, def.edges, batch) <==> FedBy(def, s.index, s.rows, p, k)
  {
    if k in Consumers(def, def.edges, batch) {
      var e, o :| e in def.edges && o in batch && Delivers(def, e, o) && e.to.stage == k;
      var i :| 0 <= i < |batch| && batch[i] == o;
      ReleasedIsLatest(def, s, p, m, batch, i);
    }
    if FedBy(def, s.index, s.rows, p, k) {
      var e, a :| e in def.edges && e.from.stage == p && e.to.stage == k && !IsUnitComplete(def, e.to)
                  && a in s.rows && Candidate(def.stages[p], s.index[p].id, e.from.slot, UnitLabel(a), a);
      RowReachesConsumer(def, s, m, batch, e, a);
    }
  }

  /** Filing leaves the slots of a stage alone that it delivers nothing to. */
  lemma FilingElsewhere(def: Def, r: Resolved, outputs: seq<Output>, to: Endpoint)
    requires to.stage !in Consumers(def, def.edges, outputs)
    ensures UnitsAt(FileAll(def, r, outputs), to) == UnitsAt(r, to)
  {
    var r' := FileAll(def, r, outputs);
    forall unit ensures Lookup(r', to, unit) == Lookup(r, to, unit) {
      FileAllCell(def, r, outputs, to, unit);
      forall i | 0 <= i < |outputs| ensures !Reaches(def, outputs[i], to, unit) {
        assert outputs[i] in outputs;
        var e := Edge(Endpoint(outputs[i].stage, outputs[i].slot), to);
        assert Reaches(def, outputs[i], to, unit) ==> e in def.edges && Delivers(def, e, outputs[i]);
      }
    }
    assert forall unit :: unit in UnitsAt(r', to) <==> Lookup(r', to, unit).Some?;
    assert forall unit :: unit in UnitsAt(r, to) <==> Lookup(r, to, unit).Some?;
  }

  /** A release touches the slots of the stages it feeds and starts exactly those of them that are then ready. */
  ghost predicate Released(def: Def, index: Index, r: Resolved, rows: seq<Artifact>, p: StageKey,
                           index': Index, r': Resolved) {
    && (forall k :: k in index' <==> k in index || (FedBy(def, index, rows, p, k) && Satisfied(def, index, r', k)))
    && (forall to: Endpoint :: !FedBy(def, index, rows, p, to.stage) ==> UnitsAt(r', to) == UnitsAt(r, to))
  }

  lemma ReleasedBy(def: Def, s: State, p: StageKey, m: Latest, batch: seq<Output>, index': Index, r': Resolved)
    requires Releases(def, s, p, m, batch) && r' == FileAll(def, s.resolved, batch)
    requires StartsReady(def, s.index, r', Consumers(def, def.edges, batch), index')
    ensures Released(def, s.index, s.resolved, s.rows, p, index', r')
  {
    forall k ensures k in Consumers(def, def.edges, batch) <==> FedBy(def, s.index, s.rows, p, k) {
      ReleaseFeeds(def, s, p, m, batch, k);
    }
    forall to: Endpoint | !FedBy(def, s.index, s.rows, p, to.stage) ensures UnitsAt(r', to) == UnitsAt(s.resolved, to) {
      FilingElsewhere(def, s.resolved, batch, to);
    }
  }

  // --- no silent hang ---

  ghost predicate StatusQueued(queue: seq<Event>) {
    exists i :: 0 <= i < |queue| && queue[i].StatusChanged?
  }

  /** Something will still drive the run: an unfinished stage, or a status event that checks for quiescence. */
  ghost predicate Awake(index: Index, queue: seq<Event>) {
    index != map[] && (HasActive(index) || StatusQueued(queue))
  }

  /** A run goes on only while something drives it, and stops only when every stage has ended. */
  ghost predicate Drives(index: Index, queue: seq<Event>, stopped: bool, runStatus: RunStatus) {
    if stopped then !HasActive(index) && runStatus == FinalStatus(index) else Awake(index, queue)
  }

  /** The events of emitted artifacts, in queue order. */
  function Emitted(queue: seq<Event>): seq<Event> {
    if queue == [] then []
    else if queue[0].ArtifactEmitted? then [queue[0]] + Emitted(queue[1..])
    else Emitted(queue[1..])
  }

  lemma {:induction false} EmittedAppend(queue: seq<Event>, e: Event)
    ensures Emitted(queue + [e]) == if e.ArtifactEmitted? then Emitted(queue) + [e] else Emitted(queue)
  {
    if queue == [] {
      assert queue + [e] == [e];
    } else {
      EmittedAppend(queue[1..], e);
      assert (queue + [e])[1..] == queue[1..] + [e];
    }
  }

  /** What starting stages may do to the index and the queue. */
  ghost predicate Started(index: Index, queue: seq<Event>, index': Index, queue': seq<Event>) {
    && Grown(index, index') && queue <= queue' && Emitted(queue') == Emitted(queue)
    && (index' != index ==> Awake(index', queue')) && Quiet(index, queue, index', queue')
  }

  /** Only a failed start adds to the queue. */
  ghost predicate Quiet(index: Index, queue: seq<Event>, index': Index, queue': seq<Event>) {
    (forall k :: k in index' && k !in index ==> index'[k].status == Pending) ==> queue' == queue
  }

  /** What handling an event may do to the rest of the queue. */
  ghost predicate Queued(index: Index, queue: seq<Event>, index': Index, queue': seq<Event>) {
    queue <= queue' && Quiet(index, queue, index', queue')
  }

  lemma LongerQueueKeepsAwake(index: Index, queue: seq<Event>, queue': seq<Event>)
    requires Awake(index, queue) && queue <= queue'
    ensures Awake(index, queue')
  {
    if StatusQueued(queue) {
      var i :| 0 <= i < |queue| && queue[i].StatusChanged?;
      assert queue'[i] == queue[i];
    }
  }

  lemma StartedKeepsAwake(index: Index, queue: seq<Event>, index': Index, queue': seq<Event>)
    requires Awake(index, queue) && Started(index, queue, index', queue')
    ensures Awake(index', queue')
  {
  }

  lemma StartedNone(index: Index, queue: seq<Event>)
    ensures Started(index, queue, index, queue)
  {
  }

  lemma StartedTwice(index: Index, queue: seq<Event>, index': Index, queue': seq<Event>, index'': Index,
                     queue'': seq<Event>)
    requires Started(index, queue, index', queue') && Started(index', queue', index'', queue'')
    ensures Started(index, queue, index'', queue'')
  {
    assert index'' == index ==> index' == index;
    if forall k :: k in index'' && k !in index ==> index''[k].status == Pending {
      forall k | k in index' && k !in index ensures index'[k].status == Pending {
        assert index''[k] == index'[k];
      }
    }
  }

  lemma StartedOne(index: Index, queue: seq<Event>, stage: StageKey, id: InstanceId, failed: bool, index': Index,
                   queue': seq<Event>)
    requires stage !in index && index' == index[stage := Entry(id, if failed then Failed else Pending)]
    requires queue' == if failed then queue + [StatusChanged(id, Failed)] else queue
    ensures Started(index, queue, index', queue')
  {
    assert index'[stage].status == if failed then Failed else Pending;
    if failed {
      EmittedAppend(queue, StatusChanged(id, Failed));
      assert queue'[|queue|].StatusChanged?;
    }
  }

  // --- unit_complete slots ---

  function DeliverUnits(def: Def, edges: seq<Edge>, r: Resolved, from: Endpoint, unit: string, a: Artifact): Resolved {
    if edges == [] then r else
      var k := |edges| - 1;
      var before := DeliverUnits(def, edges[..k], r, from, unit, a);
      if edges[k].from == from && IsUnitComplete(def, edges[k].to) then Insert(before, edges[k].to, unit, a) else before
  }

  lemma {:induction false} DeliverUnitsPlain(def: Def, edges: seq<Edge>, r: Resolved, from: Endpoint, unit: string,
                                             a: Artifact)
    requires forall to :: !IsUnitComplete(def, to)
    ensures DeliverUnits(def, edges, r, from, unit, a) == r
  {
    if edges != [] {
      DeliverUnitsPlain(def, edges[..|edges| - 1], r, from, unit, a);
    }
  }

  /** A unit goes, under its own id, to every unit_complete slot an edge of the output leads to, and nowhere else. */
  lemma {:induction false} DeliverUnitsCell(def: Def, edges: seq<Edge>, r: Resolved, from: Endpoint, unit: string,
                                            a: Artifact, to: Endpoint, u: string)
    ensures Lookup(DeliverUnits(def, edges, r, from, unit, a), to, u)
            == if Edge(from, to) in edges && IsUnitComplete(def, to) && u == unit then Some(a) else Lookup(r, to, u)
  {
    if edges != [] {
      var k := |edges| - 1;
      DeliverUnitsCell(def, edges[..k], r, from, unit, a, to, u);
      assert edges == edges[..k] + [edges[k]];
    }
  }

  /** No consumer that a unit was delivered to is ready and still not started. */
  ghost predicate UnitsWoke(def: Def, edges: seq<Edge>, from: Endpoint, index: Index, r: Resolved) {
    forall e :: e in edges && e.from == from && IsUnitComplete(def, e.to) && Satisfied(def, index, r, e.to.stage)
                ==> e.to.stage in index
  }

  lemma UnitWokeStep(def: Def, edges: seq<Edge>, e: Edge, index: Index, r: Resolved, unit: string, a: Artifact,
                     index': Index)
    requires UnitsWoke(def, edges, e.from, index, r) && Grown(index, index')
    requires Satisfied(def, index, Insert(r, e.to, unit, a), e.to.stage) ==> e.to.stage in index'
    ensures UnitsWoke(def, edges + [e], e.from, index', Insert(r, e.to, unit, a))
  {
    var r' := Insert(r, e.to, unit, a);
    forall f | f in edges + [e] && f.from == e.from && IsUnitComplete(def, f.to)
               && Satisfied(def, index', r', f.to.stage)
      ensures f.to.stage in index'
    {
      GrownKeepsReadiness(def, index, index', r', f.to.stage);
      if f.to.stage != e.to.stage {
        InsertElsewhere(def, index, r, e.to, unit, a, f.to.stage);
      }
    }
  }

  lemma InsertElsewhere(def: Def, index: Index, r: Resolved, to: Endpoint, unit: string, a: Artifact, stage: StageKey)
    requires stage != to.stage
    ensures Satisfied(def, index, Insert(r, to, unit, a), stage) <==> Satisfied(def, index, r, stage)
  {
    var r' := Insert(r, to, unit, a);
    assert forall slot: InputSlot :: UnitsAt(r', Endpoint(stage, slot.name)) == UnitsAt(r, Endpoint(stage, slot.name));
    assert forall slot: InputSlot ::
        SlotSatisfied(def, index, r', stage, slot) <==> SlotSatisfied(def, index, r, stage, slot);
  }

  predicate IsExhausted(def: Def, index: Index, stage: StageKey, e: Edge) {
    e.from.stage == stage && IsUnitComplete(def, e.to) && ProducersDone(def, index, e.to)
  }

  /** An edge is exhausted when every edge into its unit_complete slot comes from a Done stage. */
  lemma ExhaustedIs(def: Def, index: Index, stage: StageKey, e: Edge)
    requires e in def.edges
    ensures IsExhausted(def, index, stage, e) <==>
            e.from.stage == stage && IsUnitComplete(def, e.to)
            && forall f :: f in def.edges && f.to == e.to
                           ==> f.from.stage in index && index[f.from.stage].status == Done
  {
    ProducersDoneIs(def, index, e.to);
  }

  /** Exactly the consumers at the exhausted edges were added to the index. */
  ghost predicate StartsExhausted(def: Def, index: Index, stage: StageKey, edges: seq<Edge>, index': Index) {
    forall k :: k in index'
                <==> k in index || exists e :: e in edges && e.to.stage == k && IsExhausted(def, index, stage, e)
  }

  lemma StartsExhaustedStep(def: Def, index: Index, stage: StageKey, edges: seq<Edge>, e: Edge, index': Index,
                            index'': Index)
    requires StartsExhausted(def, index, stage, edges, index')
    requires index''.Keys == index'.Keys + if IsExhausted(def, index, stage, e) then {e.to.stage} else {}
    ensures StartsExhausted(def, index, stage, edges + [e], index'')
  {
    var more := edges + [e];
    forall k ensures k in index''
                     <==> k in index || exists f :: f in more && f.to.stage == k && IsExhausted(def, index, stage, f) {
      assert k in index'' <==> k in index''.Keys;
      if k in index'' && k !in index' {
        assert e in edges + [e];
      } else if k in index' && k !in index {
        var f :| f in edges && f.to.stage == k && IsExhausted(def, index, stage, f);
        assert f in edges + [e];
      }
    }
  }

  ghost predicate ExhaustsInto(def: Def, index: Index, stage: StageKey, k: StageKey) {
    exists e :: e in def.edges && e.to.stage == k && IsExhausted(def, index, stage, e)
  }

  /**
   What follows when `p` becomes Done, `index` being taken just after its status was written: exactly the
   ready stages it feeds and the stages whose last unit it was start, and only slots it feeds change.
   */
  ghost predicate Followed(def: Def, index: Index, r: Resolved, rows: seq<Artifact>, p: StageKey,
                           index': Index, r': Resolved) {
    && Grown(index, index')
    && (forall k :: k in index' <==> || k in index || (FedBy(def, index, rows, p, k) && Satisfied(def, index, r', k))
                                     || ExhaustsInto(def, index, p, k))
    && (forall to: Endpoint :: !FedBy(def, index, rows, p, to.stage) ==> UnitsAt(r', to) == UnitsAt(r, to))
  }

  lemma FollowedBy(def: Def, s: State, p: StageKey, index': Index, index'': Index, r': Resolved)
    requires Grown(s.index, index') && Grown(index', index'')
    requires Released(def, s.index, s.resolved, s.rows, p, index', r')
    requires StartsExhausted(def, index', p, def.edges, index'')
    ensures Followed(def, s.index, s.resolved, s.rows, p, index'', r')
  {
    forall k ensures ExhaustsInto(def, s.index, p, k) <==> ExhaustsInto(def, index', p, k) {
      forall e: Edge ensures IsExhausted(def, s.index, p, e) <==> IsExhausted(def, index', p, e) {
        GrownKeepsDone(def, s.index, index', e.to);
      }
    }
    assert forall k :: k in index'' <==> k in index' || ExhaustsInto(def, index', p, k);
  }

  // --- what each event does ---

  /** An artifact of a delegated stage is held back; any other is filed, and exactly its ready consumers start. */
  ghost predicate EmissionHandled(def: Def, index: Index, r: Resolved, a: Artifact, output: SlotName,
                                  index': Index, r': Resolved) {
    && Grown(index, index')
    && (forall p :: p in index && index[p].id == a.instance && !IsDelegated(def, p)
                    ==> && r' == FileOutput(def, r, Output(p, a, output))
                        && StartsReady(def, index, r', Consumers(def, def.edges, [Output(p, a, output)]), index'))
    && ((forall p :: p in index && index[p].id == a.instance ==> IsDelegated(def, p)) ==> r' == r && index' == index)
  }

  /** A finished unit goes to unit_complete slots only, and no consumer it makes ready is left unstarted. */
  ghost predicate UnitHandled(def: Def, index: Index, r: Resolved, instance: InstanceId, unit: string, a: Artifact,
                              index': Index, r': Resolved) {
    && Grown(index, index')
    && (forall p :: p in index && index[p].id == instance && a.outputName.Some?
                    ==> var from := Endpoint(p, a.outputName.value);
                        && r' == DeliverUnits(def, def.edges, r, from, unit, a)
                        && UnitsWoke(def, def.edges, from, index', r'))
    && (a.outputName.None? || (forall p :: p in index ==> index[p].id != instance) ==> r' == r && index' == index)
  }

  /** The instance of `p` reports Done and no unit input is outstanding. */
  predicate Accepts(def: Def, index: Index, instance: InstanceId, status: StageStatus, p: StageKey) {
    status == Done && p in index && index[p].id == instance && !AwaitsMoreUnits(def, index, p)
  }

  function Completed(index: Index, p: StageKey): Index
    requires p in index
  {
    index[p := index[p].(status := Done)]
  }

  /** The instance's entry takes the status, or Running for a premature Done; an accepted Done is followed up. */
  ghost predicate StatusHandled(def: Def, index: Index, r: Resolved, rows: seq<Artifact>, instance: InstanceId,
                                status: StageStatus, index': Index, r': Resolved) {
    && Reindexed(def, index, instance, status, index')
    && (forall p :: Accepts(def, index, instance, status, p)
                    ==> Followed(def, Completed(index, p), r, rows, p, index', r'))
    && ((forall p :: !Accepts(def, index, instance, status, p)) ==> r' == r && forall k :: k in index' ==> k in index)
  }

  ghost predicate Handled(def: Def, index: Index, r: Resolved, rows: seq<Artifact>, e: Event, index': Index,
                          r': Resolved) {
    match e
    case ArtifactEmitted(a, output) => EmissionHandled(def, index, r, a, output, index', r')
    case UnitCompleted(instance, unit, a) => UnitHandled(def, index, r, instance, unit, a, index', r')
    case StatusChanged(instance, status) => StatusHandled(def, index, r, rows, instance, status, index', r')
  }

  // --- completion order ---

  predicate AwaitsMoreUnits(def: Def, index: Index, stage: StageKey) {
    stage in def.stages
    && exists slot :: slot in def.stages[stage].inputs && slot.delivery == UnitComplete
                      && !ProducersDone(def, index, Endpoint(stage, slot.name))
  }

  /** The entry of stage `k` after a status event of the instance. */
  function NextEntry(def: Def, index: Index, k: StageKey, instance: InstanceId, status: StageStatus): Entry
    requires k in index
  {
    if index[k].id != instance then index[k]
    else if status == Done && AwaitsMoreUnits(def, index, k) then Entry(instance, Running)
    else Entry(instance, status)
  }

  /** A status event changes the entry of its own instance only; other stages may have started. */
  ghost predicate Reindexed(def: Def, index: Index, instance: InstanceId, status: StageStatus, index': Index) {
    forall k :: k in index ==> k in index' && index'[k] == NextEntry(def, index, k, instance, status)
  }

  /** A unit_complete slot of the stage has no edge into it, or one from a stage that is not Done. */
  ghost predicate LacksUnits(def: Def, index: Index, stage: StageKey, slot: InputSlot) {
    var to := Endpoint(stage, slot.name);
    slot.delivery == UnitComplete
    && (HasEdgeInto(def, to)
        ==> exists e :: e in def.edges && e.to == to
                        && !(e.from.stage in index && index[e.from.stage].status == Done))
  }

  lemma AwaitsMoreUnitsIs(def: Def, index: Index, stage: StageKey)
    ensures AwaitsMoreUnits(def, index, stage) <==>
            stage in def.stages
            && exists slot :: slot in def.stages[stage].inputs && LacksUnits(def, index, stage, slot)
  {
    if stage in def.stages {
      forall slot | slot in def.stages[stage].inputs
        ensures LacksUnits(def, index, stage, slot)
                <==> slot.delivery == UnitComplete && !ProducersDone(def, index, Endpoint(stage, slot.name))
      {
        ProducersDoneIs(def, index, Endpoint(stage, slot.name));
      }
    }
  }

  /** The status recorded is the one reported, except that a Done before the last unit counts as Running. */
  lemma RecordedStatusIs(def: Def, index: Index, k: StageKey, instance: InstanceId, status: StageStatus, index': Index)
    requires Reindexed(def, index, instance, status, index') && k in index
    ensures k in index' && index'[k].id == index[k].id
    ensures index[k].id != instance ==> index'[k] == index[k]
    ensures index[k].id == instance ==>
              var early := status == Done && k in def.stages
                           && exists slot :: slot in def.stages[k].inputs && LacksUnits(def, index, k, slot);
              index'[k].status == if early then Running else status
  {
    AwaitsMoreUnitsIs(def, index, k);
  }

  lemma ReindexedBy(def: Def, s: State, stage: StageKey, status: StageStatus, index': Index)
    requires Identified(def, s) && stage in s.index
    requires var e := NextEntry(def, s.index, stage, s.index[stage].id, status); Grown(s.index[stage := e], index')
    ensures Reindexed(def, s.index, s.index[stage].id, status, index')
  {
    var was := s.index[stage := NextEntry(def, s.index, stage, s.index[stage].id, status)];
    forall k | k in s.index ensures k in index' && index'[k] == NextEntry(def, s.index, k, s.index[stage].id, status) {
      assert k in was && was[k] == NextEntry(def, s.index, k, s.index[stage].id, status);
    }
  }

  lemma ParkedIsActive(def: Def, index: Index, instance: InstanceId, index': Index)
    requires Reindexed(def, index, instance, Parked, index')
    ensures (exists k :: k in index && index[k].id == instance) ==> HasActive(index')
  {
    if k :| k in index && index[k].id == instance {
      assert k in index' && IsActive(index'[k].status);
    }
  }

  /** Writing a status, then following up a Done, is what handling a status event means. */
  lemma StatusHandledBy(def: Def, s: State, stage: StageKey, status: StageStatus, written: Index, index': Index,
                        r': Resolved)
    requires Identified(def, s) && stage in s.index && written == s.index[stage := s.index[stage].(status := status)]
    requires status == Done ==> !AwaitsMoreUnits(def, s.index, stage)
    requires if status == Done then Followed(def, written, s.resolved, s.rows, stage, index', r')
             else index' == written && r' == s.resolved
    ensures StatusHandled(def, s.index, s.resolved, s.rows, s.index[stage].id, status, index', r')
  {
    ReindexedBy(def, s, stage, status, index');
    assert status == Done ==> Accepts(def, s.index, s.index[stage].id, status, stage);
  }

  lemma StatusDeferred(def: Def, s: State, stage: StageKey, index': Index)
    requires Identified(def, s) && stage in s.index && AwaitsMoreUnits(def, s.index, stage)
    requires index' == s.index[stage := s.index[stage].(status := Running)]
    ensures StatusHandled(def, s.index, s.resolved, s.rows, s.index[stage].id, Done, index', s.resolved)
  {
    ReindexedBy(def, s, stage, Done, index');
  }

  lemma ReindexedIsNotEmpty(def: Def, index: Index, instance: InstanceId, status: StageStatus, index': Index)
    requires index != map[] && Reindexed(def, index, instance, status, index')
    ensures index' != map[]
  {
    var k :| k in index;
    assert k in index';
  }

  /** After a retry the stage runs, or it has failed. */
  predicate Reexecuted(index: Index, stage: StageKey, executed: bool, index': Index) {
    && stage in index
    && index' == index[stage := index[stage].(status := if executed then Running else Failed)]
  }

  /** No stage has been Done before every producer of its unit_complete slots. */
  ghost predicate InOrder(def: Def, done: set<StageKey>) {
    forall k, slot :: k in done && k in def.stages && slot in def.stages[k].inputs && slot.delivery == UnitComplete
                      ==> Producers(def, Endpoint(k, slot.name)) != {} && Producers(def, Endpoint(k, slot.name)) <= done
  }

  lemma DoneKeepsOrder(def: Def, s: State, stage: StageKey)
    requires Identified(def, s) && InOrder(def, s.done) && !AwaitsMoreUnits(def, s.index, stage)
    ensures InOrder(def, s.done + {stage})
  {
    forall slot | stage in def.stages && slot in def.stages[stage].inputs && slot.delivery == UnitComplete
      ensures Producers(def, Endpoint(stage, slot.name)) != {} && Producers(def, Endpoint(stage, slot.name)) <= s.done
    {
      assert ProducersDone(def, s.index, Endpoint(stage, slot.name));
      assert forall p :: p in Producers(def, Endpoint(stage, slot.name)) ==> IsDone(s.index, p);
    }
  }

  // --- what was emitted, and how much of it was processed ---

  predicate IsLogged(index: Index, row: Artifact, o: Output) {
    o.artifact == row && row.outputName == Some(o.slot) && o.stage in index && index[o.stage].id == row.instance
  }

  /** The event that announces an output. */
  function Announcement(o: Output): Event {
    ArtifactEmitted(o.artifact, o.slot)
  }

  /** One instance's rows are created at strictly increasing times. */
  ghost predicate ClocksAdvance(rows: seq<Artifact>) {
    forall i, j :: 0 <= i < j < |rows| && rows[i].instance == rows[j].instance ==> rows[i].createdAt < rows[j].createdAt
  }

  /** Every row is an output of an indexed stage, and its event is either processed or queued, in order. */
  ghost predicate Logged(index: Index, rows: seq<Artifact>, emitted: seq<Output>, processed: nat, queue: seq<Event>) {
    && |emitted| == |rows| && (forall i :: 0 <= i < |rows| ==> IsLogged(index, rows[i], emitted[i]))
    && processed + |Emitted(queue)| == |emitted|
    && (forall i :: 0 <= i < |Emitted(queue)| ==> Emitted(queue)[i] == Announcement(emitted[processed + i]))
  }

  lemma StartedKeepsLogged(index: Index, queue: seq<Event>, index': Index, queue': seq<Event>, rows: seq<Artifact>,
                           emitted: seq<Output>, processed: nat)
    requires Logged(index, rows, emitted, processed, queue) && Started(index, queue, index', queue')
    ensures Logged(index', rows, emitted, processed, queue')
  {
    forall i | 0 <= i < |rows| ensures IsLogged(index', rows[i], emitted[i]) {
      assert IsLogged(index, rows[i], emitted[i]);
    }
  }

  lemma StatusKeepsLogged(index: Index, stage: StageKey, status: StageStatus, rows: seq<Artifact>, emitted: seq<Output>,
                          processed: nat, queue: seq<Event>)
    requires Logged(index, rows, emitted, processed, queue) && stage in index
    ensures Logged(index[stage := index[stage].(status := status)], rows, emitted, processed, queue)
  {
    var index' := index[stage := index[stage].(status := status)];
    forall i | 0 <= i < |rows| ensures IsLogged(index', rows[i], emitted[i]) {
      assert IsLogged(index, rows[i], emitted[i]);
    }
  }

  /** In a run without delegated stages the map is what filing the processed emissions gives. */
  ghost predicate IsLive(def: Def, r: Resolved, emitted: seq<Output>, processed: nat) {
    Plain(def) && processed <= |emitted| ==> r == FileAll(def, map[], emitted[..processed])
  }

  lemma NextIsLive(def: Def, r: Resolved, emitted: seq<Output>, processed: nat, r': Resolved)
    requires processed < |emitted| && IsLive(def, r, emitted, processed)
    requires Plain(def) ==> r' == FileOutput(def, r, emitted[processed])
    ensures IsLive(def, r', emitted, processed + 1)
  {
    assert emitted[..processed + 1][..processed] == emitted[..processed];
  }

  lemma RowsAreEmitted(index: Index, rows: seq<Artifact>, emitted: seq<Output>, stored: seq<Artifact>)
    requires |emitted| == |rows| && (forall i :: 0 <= i < |rows| ==> IsLogged(index, rows[i], emitted[i]))
    requires forall a :: a in stored <==> a in rows
    ensures SameRows(emitted, stored)
  {
    forall i | 0 <= i < |rows| ensures emitted[i].artifact == rows[i] {
      assert IsLogged(index, rows[i], emitted[i]);
    }
    forall a ensures a in rows <==> exists i :: 0 <= i < |emitted| && emitted[i].artifact == a {
      assert a in rows <==> exists i :: 0 <= i < |rows| && rows[i] == a;
    }
  }

  lemma EmittedAreEmissions(def: Def, s: State, emitted: seq<Output>, instances: Instances)
    requires Identified(def, s) && |emitted| == |s.rows|
    requires forall i :: 0 <= i < |s.rows| ==> IsLogged(s.index, s.rows[i], emitted[i])
    requires forall k :: k in s.index ==> s.index[k].id in instances && instances[s.index[k].id] == k
    requires ClocksAdvance(s.rows)
    ensures Emissions(def, instances, emitted)
  {
    forall i | 0 <= i < |emitted| ensures OutputOf(def, instances, emitted[i].artifact) == Some(emitted[i]) {
      assert IsLogged(s.index, s.rows[i], emitted[i]);
    }
    forall i, j | 0 <= i < j < |emitted| && emitted[i].stage == emitted[j].stage
      ensures emitted[i].artifact.createdAt < emitted[j].artifact.createdAt
    {
      assert IsLogged(s.index, s.rows[i], emitted[i]) && IsLogged(s.index, s.rows[j], emitted[j]);
    }
  }

  // --- the whole invariant ---

  datatype Log = Log(launches: seq<Launch>, emitted: seq<Output>, processed: nat)

  ghost predicate AllFed(def: Def, launches: seq<Launch>) {
    forall i :: 0 <= i < |launches| ==> WellFed(def, launches[i])
  }

  lemma LaunchKeepsFed(def: Def, stage: StageKey, retried: bool, s: State, before: seq<Launch>, after: seq<Launch>)
    requires AllFed(def, before) && LaunchedFrom(def, stage, retried, s, before, after)
    ensures AllFed(def, after)
  {
    forall i | 0 <= i < |after| ensures WellFed(def, after[i]) {
      assert i < |before| ==> after[i] == before[i];
    }
  }

  /** A stage that is Done or Failed has no handle. */
  ghost predicate NoHandleLeft(index: Index, handles: set<InstanceId>) {
    forall k :: k in index && (index[k].status == Done || index[k].status == Failed) ==> index[k].id !in handles
  }

  ghost predicate HandlesOpen(s: State) {
    && NoHandleLeft(s.index, s.handles)
    && (forall h :: h in s.handles ==> h < s.nextId)
  }

  ghost predicate AllHold(def: Def, s: State, queue: seq<Event>, log: Log, releasing: set<StageKey>) {
    && Inv(def, s, releasing) && InOrder(def, s.done)
    && AllFed(def, log.launches) && HandlesOpen(s)
    && Logged(s.index, s.rows, log.emitted, log.processed, queue)
  }

  lemma ActivationHolds(def: Def, s: State, queue: seq<Event>, log: Log, stage: StageKey, failed: bool,
                        s': State, queue': seq<Event>, log': Log)
    requires AllHold(def, s, queue, log, {}) && stage !in s.index && stage in def.stages && Gated(def, s.done, stage)
    requires s' == s.(index := s.index[stage := Entry(s.nextId, if failed then Failed else Pending)],
                      nextId := s.nextId + 1, handles := if failed then s.handles else s.handles + {s.nextId})
    requires queue' == if failed then queue + [StatusChanged(s.nextId, Failed)] else queue
    requires log' == log.(launches := log'.launches) && LaunchedFrom(def, stage, false, s, log.launches, log'.launches)
    ensures AllHold(def, s', queue', log', {}) && Started(s.index, queue, s'.index, queue')
  {
    LaunchKeepsFed(def, stage, false, s, log.launches, log'.launches);
    StartKeepsInv(def, s, stage, if failed then Failed else Pending, s');
    StartedOne(s.index, queue, stage, s.nextId, failed, s'.index, queue');
    StartedKeepsLogged(s.index, queue, s'.index, queue', s.rows, log.emitted, log.processed);
  }

  lemma ReadyIsGated(def: Def, s: State, queue: seq<Event>, log: Log, stage: StageKey)
    requires AllHold(def, s, queue, log, {})
    requires Satisfied(def, s.index, s.resolved, stage) || IsIncremental(def, stage)
    ensures Inv(def, s, {}) && Gated(def, s.done, stage)
  {
    if Satisfied(def, s.index, s.resolved, stage) {
      SatisfiedIsGated(def, s, stage);
    }
  }

  /** Filing changes only the map, so only the invariant on its contents is at stake. */
  lemma FilingHolds(def: Def, s: State, queue: seq<Event>, log: Log, releasing: set<StageKey>, s': State)
    requires AllHold(def, s, queue, log, releasing) && s' == s.(resolved := s'.resolved) && Inv(def, s', {})
    ensures AllHold(def, s', queue, log, {})
  {
  }

  predicate IsTerminal(status: StageStatus) {
    status == Done || status == Failed
  }

  lemma EndedHaveNoHandle(def: Def, s: State, queue: seq<Event>, log: Log)
    requires AllHold(def, s, queue, log, {})
    ensures NoHandleLeft(s.index, s.handles)
  {
  }

  lemma FewerHandlesHold(def: Def, s: State, queue: seq<Event>, log: Log, releasing: set<StageKey>, s': State)
    requires AllHold(def, s, queue, log, releasing) && s' == s.(handles := s'.handles) && s'.handles <= s.handles
    ensures AllHold(def, s', queue, log, releasing)
  {
    SameButHandles(def, s, s', releasing);
  }

  lemma HandleHolds(def: Def, s: State, queue: seq<Event>, log: Log, stage: StageKey, s': State)
    requires AllHold(def, s, queue, log, {}) && stage in s.index && !IsTerminal(s.index[stage].status)
    requires s' == s.(handles := s.handles + {s.index[stage].id})
    ensures AllHold(def, s', queue, log, {})
  {
    SameButHandles(def, s, s', {});
  }

  lemma StatusHolds(def: Def, s: State, queue: seq<Event>, log: Log, stage: StageKey, status: StageStatus, s': State)
    requires AllHold(def, s, queue, log, {}) && stage in s.index
    requires status == Done ==> !AwaitsMoreUnits(def, s.index, stage)
    requires s' == s.(index := s.index[stage := s.index[stage].(status := status)],
                      done := if status == Done then s.done + {stage} else s.done,
                      handles := if IsTerminal(status) then s.handles - {s.index[stage].id} else s.handles)
    ensures AllHold(def, s', queue, log, if status == Done then {stage} else {})
  {
    StatusKeepsInv(def, s, stage, status, s');
    StatusKeepsLogged(s.index, stage, status, s.rows, log.emitted, log.processed, queue);
    if status == Done {
      DoneKeepsOrder(def, s, stage);
    }
  }

  predicate IsNextEmission(index: Index, e: Event, log: Log) {
    && e.ArtifactEmitted? && log.processed < |log.emitted|
    && IsLogged(index, e.artifact, log.emitted[log.processed]) && log.emitted[log.processed].slot == e.output
  }

  /** Taking the first event off the queue, and counting it if it is an emission. */
  lemma PopHolds(def: Def, s: State, queue: seq<Event>, log: Log)
    requires AllHold(def, s, queue, log, {}) && queue != []
    ensures var one := if queue[0].ArtifactEmitted? then 1 else 0;
            AllHold(def, s, queue[1..], log.(processed := log.processed + one), {})
    ensures queue[0].ArtifactEmitted? ==> IsNextEmission(s.index, queue[0], log)
  {
    hide Inv, InOrder, AllFed, HandlesOpen;
    if queue[0].ArtifactEmitted? {
      assert Emitted(queue) == [queue[0]] + Emitted(queue[1..]);
      assert Emitted(queue)[0] == queue[0];
      assert IsLogged(s.index, s.rows[log.processed], log.emitted[log.processed]);
      forall i | 0 <= i < |Emitted(queue[1..])|
        ensures Emitted(queue[1..])[i] == Announcement(log.emitted[log.processed + 1 + i])
      {
        assert Emitted(queue[1..])[i] == Emitted(queue)[i + 1];
      }
    }
  }

  lemma PopKeepsAwake(index: Index, queue: seq<Event>)
    requires Awake(index, queue) && queue != [] && !queue[0].StatusChanged?
    ensures Awake(index, queue[1..])
  {
    if StatusQueued(queue) {
      var i :| 0 <= i < |queue| && queue[i].StatusChanged?;
      assert queue[1..][i - 1] == queue[i];
    }
  }

  lemma PushHolds(def: Def, s: State, queue: seq<Event>, log: Log, e: Event)
    requires AllHold(def, s, queue, log, {}) && !e.ArtifactEmitted?
    ensures AllHold(def, s, queue + [e], log, {})
  {
    EmittedAppend(queue, e);
  }

  lemma EmissionIsLogged(s: State, queue: seq<Event>, log: Log, o: Output)
    requires Logged(s.index, s.rows, log.emitted, log.processed, queue) && IsLogged(s.index, o.artifact, o)
    ensures Logged(s.index, s.rows + [o.artifact], log.emitted + [o], log.processed, queue + [Announcement(o)])
  {
    var e := Announcement(o);
    EmittedAppend(queue, e);
    var rows, emitted := s.rows + [o.artifact], log.emitted + [o];
    forall i | 0 <= i < |rows| ensures IsLogged(s.index, rows[i], emitted[i]) {
      assert i < |s.rows| ==> IsLogged(s.index, s.rows[i], log.emitted[i]);
    }
    forall i | 0 <= i < |Emitted(queue + [e])|
      ensures Emitted(queue + [e])[i] == Announcement(emitted[log.processed + i])
    {
      assert i < |Emitted(queue)| ==> Emitted(queue + [e])[i] == Emitted(queue)[i];
    }
  }

  /** Storing and announcing an artifact of a stage that is not Done. */
  lemma EmissionHolds(def: Def, s: State, queue: seq<Event>, log: Log, o: Output)
    requires AllHold(def, s, queue, log, {}) && IsLogged(s.index, o.artifact, o) && !IsDone(s.index, o.stage)
    ensures AllHold(def, s.(rows := s.rows + [o.artifact]), queue + [Announcement(o)],
                    log.(emitted := log.emitted + [o]), {})
    ensures log.processed <= |log.emitted|
  {
    RowKeepsInv(def, s, o.artifact, s.(rows := s.rows + [o.artifact]));
    EmissionIsLogged(s, queue, log, o);
  }

  lemma EmissionKeepsLive(def: Def, r: Resolved, emitted: seq<Output>, processed: nat, o: Output)
    requires IsLive(def, r, emitted, processed) && processed <= |emitted|
    ensures IsLive(def, r, emitted + [o], processed)
  {
    assert (emitted + [o])[..processed] == emitted[..processed];
  }
}
