/**
 The scheduler of one workflow run (oakridge-core/src/scheduler.rs, RunTask). Executors are the
 environment: they add artifact rows and queue events whenever they like, and what they or the database
 answer is a parameter.
 */
module RunScheduler {
  import opened Workflow
  import opened Readiness
  import opened Gathering
  import opened Recovery
  import opened RunSteps
  import opened Overlooking

  /** How far the launch of a stage gets once its inputs fit: a stage is launched once, so this fixes it. */
  datatype Fate = NotBuilt | NotExecuted | Executed

  class RunTask {
    const def: Def
    const fate: StageKey -> Fate
    var index: Index
    var resolved: Resolved
    var rows: seq<Artifact>
    var nextId: nat
    var handles: set<InstanceId>
    var queue: seq<Event>
    var runStatus: RunStatus
    var stopped: bool
    ghost var done: set<StageKey>
    ghost var launches: seq<Launch>
    ghost var emitted: seq<Output>
    ghost var processed: nat

    ghost function Now(): State
      reads this`index, this`resolved, this`rows, this`done, this`nextId, this`handles
    {
      State(index, resolved, rows, done, nextId, handles)
    }

    ghost function History(): Log
      reads this`launches, this`emitted, this`processed
    {
      Log(launches, emitted, processed)
    }

    ghost predicate Valid()
      reads this`index, this`resolved, this`rows, this`done, this`nextId, this`launches, this`emitted, this`processed,
            this`queue, this`handles
    {
      AllHold(def, Now(), queue, History(), {})
    }

    ghost predicate InStep()
      reads this`resolved, this`emitted, this`processed
    {
      IsLive(def, resolved, emitted, processed)
    }

    constructor (def: Def, fate: StageKey -> Fate)
      ensures this.def == def && this.fate == fate && Valid() && InStep() && !stopped && runStatus == RunRunning
      ensures index == map[] && resolved == map[] && rows == [] && queue == [] && handles == {}
      ensures done == {} && launches == [] && emitted == []
    {
      this.def, this.fate := def, fate;
      index, resolved, rows, queue, handles := map[], map[], [], [], {};
      nextId, runStatus, stopped := 0, RunRunning, false;
      done, launches, emitted, processed := {}, [], [], 0;
      new;
      FreshRun(def);
    }

    // --- starting stages ---

    method FailActivation(stage: StageKey, id: InstanceId)
      modifies this`index, this`queue
      ensures index == old(index)[stage := Entry(id, Failed)]
      ensures queue == old(queue) + [StatusChanged(id, Failed)]
    {
      index := index[stage := Entry(id, Failed)];
      queue := queue + [StatusChanged(id, Failed)];
    }

    /** The inputs fit the slots and nothing fails on the way to a running stage. */
    predicate Launches(r: Resolved, stage: StageKey) {
      InputsFitSlots(def, r, stage) && fate(stage) == Executed
    }

    /** Resolve the inputs, build the configuration, store the instance and execute it; each step may fail. */
    method LaunchStage(stage: StageKey, id: InstanceId) returns (failed: bool)
      requires Inv(def, Now(), {}) && Gated(def, done, stage) && stage in def.stages && stage !in index
      requires Satisfied(def, index, resolved, stage) || IsIncremental(def, stage)
      modifies this`index, this`queue, this`handles, this`launches
      ensures failed <==> !Launches(resolved, stage)
      ensures index == old(index)[stage := Entry(id, if failed then Failed else Pending)]
      ensures queue == if failed then old(queue) + [StatusChanged(id, Failed)] else old(queue)
      ensures handles == if failed then old(handles) else old(handles) + {id}
      ensures LaunchedFrom(def, stage, false, old(Now()), old(launches), launches)
      ensures launches != old(launches) <==> InputsFitSlots(def, resolved, stage) && fate(stage) != NotBuilt
    {
      failed := true;
      var inputs := PrepareInputs(def, resolved, stage, false, Now());
      if inputs.None? || fate(stage) == NotBuilt {
        FailActivation(stage, id);
        return;
      }
      launches := launches + [Launch(stage, false, inputs.value, Now())];
      if fate(stage) == NotExecuted {
        FailActivation(stage, id);
        return;
      }
      index := index[stage := Entry(id, Pending)];
      handles := handles + {id};
      failed := false;
    }

    /** A stage that may start is gated, so its entry keeps the invariant however the launch ends. */
    method ActivateStage(stage: StageKey)
      requires Valid()
      requires stage in index || Satisfied(def, index, resolved, stage) || IsIncremental(def, stage)
      modifies this`index, this`queue, this`nextId, this`handles, this`launches
      ensures Valid() && Started(old(index), old(queue), index, queue)
      ensures index.Keys == old(index).Keys + if stage in def.stages then {stage} else {}
      ensures stage in index && stage !in old(index) ==> index[stage].status == LaunchStatus(resolved, stage)
    {
      hide AllHold, Inv, Gated, Satisfied, Started, InputsFitSlots, WellFed;
      if stage in index || stage !in def.stages {
        StartedNone(index, queue);
        return;
      }
      ghost var s := Now();
      ReadyIsGated(def, s, queue, History(), stage);
      assert nextId == s.nextId;
      var failed := LaunchStage(stage, nextId);
      nextId := nextId + 1;
      ActivationHolds(def, s, old(queue), old(History()), stage, failed, Now(), queue, History());
    }

    function LaunchStatus(r: Resolved, stage: StageKey): StageStatus {
      if Launches(r, stage) then Pending else Failed
    }

    /** The new entries are pending or failed as their launches went. */
    ghost predicate LaunchedAs(before: Index, r: Resolved, after: Index) {
      forall k :: k in after && k !in before ==> after[k].status == LaunchStatus(r, k)
    }

    // --- filing artifacts and waking their consumers ---

    method FileArtifact(o: Output) returns (consumers: set<StageKey>)
      modifies this`resolved
      ensures resolved == FileOutput(def, old(resolved), o)
      ensures consumers == Consumers(def, def.edges, [o])
    {
      consumers := {};
      for i := 0 to |def.edges|
        invariant resolved == FileAlong(def, def.edges[..i], old(resolved), o)
        invariant consumers == Consumers(def, def.edges[..i], [o])
      {
        var e := def.edges[i];
        assert def.edges[..i + 1][..i] == def.edges[..i];
        assert def.edges[..i + 1] == def.edges[..i] + [e];
        if Delivers(def, e, o) {
          resolved := Insert(resolved, e.to, UnitKey(def, o.stage, e.to, UnitLabel(o.artifact)), o.artifact);
          consumers := consumers + {e.to.stage};
        }
        ConsumersOfEdge(def, def.edges[..i], e, o);
      }
      assert def.edges[..|def.edges|] == def.edges;
    }

    method FileArtifacts(outputs: seq<Output>) returns (consumers: set<StageKey>)
      modifies this`resolved
      ensures resolved == FileAll(def, old(resolved), outputs)
      ensures consumers == Consumers(def, def.edges, outputs)
    {
      consumers := {};
      for i := 0 to |outputs|
        invariant resolved == FileAll(def, old(resolved), outputs[..i])
        invariant consumers == Consumers(def, def.edges, outputs[..i])
      {
        var more := FileArtifact(outputs[i]);
        consumers := consumers + more;
        assert outputs[..i + 1][..i] == outputs[..i];
        assert outputs[..i + 1] == outputs[..i] + [outputs[i]];
        ConsumersOfBatch(def, def.edges, outputs[..i], outputs[i]);
      }
      assert outputs[..|outputs|] == outputs;
    }

    /** One more consumer of a batch, after `seen`; `index0` and `queue0` are as they were before the batch. */
    method ActivateIfReady(stage: StageKey, ghost index0: Index, ghost queue0: seq<Event>, ghost seen: set<StageKey>)
      requires Valid() && Started(index0, queue0, index, queue) && StartsReady(def, index0, resolved, seen, index)
      requires LaunchedAs(index0, resolved, index)
      modifies this`index, this`queue, this`nextId, this`handles, this`launches
      ensures Valid() && Started(index0, queue0, index, queue)
      ensures StartsReady(def, index0, resolved, seen + {stage}, index)
      ensures LaunchedAs(index0, resolved, index)
    {
      hide AllHold, Satisfied, InputsFitSlots, Awake, Quiet;
      GrownKeepsReadiness(def, index0, index, resolved, stage);
      if stage !in index && Satisfied(def, index, resolved, stage) {
        ActivateStage(stage);
        StartedTwice(index0, queue0, old(index), old(queue), index, queue);
      }
      StartsReadyStep(def, index0, resolved, seen, stage, old(index), index);
    }

    /** Starts exactly the consumers that are ready and not yet in the index. */
    method ActivateConsumers(consumers: set<StageKey>)
      requires Valid()
      modifies this`index, this`queue, this`nextId, this`handles, this`launches
      ensures Valid() && Started(old(index), old(queue), index, queue)
      ensures StartsReady(def, old(index), resolved, consumers, index) && LaunchedAs(old(index), resolved, index)
    {
      hide AllHold;
      var left := consumers;
      ghost var seen: set<StageKey> := {};
      while left != {}
        invariant seen + left == consumers
        invariant Valid() && Started(old(index), old(queue), index, queue)
        invariant StartsReady(def, old(index), resolved, seen, index) && LaunchedAs(old(index), resolved, index)
        decreases |left|
      {
        var c :| c in left;
        ActivateIfReady(c, old(index), old(queue), seen);
        left, seen := left - {c}, seen + {c};
      }
      assert seen == consumers;
    }

    /** All outputs of a transition are filed before any consumer is considered. */
    method PropagateArtifacts(outputs: seq<Output>)
      requires AllHold(def, Now().(resolved := FileAll(def, resolved, outputs)), queue, History(), {})
      modifies this`resolved, this`index, this`queue, this`nextId, this`handles, this`launches
      ensures Valid() && Started(old(index), old(queue), index, queue)
      ensures resolved == FileAll(def, old(resolved), outputs)
      ensures StartsReady(def, old(index), resolved, Consumers(def, def.edges, outputs), index)
    {
      var consumers := FileArtifacts(outputs);
      ActivateConsumers(consumers);
    }

    // --- executor events ---

    /** An artifact of a delegated stage is held back; any other is filed at once. */
    method OnArtifactEmitted(artifact: Artifact, output: SlotName)
      requires Valid()
      modifies this`resolved, this`index, this`queue, this`nextId, this`handles, this`launches
      ensures Valid() && Started(old(index), old(queue), index, queue)
      ensures EmissionHandled(def, old(index), old(resolved), artifact, output, index, resolved)
    {
      if p :| p in index && index[p].id == artifact.instance {
        if IsDelegated(def, p) {
          return;
        }
        var o := Output(p, artifact, output);
        assert [o][..0] == [];
        assert FileAll(def, resolved, [o]) == FileOutput(def, resolved, o);
        ghost var s' := Now().(resolved := FileOutput(def, resolved, o));
        FileKeepsInv(def, Now(), o, s');
        FilingHolds(def, Now(), queue, History(), {}, s');
        PropagateArtifacts([o]);
      }
    }

    /** release_completed_delegated_outputs: everything the stage emitted, in its latest version. */
    method ReleaseOutputs(stage: StageKey)
      requires AllHold(def, Now(), queue, History(), {stage}) && IsDone(index, stage)
      modifies this`resolved, this`index, this`queue, this`nextId, this`handles, this`launches
      ensures Valid() && Started(old(index), old(queue), index, queue)
      ensures Released(def, old(index), old(resolved), rows, stage, index, resolved)
      ensures !IsDelegated(def, stage) ==> resolved == old(resolved) && index == old(index)
    {
      if !IsDelegated(def, stage) {
        NothingToRelease(def, Now(), stage);
        FilingHolds(def, Now(), queue, History(), {stage}, Now());
        return;
      }
      var batch, latest := LatestOutputs(stage);
      PropagateArtifacts(batch);
      ReleasedBy(def, old(Now()), stage, latest, batch, index, resolved);
    }

    method LatestOutputs(stage: StageKey) returns (batch: seq<Output>, ghost latest: Latest)
      requires AllHold(def, Now(), queue, History(), {stage}) && IsDone(index, stage) && IsDelegated(def, stage)
      ensures Releases(def, Now(), stage, latest, batch)
      ensures AllHold(def, Now().(resolved := FileAll(def, resolved, batch)), queue, History(), {})
    {
      var m := LatestByOutputAndUnit(def.stages[stage], index[stage].id, rows);
      forall k | k in m ensures UnitLabel(m[k]) == k.unit {
        assert IsLatest(def.stages[stage], index[stage].id, rows, k.output, k.unit, LatestAt(m, k));
      }
      batch := BatchFrom(stage, m);
      latest := m;
      ghost var s' := Now().(resolved := FileAll(def, resolved, batch));
      ReleaseKeepsInv(def, Now(), stage, m, batch, s');
      FilingHolds(def, Now(), queue, History(), {stage}, s');
    }

    /** One unit_complete edge: the unit is filed, and a consumer that is not in the index yet may start. */
    method DeliverUnit(e: Edge, unit: string, artifact: Artifact, ghost index0: Index, ghost queue0: seq<Event>,
                       ghost edges: seq<Edge>)
      requires Valid() && IsUnitComplete(def, e.to) && Started(index0, queue0, index, queue)
      requires UnitsWoke(def, edges, e.from, index, resolved)
      modifies this`resolved, this`index, this`queue, this`nextId, this`handles, this`launches
      ensures Valid() && Started(index0, queue0, index, queue)
      ensures resolved == Insert(old(resolved), e.to, unit, artifact)
      ensures UnitsWoke(def, edges + [e], e.from, index, resolved)
    {
      FileUnit(e.to, unit, artifact);
      if e.to.stage !in index && Satisfied(def, index, resolved, e.to.stage) {
        ActivateStage(e.to.stage);
        StartedTwice(index0, queue0, old(index), old(queue), index, queue);
      }
      UnitWokeStep(def, edges, e, old(index), old(resolved), unit, artifact, index);
    }

    method FileUnit(to: Endpoint, unit: string, artifact: Artifact)
      requires Valid() && IsUnitComplete(def, to)
      modifies this`resolved
      ensures Valid() && resolved == Insert(old(resolved), to, unit, artifact)
    {
      ghost var s' := Now().(resolved := Insert(resolved, to, unit, artifact));
      UnitKeepsInv(def, Now(), to, unit, artifact, s');
      FilingHolds(def, Now(), queue, History(), {}, s');
      resolved := Insert(resolved, to, unit, artifact);
    }

    method DeliverUnitFrom(from: Endpoint, unit: string, artifact: Artifact)
      requires Valid()
      modifies this`resolved, this`index, this`queue, this`nextId, this`handles, this`launches
      ensures Valid() && Started(old(index), old(queue), index, queue)
      ensures resolved == DeliverUnits(def, def.edges, old(resolved), from, unit, artifact)
      ensures UnitsWoke(def, def.edges, from, index, resolved)
    {
      hide AllHold, Satisfied, Started;
      StartedNone(index, queue);
      for i := 0 to |def.edges|
        invariant Valid() && Started(old(index), old(queue), index, queue)
        invariant resolved == DeliverUnits(def, def.edges[..i], old(resolved), from, unit, artifact)
        invariant UnitsWoke(def, def.edges[..i], from, index, resolved)
      {
        var e := def.edges[i];
        assert def.edges[..i + 1][..i] == def.edges[..i];
        assert def.edges[..i + 1] == def.edges[..i] + [e];
        if e.from == from && IsUnitComplete(def, e.to) {
          DeliverUnit(e, unit, artifact, old(index), old(queue), def.edges[..i]);
        }
      }
      assert def.edges[..|def.edges|] == def.edges;
    }

    /** Early delivery of one finished unit, to unit_complete slots only. */
    method OnUnitCompleted(instance: InstanceId, unit: string, artifact: Artifact)
      requires Valid()
      modifies this`resolved, this`index, this`queue, this`nextId, this`handles, this`launches
      ensures Valid() && Started(old(index), old(queue), index, queue)
      ensures UnitHandled(def, old(index), old(resolved), instance, unit, artifact, index, resolved)
    {
      if p :| p in index && index[p].id == instance {
        if artifact.outputName.Some? {
          DeliverUnitFrom(Endpoint(p, artifact.outputName.value), unit, artifact);
        }
      }
    }

    method NotifyAlong(e: Edge, stage: StageKey, ghost index0: Index, ghost queue0: seq<Event>)
      requires Valid() && Started(index0, queue0, index, queue)
      modifies this`index, this`queue, this`nextId, this`handles, this`launches
      ensures Valid() && Started(index0, queue0, index, queue)
      ensures index.Keys == old(index).Keys + if IsExhausted(def, index0, stage, e) then {e.to.stage} else {}
    {
      GrownKeepsDone(def, index0, index, e.to);
      if IsExhausted(def, index, stage, e) && e.to.stage !in index {
        IncrementalSlot(def, e.to);
        ActivateStage(e.to.stage);
        StartedTwice(index0, queue0, old(index), old(queue), index, queue);
      }
    }

    /** Starts the consumers whose unit_complete slot will receive nothing more. */
    method NotifyExhaustion(stage: StageKey)
      requires Valid()
      modifies this`index, this`queue, this`nextId, this`handles, this`launches
      ensures Valid() && Started(old(index), old(queue), index, queue)
      ensures StartsExhausted(def, old(index), stage, def.edges, index)
    {
      hide AllHold;
      for i := 0 to |def.edges|
        invariant Valid() && Started(old(index), old(queue), index, queue)
        invariant StartsExhausted(def, old(index), stage, def.edges[..i], index)
      {
        ghost var before := index;
        NotifyAlong(def.edges[i], stage, old(index), old(queue));
        StartsExhaustedStep(def, old(index), stage, def.edges[..i], def.edges[i], before, index);
        assert def.edges[..i + 1] == def.edges[..i] + [def.edges[i]];
      }
      assert def.edges[..|def.edges|] == def.edges;
    }

    /** Writes a status; the handle of a stage that has ended goes with it. */
    method SetStatus(stage: StageKey, status: StageStatus)
      requires Valid() && stage in index && (status == Done ==> !AwaitsMoreUnits(def, index, stage))
      modifies this`index, this`done, this`handles
      ensures index == old(index)[stage := old(index)[stage].(status := status)]
      ensures handles == if status == Done || status == Failed then old(handles) - {index[stage].id} else old(handles)
      ensures AllHold(def, Now(), queue, History(), if status == Done then {stage} else {})
    {
      ghost var s := Now();
      index := index[stage := index[stage].(status := status)];
      done := if status == Done then done + {stage} else done;
      if status == Done || status == Failed {
        handles := handles - {index[stage].id};
      }
      StatusHolds(def, s, queue, History(), stage, status, Now());
    }

    /** Quiescence: the run ends when no stage in the index is pending, running or parked. */
    method Settle() returns (terminal: bool)
      modifies this`stopped, this`runStatus
      ensures terminal <==> index != map[] && !HasActive(index)
      ensures terminal <==>
              index != map[] && forall k :: k in index ==> index[k].status == Done || index[k].status == Failed
      ensures terminal ==> stopped && runStatus == FinalStatus(index)
      ensures terminal ==> (runStatus == RunFailed <==> exists k :: k in index && index[k].status == Failed)
      ensures terminal ==> (runStatus == RunDone <==> forall k :: k in index ==> index[k].status == Done)
      ensures !terminal ==> stopped == old(stopped) && runStatus == old(runStatus)
    {
      EndedIs(index);
      if HasActive(index) || index == map[] {
        return false;
      }
      runStatus, stopped := FinalStatus(index), true;
      return true;
    }

    /** A Done stage releases its outputs and the consumers waiting for its last unit. */
    method CompleteStage(stage: StageKey)
      requires AllHold(def, Now(), queue, History(), {stage}) && IsDone(index, stage)
      modifies this`resolved, this`index, this`queue, this`nextId, this`handles, this`launches
      ensures Valid() && Started(old(index), old(queue), index, queue)
      ensures Followed(def, old(index), old(resolved), rows, stage, index, resolved)
      ensures !IsDelegated(def, stage) ==> resolved == old(resolved)
    {
      hide AllHold;
      ReleaseOutputs(stage);
      ghost var before, queued := index, queue;
      NotifyExhaustion(stage);
      StartedTwice(old(index), old(queue), before, queued, index, queue);
      FollowedBy(def, old(Now()), stage, before, index, resolved);
    }

    method RecordStatus(stage: StageKey, status: StageStatus)
      requires Valid() && stage in index && (status == Done ==> !AwaitsMoreUnits(def, index, stage))
      modifies this`resolved, this`index, this`queue, this`nextId, this`handles, this`launches, this`done
      ensures Valid() && Queued(old(index), old(queue), index, queue)
      ensures StatusHandled(def, old(index), old(resolved), rows, old(index)[stage].id, status, index, resolved)
      ensures Plain(def) ==> resolved == old(resolved)
    {
      SetStatus(stage, status);
      ghost var written := index;
      if status == Done {
        CompleteStage(stage);
      }
      StatusHandledBy(def, old(Now()), stage, status, written, index, resolved);
    }

    method DropHandle(instance: InstanceId)
      requires Valid()
      modifies this`handles
      ensures Valid() && handles == old(handles) - {instance}
    {
      FewerHandlesHold(def, Now(), queue, History(), {}, Now().(handles := handles - {instance}));
      handles := handles - {instance};
    }

    method DeferDone(stage: StageKey)
      requires Valid() && stage in index && AwaitsMoreUnits(def, index, stage)
      modifies this`index, this`done, this`handles
      ensures Valid() && HasActive(index)
      ensures StatusHandled(def, old(index), resolved, rows, old(index)[stage].id, Done, index, resolved)
    {
      SetStatus(stage, Running);
      StatusDeferred(def, old(Now()), stage, index);
      assert IsActive(index[stage].status);
    }

    /** A Done that comes before the last unit input is put back to Running, and nothing else follows from it. */
    method ApplyStatus(instance: InstanceId, status: StageStatus) returns (deferred: bool)
      requires Valid()
      modifies this`resolved, this`index, this`queue, this`nextId, this`handles, this`launches, this`done
      ensures Valid() && (Plain(def) ==> resolved == old(resolved))
      ensures StatusHandled(def, old(index), old(resolved), rows, instance, status, index, resolved)
      ensures Queued(old(index), old(queue), index, queue)
      ensures deferred ==> HasActive(index)
    {
      if stage :| stage in index && index[stage].id == instance {
        deferred := status == Done && AwaitsMoreUnits(def, index, stage);
        if deferred {
          DeferDone(stage);
        } else {
          RecordStatus(stage, status);
        }
      } else {
        deferred := false;
        if status == Done || status == Failed {
          DropHandle(instance);
        }
      }
    }

    /** Returns whether the run is over. */
    method OnStatusChanged(instance: InstanceId, status: StageStatus) returns (terminal: bool)
      requires Valid()
      modifies this`resolved, this`index, this`queue, this`nextId, this`handles, this`launches, this`done
      modifies this`stopped, this`runStatus
      ensures Valid() && (Plain(def) ==> resolved == old(resolved))
      ensures StatusHandled(def, old(index), old(resolved), rows, instance, status, index, resolved)
      ensures Queued(old(index), old(queue), index, queue)
      ensures NoHandleLeft(index, handles)
      ensures terminal ==> stopped && runStatus == FinalStatus(index) && index != map[] && !HasActive(index)
      ensures !terminal ==> stopped == old(stopped) && runStatus == old(runStatus)
      ensures !terminal ==> HasActive(index) || index == map[]
    {
      hide AllHold, StatusHandled, NoHandleLeft;
      var deferred := ApplyStatus(instance, status);
      EndedHaveNoHandle(def, Now(), queue, History());
      if deferred {
        return false;
      }
      terminal := Settle();
    }

    /** Takes one event off the queue and does what it calls for. */
    method Dispatch()
      requires Valid() && InStep() && Awake(index, queue) && !stopped && queue != []
      modifies this
      ensures Valid() && InStep() && Drives(index, queue, stopped, runStatus)
      ensures old(queue)[0].StatusChanged? && !HasActive(index) ==> stopped
      ensures Handled(def, old(index), old(resolved), rows, old(queue)[0], index, resolved)
      ensures Queued(old(index), old(queue)[1..], index, queue)
      ensures rows == old(rows) && emitted == old(emitted)
      ensures processed == old(processed) + if old(queue)[0].ArtifactEmitted? then 1 else 0
    {
      hide AllHold;
      var e := queue[0];
      PopHolds(def, Now(), queue, History());
      if !e.StatusChanged? { PopKeepsAwake(index, queue); }
      queue := queue[1..];
      match e {
        case ArtifactEmitted(artifact, output) => HandleEmission(artifact, output);
        case UnitCompleted(instance, unit, artifact) => HandleUnit(instance, unit, artifact);
        case StatusChanged(instance, status) => HandleStatus(instance, status);
      }
    }

    /**
     One turn of the run loop: the run goes on only while something will still drive it. `completed` are the
     stages so far in the order of their accepted Dones.
     */
    method HandleNext(ghost completed: seq<StageKey>)
      requires Valid() && InStep() && Awake(index, queue) && !stopped && queue != []
      modifies this
      ensures Valid() && InStep() && Drives(index, queue, stopped, runStatus)
      ensures old(queue)[0].StatusChanged? && !HasActive(index) ==> stopped
      ensures Handled(def, old(index), old(resolved), rows, old(queue)[0], index, resolved)
      ensures OverlooksExactly(old(index), old(resolved), old(queue)[0])
      ensures Queued(old(index), old(queue)[1..], index, queue)
      ensures rows == old(rows) && emitted == old(emitted)
      ensures processed == old(processed) + if old(queue)[0].ArtifactEmitted? then 1 else 0
      ensures old(Accounted(def, index, resolved, rows, completed))
              ==> Accounted(def, index, resolved, rows, Completions(def, old(index), old(queue)[0], completed))
    {
      hide AllHold, Handled, Accounted, Completions, OverlooksExactly, IsLive, Drives;
      var e := queue[0];
      Dispatch();
      AllOverlookedAreMissed(old(Now()), old(queue), old(History()), e, completed);
    }

    /** Of the stages that were not overlooked, the event leaves exactly those overlooked that it misses. */
    ghost predicate OverlooksExactly(before: Index, r: Resolved, e: Event)
      reads this`index, this`resolved, this`rows
    {
      forall k :: !Overlooked(def, before, r, k)
                  ==> (Overlooked(def, index, resolved, k) <==> Misses(def, before, r, rows, e, k))
    }

    lemma AllOverlookedAreMissed(s: State, queue: seq<Event>, log: Log, e: Event, completed: seq<StageKey>)
      requires AllHold(def, s, queue, log, {}) && s.rows == rows
      requires Handled(def, s.index, s.resolved, rows, e, index, resolved)
      ensures OverlooksExactly(s.index, s.resolved, e)
      ensures Accounted(def, s.index, s.resolved, rows, completed)
              ==> Accounted(def, index, resolved, rows, Completions(def, s.index, e, completed))
    {
      hide Handled, Satisfied, Overlooked, Misses, Accounted;
      assert Distinct(s.index);
      forall k | !Overlooked(def, s.index, s.resolved, k)
        ensures Overlooked(def, index, resolved, k) <==> Misses(def, s.index, s.resolved, rows, e, k)
      {
        OverlookedIffMissed(def, s.index, s.resolved, rows, e, index, resolved, k);
      }
      if Accounted(def, s.index, s.resolved, rows, completed) {
        HandledKeepsAccounted(def, s.index, s.resolved, rows, completed, e, index, resolved);
      }
    }

    method HandleStatus(instance: InstanceId, status: StageStatus)
      requires Valid() && InStep() && index != map[] && !stopped
      modifies this`resolved, this`index, this`queue, this`nextId, this`handles, this`launches, this`done
      modifies this`stopped, this`runStatus
      ensures Valid() && InStep() && Drives(index, queue, stopped, runStatus) && (!HasActive(index) ==> stopped)
      ensures StatusHandled(def, old(index), old(resolved), rows, instance, status, index, resolved)
      ensures Queued(old(index), old(queue), index, queue)
    {
      hide AllHold;
      var terminal := OnStatusChanged(instance, status);
      ReindexedIsNotEmpty(def, old(index), instance, status, index);
    }

    method HandleEmission(artifact: Artifact, output: SlotName)
      requires IsNextEmission(index, ArtifactEmitted(artifact, output), History()) && InStep() && Awake(index, queue)
      requires AllHold(def, Now(), queue, History().(processed := processed + 1), {})
      modifies this`resolved, this`index, this`queue, this`nextId, this`handles, this`launches, this`processed
      ensures Valid() && InStep() && Awake(index, queue) && processed == old(processed) + 1
      ensures Queued(old(index), old(queue), index, queue)
      ensures EmissionHandled(def, old(index), old(resolved), artifact, output, index, resolved)
    {
      hide AllHold, IsLive;
      ghost var o := emitted[processed];
      assert IsDelegated(def, o.stage) ==> !Plain(def);
      processed := processed + 1;
      OnArtifactEmitted(artifact, output);
      StartedKeepsAwake(old(index), old(queue), index, queue);
      NextIsLive(def, old(resolved), emitted, old(processed), resolved);
    }

    method HandleUnit(instance: InstanceId, unit: string, artifact: Artifact)
      requires Valid() && InStep() && Awake(index, queue)
      modifies this`resolved, this`index, this`queue, this`nextId, this`handles, this`launches
      ensures Valid() && InStep() && Awake(index, queue)
      ensures Queued(old(index), old(queue), index, queue)
      ensures UnitHandled(def, old(index), old(resolved), instance, unit, artifact, index, resolved)
    {
      hide AllHold;
      OnUnitCompleted(instance, unit, artifact);
      StartedKeepsAwake(old(index), old(queue), index, queue);
      if Plain(def) && artifact.outputName.Some? {
        forall p | p in old(index) && old(index)[p].id == instance ensures resolved == old(resolved) {
          DeliverUnitsPlain(def, def.edges, old(resolved), Endpoint(p, artifact.outputName.value), unit, artifact);
        }
      }
    }

    // --- the start of a run ---

    /** A fresh run starts its source stages, and is driven from then on exactly if it has one. */
    method PrimeSourceStages()
      requires Valid() && InStep() && index == map[] && resolved == map[] && queue == []
      modifies this`index, this`queue, this`nextId, this`handles, this`launches
      ensures Valid() && InStep()
      ensures forall k :: k in index <==> IsSource(def, k)
      ensures forall k :: k in index ==> index[k].status == if fate(k) == Executed then Pending else Failed
      ensures Quiet(map[], [], index, queue)
      ensures forall k :: !Overlooked(def, index, resolved, k)
      ensures if exists k :: IsSource(def, k) then Awake(index, queue) else index == map[] && queue == []
    {
      hide AllHold;
      var sources := set k | k in def.stages && Satisfied(def, index, resolved, k);
      ActivateConsumers(sources);
      forall k ensures k in index <==> IsSource(def, k) {
        SourcesOfFreshRun(def, k);
      }
      forall k ensures !Overlooked(def, index, resolved, k) {
        GrownKeepsReadiness(def, map[], index, map[], k);
      }
      forall k | k in index ensures InputsFitSlots(def, resolved, k) {
        SourceInputsFit(def, k);
      }
    }

    // --- control messages ---

    /** An answer to a parked stage; the stored statuses and the fate of the resume call are arguments. */
    method OnDecision(stage: StageKey, instance: InstanceId, stored: StageStatus, resumed: bool,
                      storedAfter: StageStatus, swapped: bool)
      returns (ok: bool)
      requires Valid() && InStep() && Awake(index, queue)
      modifies this`index, this`done, this`handles
      ensures Valid() && InStep() && Awake(index, queue)
      ensures ok <==> && (stored == Parked || IsDelegated(def, stage))
                      && stage in old(index) && old(index)[stage].id == instance
                      && (old(index)[stage].status == Parked || IsDelegated(def, stage))
                      && instance in old(handles) && resumed
      ensures handles == old(handles)
      ensures index == if ok && storedAfter == Parked && !IsDelegated(def, stage) && swapped
                       then old(index)[stage := Entry(instance, Running)] else old(index)
    {
      hide AllHold;
      if stored != Parked && !IsDelegated(def, stage) {
        return false;
      }
      if stage !in index || index[stage].id != instance {
        return false;
      }
      if index[stage].status != Parked && !IsDelegated(def, stage) {
        return false;
      }
      if instance !in handles || !resumed {
        return false;
      }
      if storedAfter == Parked && !IsDelegated(def, stage) && swapped {
        SetStatus(stage, Running);
        assert IsActive(index[stage].status);
      }
      return true;
    }

    method ParkInstance(instance: InstanceId)
      requires Valid()
      modifies this`index, this`done, this`handles
      ensures handles == old(handles)
      ensures Valid() && Reindexed(def, old(index), instance, Parked, index) && index.Keys == old(index).Keys
    {
      if stage :| stage in index && index[stage].id == instance {
        SetStatus(stage, Parked);
        ReindexedBy(def, old(Now()), stage, Parked, index);
      }
    }

    /** Parks a stuck stage if its stored status was still Running (`parked`). */
    method OnParkStuck(instance: InstanceId, parked: bool) returns (terminal: bool)
      requires Valid() && InStep() && Awake(index, queue) && !stopped
      modifies this`index, this`done, this`handles, this`stopped, this`runStatus
      ensures Valid() && InStep() && stopped == terminal && Drives(index, queue, stopped, runStatus)
      ensures handles == old(handles) - {instance}
      ensures if parked then Reindexed(def, old(index), instance, Parked, index) else index == old(index) && !terminal
      ensures index.Keys == old(index).Keys
      ensures parked && (exists k :: k in old(index) && old(index)[k].id == instance) ==> !terminal
    {
      hide AllHold, Reindexed, HasActive, IsLive;
      DropHandle(instance);
      if !parked {
        return false;
      }
      ParkInstance(instance);
      ReindexedIsNotEmpty(def, old(index), instance, Parked, index);
      ParkedIsActive(def, old(index), instance, index);
      terminal := Settle();
    }

    /** Executes a stage parked as stuck again, with the inputs as they are now. */
    method OnRetryStuck(stage: StageKey, instance: InstanceId, stuck: bool, stored: bool, executed: bool)
      returns (ok: bool)
      requires Valid() && InStep() && Awake(index, queue)
      modifies this`index, this`done, this`handles, this`queue, this`launches
      ensures Valid() && InStep() && Awake(index, queue)
      ensures ok <==> && stuck && stored && stage in old(index) && old(index)[stage] == Entry(instance, Parked)
                      && InputsFitSlots(def, resolved, stage)
      ensures if ok then Reexecuted(old(index), stage, executed, index) else index == old(index) && queue == old(queue)
      ensures ok ==> (instance in handles <==> executed)
      ensures LaunchedFrom(def, stage, true, old(Now()).(handles := old(handles) - {instance}), old(launches), launches)
      ensures ok <==> launches != old(launches)
    {
      hide AllHold;
      if !stuck || stage !in index || index[stage] != Entry(instance, Parked) {
        return false;
      }
      DropHandle(instance);
      if !stored {
        return false;
      }
      ok := PrepareRetry(stage);
      if ok {
        Reexecute(stage, executed);
      }
    }

    method Reexecute(stage: StageKey, executed: bool)
      requires Valid() && stage in index && index[stage].id !in handles
      modifies this`index, this`done, this`handles, this`queue
      ensures Valid() && Awake(index, queue) && Reexecuted(old(index), stage, executed, index)
      ensures index[stage].id in handles <==> executed
    {
      hide AllHold;
      if executed {
        SetStatus(stage, Running);
        HandleHolds(def, Now(), queue, History(), stage, Now().(handles := handles + {index[stage].id}));
        handles := handles + {index[stage].id};
        assert IsActive(index[stage].status);
      } else {
        SetStatus(stage, Failed);
        Enqueue(StatusChanged(index[stage].id, Failed));
        assert queue[|queue| - 1].StatusChanged?;
      }
    }

    method PrepareRetry(stage: StageKey) returns (ok: bool)
      requires Valid() && stage in index
      modifies this`launches
      ensures Valid() && (ok <==> InputsFitSlots(def, resolved, stage)) && (ok <==> launches != old(launches))
      ensures LaunchedFrom(def, stage, true, Now(), old(launches), launches)
    {
      var inputs := PrepareInputs(def, resolved, stage, true, Now());
      ok := inputs.Some?;
      if ok {
        launches := launches + [Launch(stage, true, inputs.value, Now())];
        LaunchKeepsFed(def, stage, true, Now(), old(launches), launches);
      }
    }

    method OnCancel()
      requires Valid()
      modifies this`handles, this`runStatus, this`stopped
      ensures Valid() && handles == {} && runStatus == RunFailed && stopped
    {
      FewerHandlesHold(def, Now(), queue, History(), {}, Now().(handles := {}));
      handles, runStatus, stopped := {}, RunFailed, true;
    }

    // --- executors ---

    method Enqueue(e: Event)
      requires Valid() && !e.ArtifactEmitted?
      modifies this`queue
      ensures Valid() && queue == old(queue) + [e]
    {
      PushHolds(def, Now(), queue, History(), e);
      queue := queue + [e];
    }

    /** Any status, of any instance; any unit. */
    method Report(e: Event)
      requires Valid() && InStep() && Awake(index, queue) && !e.ArtifactEmitted?
      modifies this`queue
      ensures Valid() && InStep() && Awake(index, queue) && queue == old(queue) + [e]
    {
      Enqueue(e);
      LongerQueueKeepsAwake(index, old(queue), queue);
    }

    /** An artifact is stored and announced. An executor emits nothing once its stage is Done. */
    method Emit(stage: StageKey, a: Artifact)
      requires Valid() && InStep() && Awake(index, queue)
      requires stage in index && index[stage].id == a.instance && index[stage].status != Done && a.outputName.Some?
      modifies this`rows, this`queue, this`emitted
      ensures Valid() && InStep() && Awake(index, queue)
      ensures rows == old(rows) + [a] && queue == old(queue) + [ArtifactEmitted(a, a.outputName.value)]
    {
      hide AllHold, IsLive;
      var o := Output(stage, a, a.outputName.value);
      EmissionHolds(def, Now(), queue, History(), o);
      EmissionKeepsLive(def, resolved, emitted, processed, o);
      rows, queue, emitted := rows + [a], queue + [Announcement(o)], emitted + [o];
      LongerQueueKeepsAwake(index, old(queue), queue);
    }

    // --- a restart ---

    /** When every emission has been processed, rebuilding from the rows in any order gives the live map. */
    method Recover(stored: seq<Artifact>) returns (r: Resolved)
      requires Valid() && InStep() && Plain(def) && (forall to :: KeysApart(def, to)) && Emitted(queue) == []
      requires forall a :: a in stored <==> a in rows
      requires ClocksAdvance(rows)
      ensures r == resolved
    {
      var instances: Instances := map k | k in index :: index[k].id := k;
      assert emitted[..processed] == emitted;
      EmittedAreEmissions(def, Now(), emitted, instances);
      RowsAreEmitted(index, rows, emitted, stored);
      r := RecoverEqualsLive(def, instances, emitted, stored);
    }
  }
}
