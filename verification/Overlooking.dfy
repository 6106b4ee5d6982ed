/**
 When the scheduler of a run leaves a ready stage unstarted (oakridge-core/src/scheduler.rs:643-721, 785-956).
 */
module Overlooking {
  import opened Optional
  import opened Workflow
  import opened Readiness
  import opened RunSteps

  /** Everything the stage requires is there, and it has not been started. */
  ghost predicate Overlooked(def: Def, index: Index, r: Resolved, k: StageKey) {
    k in def.stages && k !in index && Satisfied(def, index, r, k)
  }

  /** The completion of `p` is what `k` was still waiting for. */
  ghost predicate WaitsLastFor(def: Def, index: Index, r: Resolved, p: StageKey, k: StageKey)
    requires p in index
  {
    !Satisfied(def, index, r, k) && Satisfied(def, Completed(index, p), r, k)
  }

  /** The completed stage has an artifact for `k`, or was the last producer of one of its unit_complete slots. */
  ghost predicate Reached(def: Def, index: Index, rows: seq<Artifact>, p: StageKey, k: StageKey) {
    FedBy(def, index, rows, p, k) || ExhaustsInto(def, index, p, k)
  }

  /** The event is the accepted Done of a stage that `k` waited for last, and delivers nothing to `k`. */
  ghost predicate Misses(def: Def, index: Index, r: Resolved, rows: seq<Artifact>, e: Event, k: StageKey) {
    e.StatusChanged? && k !in index
    && exists p :: Accepts(def, index, e.instance, e.status, p) && WaitsLastFor(def, index, r, p, k)
                   && !Reached(def, Completed(index, p), rows, p, k)
  }

  // --- readiness depends on completed producers and on the stage's own slots ---

  ghost predicate SameSlots(r: Resolved, r': Resolved, k: StageKey) {
    forall name :: UnitsAt(r', Endpoint(k, name)) == UnitsAt(r, Endpoint(k, name))
  }

  lemma SameReadiness(def: Def, index: Index, r: Resolved, index': Index, r': Resolved, k: StageKey)
    requires Grown(index, index') && SameSlots(r, r', k)
    ensures Satisfied(def, index', r', k) <==> Satisfied(def, index, r, k)
  {
    GrownKeepsReadiness(def, index, index', r', k);
    assert forall slot: InputSlot :: SlotSatisfied(def, index, r', k, slot) <==> SlotSatisfied(def, index, r, k, slot);
  }

  lemma FewerDone(def: Def, index: Index, index': Index, r: Resolved, k: StageKey)
    requires forall p :: IsDone(index', p) ==> IsDone(index, p)
    requires Satisfied(def, index', r, k)
    ensures Satisfied(def, index, r, k)
  {
    forall slot | slot in def.stages[k].inputs && !slot.optional ensures SlotSatisfied(def, index, r, k, slot) {
      assert SlotSatisfied(def, index', r, k, slot);
    }
  }

  // --- what one event can do ---

  ghost predicate Distinct(index: Index) {
    forall j, k :: j in index && k in index && index[j].id == index[k].id ==> j == k
  }

  lemma EmissionOverlooksNone(def: Def, index: Index, r: Resolved, a: Artifact, output: SlotName,
                              index': Index, r': Resolved, k: StageKey)
    requires EmissionHandled(def, index, r, a, output, index', r') && !Overlooked(def, index, r, k)
    ensures !Overlooked(def, index', r', k)
  {
    if p :| p in index && index[p].id == a.instance && !IsDelegated(def, p) {
      var o := Output(p, a, output);
      if k in Consumers(def, def.edges, [o]) {
        GrownKeepsReadiness(def, index, index', r', k);
      } else {
        assert [o][..0] == [] && FileAll(def, r, [o]) == r';
        forall name ensures UnitsAt(r', Endpoint(k, name)) == UnitsAt(r, Endpoint(k, name)) {
          FilingElsewhere(def, r, [o], Endpoint(k, name));
        }
        SameReadiness(def, index, r, index', r', k);
      }
    }
  }

  ghost predicate TakesUnit(def: Def, edges: seq<Edge>, from: Endpoint, k: StageKey) {
    exists e :: e in edges && e.from == from && IsUnitComplete(def, e.to) && e.to.stage == k
  }

  lemma {:induction false} UnitsElsewhere(def: Def, edges: seq<Edge>, r: Resolved, from: Endpoint, unit: string,
                                          a: Artifact, to: Endpoint)
    requires !TakesUnit(def, edges, from, to.stage)
    ensures UnitsAt(DeliverUnits(def, edges, r, from, unit, a), to) == UnitsAt(r, to)
  {
    if edges != [] {
      var n := |edges| - 1;
      assert edges[n] in edges && forall e :: e in edges[..n] ==> e in edges;
      UnitsElsewhere(def, edges[..n], r, from, unit, a, to);
    }
  }

  lemma UnitOverlooksNone(def: Def, index: Index, r: Resolved, instance: InstanceId, unit: string, a: Artifact,
                          index': Index, r': Resolved, k: StageKey)
    requires UnitHandled(def, index, r, instance, unit, a, index', r') && !Overlooked(def, index, r, k)
    ensures !Overlooked(def, index', r', k)
  {
    if p :| p in index && index[p].id == instance && a.outputName.Some? {
      var from := Endpoint(p, a.outputName.value);
      if !TakesUnit(def, def.edges, from, k) {
        forall name ensures UnitsAt(r', Endpoint(k, name)) == UnitsAt(r, Endpoint(k, name)) {
          UnitsElsewhere(def, def.edges, r, from, unit, a, Endpoint(k, name));
        }
        SameReadiness(def, index, r, index', r', k);
      }
    }
  }

  /** An accepted Done starts a ready stage exactly if it reaches it. */
  lemma CompletionOverlooks(def: Def, index: Index, r: Resolved, rows: seq<Artifact>, p: StageKey,
                            index': Index, r': Resolved, k: StageKey)
    requires Followed(def, index, r, rows, p, index', r')
    ensures Overlooked(def, index', r', k)
            <==> k !in index && Satisfied(def, index, r, k) && !Reached(def, index, rows, p, k)
  {
    GrownKeepsReadiness(def, index, index', r', k);
    if !FedBy(def, index, rows, p, k) {
      assert forall name :: Endpoint(k, name).stage == k;
      SameReadiness(def, index, r, index', r', k);
    }
  }

  lemma OtherStatusOverlooksNone(def: Def, index: Index, r: Resolved, rows: seq<Artifact>, instance: InstanceId,
                                 status: StageStatus, index': Index, r': Resolved, k: StageKey)
    requires StatusHandled(def, index, r, rows, instance, status, index', r') && !Overlooked(def, index, r, k)
    requires forall p :: !Accepts(def, index, instance, status, p)
    ensures !Overlooked(def, index', r', k)
  {
    forall p | IsDone(index', p) ensures IsDone(index, p) {
      assert p in index && index'[p] == NextEntry(def, index, p, instance, status);
      assert !Accepts(def, index, instance, status, p);
    }
    if Satisfied(def, index', r', k) {
      FewerDone(def, index, index', r, k);
    }
  }

  /** A stage that was not overlooked becomes so exactly if the event misses it. */
  lemma OverlookedIffMissed(def: Def, index: Index, r: Resolved, rows: seq<Artifact>, e: Event,
                            index': Index, r': Resolved, k: StageKey)
    requires Distinct(index) && Handled(def, index, r, rows, e, index', r') && !Overlooked(def, index, r, k)
    ensures Overlooked(def, index', r', k) <==> Misses(def, index, r, rows, e, k)
  {
    match e
    case ArtifactEmitted(a, output) => EmissionOverlooksNone(def, index, r, a, output, index', r', k);
    case UnitCompleted(instance, unit, a) => UnitOverlooksNone(def, index, r, instance, unit, a, index', r', k);
    case StatusChanged(instance, status) =>
      if p :| Accepts(def, index, instance, status, p) {
        CompletionOverlooks(def, Completed(index, p), r, rows, p, index', r', k);
      } else {
        OtherStatusOverlooksNone(def, index, r, rows, instance, status, index', r', k);
      }
  }

  // --- who is to blame ---

  /** A required slot of `k` waits for `p` to complete. */
  ghost predicate AwaitsProducer(def: Def, p: StageKey, k: StageKey) {
    k in def.stages
    && exists slot :: slot in def.stages[k].inputs && !slot.optional && WaitsForCompletion(def, k, slot)
                      && p in Producers(def, Endpoint(k, slot.name))
  }

  /** The last wait is for the completion of a producer of a required slot. */
  lemma LastWaitIsForProducer(def: Def, index: Index, r: Resolved, p: StageKey, k: StageKey)
    requires p in index && WaitsLastFor(def, index, r, p, k)
    ensures AwaitsProducer(def, p, k) && !IsDone(index, p)
  {
    var slot :| slot in def.stages[k].inputs && !slot.optional && !SlotSatisfied(def, index, r, k, slot);
    var to := Endpoint(k, slot.name);
    assert SlotSatisfied(def, Completed(index, p), r, k, slot);
    var q :| q in Producers(def, to) && !IsDone(index, q);
    assert IsDone(Completed(index, p), q);
  }

  /** The stages in the order of their accepted Dones. */
  ghost function Completions(def: Def, index: Index, e: Event, completed: seq<StageKey>): seq<StageKey> {
    if e.StatusChanged? && exists p :: Accepts(def, index, e.instance, e.status, p)
    then var p :| Accepts(def, index, e.instance, e.status, p); completed + [p]
    else completed
  }

  /** Of the producers that required slots of `k` wait for, the one that completed last. */
  ghost function LastAwaited(def: Def, completed: seq<StageKey>, k: StageKey): Option<StageKey> {
    if completed == [] then None
    else if AwaitsProducer(def, completed[|completed| - 1], k) then Some(completed[|completed| - 1])
    else LastAwaited(def, completed[..|completed| - 1], k)
  }

  lemma LastAwaitedAppend(def: Def, completed: seq<StageKey>, p: StageKey, k: StageKey)
    ensures LastAwaited(def, completed + [p], k)
            == if AwaitsProducer(def, p, k) then Some(p) else LastAwaited(def, completed, k)
  {
    assert (completed + [p])[..|completed|] == completed;
  }

  ghost predicate IsToBlame(def: Def, index: Index, rows: seq<Artifact>, p: StageKey, k: StageKey) {
    IsDone(index, p) && AwaitsProducer(def, p, k) && !FedBy(def, index, rows, p, k)
  }

  ghost predicate LastIsToBlame(def: Def, index: Index, rows: seq<Artifact>, completed: seq<StageKey>, k: StageKey) {
    var last := LastAwaited(def, completed, k);
    last.Some? && IsToBlame(def, index, rows, last.value, k)
  }

  /** Whenever a stage is overlooked, the awaited producer that completed last had nothing for it. */
  ghost predicate Accounted(def: Def, index: Index, r: Resolved, rows: seq<Artifact>, completed: seq<StageKey>) {
    forall k :: Overlooked(def, index, r, k) ==> LastIsToBlame(def, index, rows, completed, k)
  }

  /** Of the producers a stage awaits, the one that completed last is delegated and has a row for the stage. */
  ghost predicate Serves(def: Def, index: Index, rows: seq<Artifact>, completed: seq<StageKey>) {
    forall k :: LastAwaited(def, completed, k).Some?
                ==> FedBy(def, index, rows, LastAwaited(def, completed, k).value, k)
  }

  lemma ServedRunOverlooksNone(def: Def, index: Index, r: Resolved, rows: seq<Artifact>, completed: seq<StageKey>,
                               k: StageKey)
    requires Accounted(def, index, r, rows, completed) && Serves(def, index, rows, completed)
    ensures !Overlooked(def, index, r, k)
  {
  }

  ghost predicate KeepsIds(index: Index, index': Index) {
    forall k :: k in index ==> k in index' && index'[k].id == index[k].id
  }

  /** A stage that is still overlooked can go on blaming the same producer. */
  lemma BlameStays(def: Def, index: Index, rows: seq<Artifact>, p: StageKey, index': Index, r': Resolved, k: StageKey)
    requires KeepsIds(index, index') && IsToBlame(def, index, rows, p, k) && Overlooked(def, index', r', k)
    ensures IsToBlame(def, index', rows, p, k)
  {
    var slot :| slot in def.stages[k].inputs && !slot.optional && WaitsForCompletion(def, k, slot)
                && p in Producers(def, Endpoint(k, slot.name));
    assert SlotSatisfied(def, index', r', k, slot);
    assert FedBy(def, index', rows, p, k) ==> FedBy(def, index, rows, p, k);
  }

  lemma HandledKeepsIds(def: Def, index: Index, r: Resolved, rows: seq<Artifact>, e: Event, index': Index, r': Resolved)
    requires Handled(def, index, r, rows, e, index', r')
    ensures KeepsIds(index, index')
  {
  }

  /** A completion of an awaited producer that leaves the stage overlooked had nothing for it. */
  lemma CompletionTakesBlame(def: Def, index: Index, r: Resolved, rows: seq<Artifact>, p: StageKey,
                             index': Index, r': Resolved, k: StageKey)
    requires p in index && Followed(def, Completed(index, p), r, rows, p, index', r')
    requires AwaitsProducer(def, p, k) && Overlooked(def, index', r', k)
    ensures IsToBlame(def, index', rows, p, k)
  {
    CompletionOverlooks(def, Completed(index, p), r, rows, p, index', r', k);
    assert IsToBlame(def, Completed(index, p), rows, p, k);
    BlameStays(def, Completed(index, p), rows, p, index', r', k);
  }

  /** An event that completes nobody the stage awaits cannot make it overlooked. */
  lemma OverlookedAlready(def: Def, index: Index, r: Resolved, rows: seq<Artifact>, e: Event,
                          index': Index, r': Resolved, k: StageKey)
    requires Distinct(index) && Handled(def, index, r, rows, e, index', r') && Overlooked(def, index', r', k)
    requires forall p :: e.StatusChanged? && Accepts(def, index, e.instance, e.status, p) ==> !AwaitsProducer(def, p, k)
    ensures Overlooked(def, index, r, k)
  {
    if !Overlooked(def, index, r, k) {
      OverlookedIffMissed(def, index, r, rows, e, index', r', k);
      var p :| Accepts(def, index, e.instance, e.status, p) && WaitsLastFor(def, index, r, p, k);
      LastWaitIsForProducer(def, index, r, p, k);
    }
  }

  lemma BlameKept(def: Def, index: Index, r: Resolved, rows: seq<Artifact>, completed: seq<StageKey>, e: Event,
                  index': Index, r': Resolved, k: StageKey)
    requires Distinct(index) && Handled(def, index, r, rows, e, index', r')
    requires Accounted(def, index, r, rows, completed) && Overlooked(def, index', r', k)
    ensures LastIsToBlame(def, index', rows, Completions(def, index, e, completed), k)
  {
    hide Overlooked, IsToBlame, AwaitsProducer, Followed;
    HandledKeepsIds(def, index, r, rows, e, index', r');
    if e.StatusChanged? && exists p :: Accepts(def, index, e.instance, e.status, p) {
      var p :| Accepts(def, index, e.instance, e.status, p);
      assert Completions(def, index, e, completed) == completed + [p];
      LastAwaitedAppend(def, completed, p, k);
      if AwaitsProducer(def, p, k) {
        CompletionTakesBlame(def, index, r, rows, p, index', r', k);
        return;
      }
    }
    OverlookedAlready(def, index, r, rows, e, index', r', k);
    BlameStays(def, index, rows, LastAwaited(def, completed, k).value, index', r', k);
  }

  lemma HandledKeepsAccounted(def: Def, index: Index, r: Resolved, rows: seq<Artifact>, completed: seq<StageKey>,
                              e: Event, index': Index, r': Resolved)
    requires Distinct(index) && Handled(def, index, r, rows, e, index', r')
    requires Accounted(def, index, r, rows, completed)
    ensures Accounted(def, index', r', rows, Completions(def, index, e, completed))
  {
    forall k | Overlooked(def, index', r', k)
      ensures LastIsToBlame(def, index', rows, Completions(def, index, e, completed), k)
    {
      BlameKept(def, index, r, rows, completed, e, index', r', k);
    }
  }

  /** Statuses other than Done, written to stages in the index, overlook nobody. */
  lemma StatusKeepsAccounted(def: Def, index: Index, r: Resolved, rows: seq<Artifact>, completed: seq<StageKey>,
                             index': Index)
    requires Accounted(def, index, r, rows, completed) && KeepsIds(index, index')
    requires forall p :: (p in index' ==> p in index) && (IsDone(index', p) ==> IsDone(index, p))
    ensures Accounted(def, index', r, rows, completed)
  {
    forall k | Overlooked(def, index', r, k) ensures LastIsToBlame(def, index', rows, completed, k) {
      FewerDone(def, index, index', r, k);
      assert Overlooked(def, index, r, k);
      BlameStays(def, index, rows, LastAwaited(def, completed, k).value, index', r, k);
    }
  }

  lemma RowKeepsAccounted(def: Def, index: Index, r: Resolved, rows: seq<Artifact>, completed: seq<StageKey>,
                          a: Artifact)
    requires Accounted(def, index, r, rows, completed)
    requires forall p :: IsDone(index, p) ==> index[p].id != a.instance
    ensures Accounted(def, index, r, rows + [a], completed)
  {
    forall k | Overlooked(def, index, r, k) ensures LastIsToBlame(def, index, rows + [a], completed, k) {
      var p := LastAwaited(def, completed, k).value;
      assert LastIsToBlame(def, index, rows, completed, k);
      assert FedBy(def, index, rows + [a], p, k) ==> FedBy(def, index, rows, p, k);
    }
  }
}
