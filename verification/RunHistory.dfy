/** Whole runs of the scheduler: any sequence of executor events and control messages. */
module RunHistory {
  import opened Workflow
  import opened Readiness
  import opened RunSteps
  import opened Overlooking
  import opened RunScheduler

  /** What may happen next; the arguments are what executors, operators and the database contribute. */
  datatype Message =
    | TakeEvent
    | Store(stage: StageKey, artifact: Artifact)
    | Announce(event: Event)
    | Decide(stage: StageKey, instance: InstanceId, stored: StageStatus, resumed: bool, storedAfter: StageStatus,
             swapped: bool)
    | ParkStuck(instance: InstanceId, parked: bool)
    | RetryStuck(stage: StageKey, instance: InstanceId, stuck: bool, swapped: bool, executed: bool)
    | Cancel

  /** The invariant of a run, and the promise that it never hangs silently. */
  ghost predicate Healthy(task: RunTask, cancelled: bool, completed: seq<StageKey>)
    reads task
  {
    && task.Valid() && task.InStep() && Accounted(task.def, task.index, task.resolved, task.rows, completed)
    && (if cancelled then task.stopped && task.runStatus == RunFailed
        else Drives(task.index, task.queue, task.stopped, task.runStatus))
  }

  method Control(task: RunTask, m: Message, ghost completed: seq<StageKey>)
    requires Healthy(task, false, completed) && !task.stopped && (m.Decide? || m.ParkStuck? || m.RetryStuck?)
    modifies task
    ensures Healthy(task, false, completed)
  {
    hide AllHold, IsLive, Accounted;
    match m {
      case Decide(stage, instance, stored, resumed, storedAfter, swapped) =>
        var _ := task.OnDecision(stage, instance, stored, resumed, storedAfter, swapped);
      case ParkStuck(instance, parked) =>
        var _ := task.OnParkStuck(instance, parked);
      case RetryStuck(stage, instance, stuck, swapped, executed) =>
        var _ := task.OnRetryStuck(stage, instance, stuck, swapped, executed);
    }
    StatusKeepsAccounted(task.def, old(task.index), task.resolved, task.rows, completed, task.index);
  }

  method Executor(task: RunTask, m: Message, ghost completed: seq<StageKey>)
    requires Healthy(task, false, completed) && !task.stopped && (m.Store? || m.Announce?)
    modifies task
    ensures Healthy(task, false, completed)
  {
    hide IsLive, Accounted;
    match m {
      case Store(stage, artifact) =>
        if stage in task.index && task.index[stage].id == artifact.instance && task.index[stage].status != Done
           && artifact.outputName.Some? {
          RowKeepsAccounted(task.def, task.index, task.resolved, task.rows, completed, artifact);
          task.Emit(stage, artifact);
        }
      case Announce(event) =>
        if !event.ArtifactEmitted? {
          task.Report(event);
        }
    }
  }

  /** One message; returns the accepted Dones so far. */
  method Apply(task: RunTask, m: Message, ghost completed: seq<StageKey>) returns (ghost completed': seq<StageKey>)
    requires Healthy(task, false, completed) && !task.stopped
    modifies task
    ensures Healthy(task, m.Cancel?, completed')
    ensures completed' == if m.TakeEvent? && old(task.queue) != []
                          then Completions(task.def, old(task.index), old(task.queue)[0], completed) else completed
  {
    hide AllHold, IsLive, Accounted, Completions;
    completed' := completed;
    if m.TakeEvent? {
      if task.queue != [] {
        completed' := Completions(task.def, task.index, task.queue[0], completed);
        task.HandleNext(completed);
      }
    } else if m.Cancel? {
      task.OnCancel();
    } else if m.Store? || m.Announce? {
      Executor(task, m, completed);
    } else {
      Control(task, m, completed);
    }
  }

  /**
   Every run of a graph with a source stage: after any messages an unfinished run has an unfinished stage
   or a queued status event, and a run that ended by itself has no unfinished stage. If, of the producers a
   stage awaits, the one that completed last always had something for it, no ready stage was overlooked.
   */
  method Drive(def: Def, fate: StageKey -> Fate, messages: seq<Message>)
    returns (task: RunTask, cancelled: bool, ghost completed: seq<StageKey>)
    requires exists k :: IsSource(def, k)
    ensures fresh(task) && task.def == def && Healthy(task, cancelled, completed)
    ensures !task.stopped ==>
              || (exists k :: k in task.index && task.index[k].status in {Pending, Running, Parked})
              || (exists i :: 0 <= i < |task.queue| && task.queue[i].StatusChanged?)
    ensures task.stopped && !cancelled ==>
              && (forall k :: k in task.index ==> task.index[k].status in {Done, Failed})
              && (task.runStatus == RunFailed <==> exists k :: k in task.index && task.index[k].status == Failed)
              && (task.runStatus == RunDone <==> forall k :: k in task.index ==> task.index[k].status == Done)
    ensures cancelled ==> task.stopped && task.runStatus == RunFailed
    ensures forall k :: k in task.index && task.index[k].status in {Done, Failed} ==> task.index[k].id !in task.handles
    ensures Serves(def, task.index, task.rows, completed) ==> forall k :: !Overlooked(def, task.index, task.resolved, k)
  {
    hide AllHold, IsLive, Accounted, Serves, Overlooked, Completions;
    task := new RunTask(def, fate);
    task.PrimeSourceStages();
    completed := [];
    FreshIsAccounted(def, task.index, task.resolved, task.rows);
    cancelled := false;
    for i := 0 to |messages|
      invariant fresh(task) && task.def == def && Healthy(task, cancelled, completed)
    {
      if task.stopped {
        break;
      }
      completed := Apply(task, messages[i], completed);
      cancelled := messages[i].Cancel?;
    }
    EndedIs(task.index);
    EndedHaveNoHandle(def, task.Now(), task.queue, task.History());
    if Serves(def, task.index, task.rows, completed) {
      forall k ensures !Overlooked(def, task.index, task.resolved, k) {
        ServedRunOverlooksNone(def, task.index, task.resolved, task.rows, completed, k);
      }
    }
  }

  lemma FreshIsAccounted(def: Def, index: Index, r: Resolved, rows: seq<Artifact>)
    requires forall k :: !Overlooked(def, index, r, k)
    ensures Accounted(def, index, r, rows, [])
  {
  }
}
