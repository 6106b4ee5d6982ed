/**
 The cohort state machine (kbbl/core/orchestrator/state-machine.ts) and the compare-and-set
 update that commits its transitions (kbbl/core/db/cohort-transitions.ts).
 */
module CohortLifecycle {
  import opened Optional

  datatype CohortStatus =
    | Waiting | Planned | Briefing | BriefReview | Building | ReadyToBuild | AwaitingMerge | Done | Blocked

  datatype CohortEvent =
    | DependenciesMet | BriefingStarted | BriefSubmitted | BriefReopened | BriefApproved | BriefRejected
    | BuildCompleted | PrMerged | Block | Unblock | PlanApproved | BriefApprovedDepsMet
    | BriefApprovedDepsPending | PrOpened

  /** COHORT_TRANSITIONS; `None` where the table has no entry. */
  function CohortTransitions(current: CohortStatus, event: CohortEvent): Option<CohortStatus> {
    match (current, event)
    case (Blocked, _) => None
    case (_, Block) => Some(Blocked)
    case (Waiting, DependenciesMet) => Some(Planned)
    case (Waiting, PlanApproved) => Some(Briefing)
    case (Planned, BriefingStarted) => Some(Briefing)
    case (Briefing, BriefSubmitted) => Some(BriefReview)
    case (BriefReview, BriefApproved) => Some(Building)
    case (BriefReview, BriefReopened) => Some(Briefing)
    case (BriefReview, BriefRejected) => Some(Briefing)
    case (BriefReview, BriefApprovedDepsMet) => Some(Building)
    case (BriefReview, BriefApprovedDepsPending) => Some(ReadyToBuild)
    case (Building, BuildCompleted) => Some(Done)
    case (Building, PrMerged) => Some(Done)
    case (Building, PrOpened) => Some(AwaitingMerge)
    case (ReadyToBuild, DependenciesMet) => Some(Building)
    case (AwaitingMerge, PrMerged) => Some(Done)
    case _ => None
  }

  function ApplyCohortTransition(current: CohortStatus, event: CohortEvent, preBlock: Option<CohortStatus>)
    : Option<CohortStatus>
  {
    if event == Unblock then
      if current == Blocked then preBlock else None
    else
      CohortTransitions(current, event)
  }

  /** The two columns the compare-and-set reads and writes. */
  datatype Row = Row(status: CohortStatus, preBlock: Option<CohortStatus>)

  /** What one accepted event writes over the row it was computed from. */
  function Next(row: Row, event: CohortEvent): Option<Row> {
    match ApplyCohortTransition(row.status, event, row.preBlock)
    case None => None
    case Some(next) =>
      if event == Block then Some(Row(Blocked, Some(row.status)))
      else if event == Unblock then Some(Row(next, None))
      else Some(row.(status := next))
  }

  // --- the same steps, event by event ---

  /** Which statuses an event takes a cohort from and to; blocking and unblocking apart. */
  ghost predicate MovesStatus(event: CohortEvent, from: CohortStatus, to: CohortStatus) {
    match event
    case PlanApproved => from == Waiting && to == Briefing
    case DependenciesMet => (from == Waiting && to == Planned) || (from == ReadyToBuild && to == Building)
    case BriefingStarted => from == Planned && to == Briefing
    case BriefSubmitted => from == Briefing && to == BriefReview
    case BriefReopened => from == BriefReview && to == Briefing
    case BriefRejected => from == BriefReview && to == Briefing
    case BriefApproved => from == BriefReview && to == Building
    case BriefApprovedDepsMet => from == BriefReview && to == Building
    case BriefApprovedDepsPending => from == BriefReview && to == ReadyToBuild
    case PrOpened => from == Building && to == AwaitingMerge
    case BuildCompleted => from == Building && to == Done
    case PrMerged => (from == Building || from == AwaitingMerge) && to == Done
    case Block => false
    case Unblock => false
  }

  /** A block remembers the status and an unblock restores it; any other event leaves the memory alone. */
  ghost predicate Moves(event: CohortEvent, before: Row, after: Row) {
    match event
    case Block => before.status != Blocked && after == Row(Blocked, Some(before.status))
    case Unblock => before.status == Blocked && before.preBlock.Some? && after == Row(before.preBlock.value, None)
    case _ => MovesStatus(event, before.status, after.status) && after.preBlock == before.preBlock
  }

  lemma TableIs(current: CohortStatus, event: CohortEvent, to: CohortStatus)
    ensures CohortTransitions(current, event) == Some(to)
            <==> MovesStatus(event, current, to) || (event == Block && current != Blocked && to == Blocked)
  {
  }

  /** The transition table and the columns written agree with the steps of every event. */
  lemma NextIsMove(row: Row, event: CohortEvent, after: Row)
    ensures Next(row, event) == Some(after) <==> Moves(event, row, after)
  {
    hide CohortTransitions;
    TableIs(row.status, event, after.status);
    TableIs(row.status, event, Blocked);
    var next := CohortTransitions(row.status, event);
    if next.Some? {
      TableIs(row.status, event, next.value);
    }
  }

  /** Every row version ever committed, and the event that led from each to the next. */
  datatype History = History(rows: seq<Row>, events: seq<CohortEvent>)

  /** Created `waiting`, then one accepted event per commit. */
  ghost predicate Legal(h: History) {
    && |h.rows| == |h.events| + 1 && h.rows[0] == Row(Waiting, None)
    && forall i :: 0 <= i < |h.events| ==> Moves(h.events[i], h.rows[i], h.rows[i + 1])
  }

  ghost function Commit(h: History, event: CohortEvent, row: Row): History {
    History(h.rows + [row], h.events + [event])
  }

  datatype TransitionResult =
    | Committed(before: CohortStatus, after: CohortStatus)
    | NotFound
    | InvalidTransition(current: CohortStatus)

  /** The cohorts table with, per cohort, its history. */
  class CohortTable<Id(==)> {
    var rows: map<Id, Row>
    ghost var committed: map<Id, History>

    ghost predicate Valid()
      reads this
    {
      && rows.Keys == committed.Keys
      && forall id :: id in rows ==> Legal(committed[id]) && rows[id] == committed[id].rows[|committed[id].events|]
    }

    constructor ()
      ensures Valid() && rows == map[]
    {
      rows, committed := map[], map[];
    }

    method Insert(id: Id)
      requires Valid() && id !in rows
      modifies this
      ensures Valid() && rows == old(rows)[id := Row(Waiting, None)]
      ensures committed == old(committed)[id := History([Row(Waiting, None)], [])]
    {
      rows := rows[id := Row(Waiting, None)];
      committed := committed[id := History([Row(Waiting, None)], [])];
    }

    /** The UPDATE statement proper: the stored row becomes `row` and the commit is recorded. */
    method Write(id: Id, ghost event: CohortEvent, row: Row)
      requires Valid() && id in rows && Moves(event, rows[id], row)
      modifies this
      ensures Valid() && rows == old(rows)[id := row]
      ensures committed == old(committed)[id := Commit(old(committed[id]), event, row)]
    {
      rows := rows[id := row];
      committed := committed[id := Commit(committed[id], event, row)];
    }

    /**
     `seen` is whatever row the caller read earlier, so any number of callers may hold stale rows.
     The event is committed exactly when the stored row still equals `seen` and the event can move it.
     */
    method TransitionFromRow(id: Id, seen: Row, event: CohortEvent) returns (result: TransitionResult)
      requires Valid()
      modifies this
      ensures Valid()
      ensures result.Committed? <==> id in old(rows) && old(rows[id]) == seen && exists row :: Moves(event, seen, row)
      ensures result.Committed? ==>
                && id in rows && Moves(event, seen, rows[id]) && rows == old(rows)[id := rows[id]]
                && committed == old(committed)[id := Commit(old(committed[id]), event, rows[id])]
                && result.before == seen.status && result.after == rows[id].status
      ensures !result.Committed? ==> rows == old(rows) && committed == old(committed)
      ensures result.NotFound? <==> id !in old(rows) && exists row :: Moves(event, seen, row)
      ensures result.InvalidTransition? ==>
                result.current == if exists row :: Moves(event, seen, row) then rows[id].status else seen.status
    {
      var next := ApplyCohortTransition(seen.status, event, seen.preBlock);
      NextIsTotal(seen, event);
      if next.None? {
        return InvalidTransition(seen.status);
      }
      var row :=
        if event == Block then Row(Blocked, Some(seen.status))
        else if event == Unblock then Row(next.value, None)
        else Row(next.value, seen.preBlock);
      NextIsMove(seen, event, row);
      if id in rows && rows[id].status == seen.status && rows[id].preBlock == seen.preBlock {
        Write(id, event, row);
        return Committed(seen.status, next.value);
      }
      if id !in rows {
        return NotFound;
      }
      return InvalidTransition(rows[id].status);
    }

    /** Reads the row and commits in one synchronous stretch: it never loses the compare-and-set. */
    method Transition(id: Id, event: CohortEvent) returns (result: TransitionResult)
      requires Valid()
      modifies this
      ensures Valid()
      ensures id !in old(rows) ==> result == NotFound && rows == old(rows)
      ensures id in old(rows) ==> (result.Committed? <==> exists row :: Moves(event, old(rows[id]), row))
      ensures result.Committed? ==>
                id in rows && Moves(event, old(rows[id]), rows[id]) && rows == old(rows)[id := rows[id]]
      ensures !result.Committed? ==> rows == old(rows)
    {
      if id !in rows {
        return NotFound;
      }
      result := TransitionFromRow(id, rows[id], event);
    }
  }

  lemma NextIsTotal(row: Row, event: CohortEvent)
    ensures ApplyCohortTransition(row.status, event, row.preBlock).Some? <==> exists after :: Moves(event, row, after)
  {
    var next := Next(row, event);
    if next.Some? {
      NextIsMove(row, event, next.value);
    } else {
      forall after ensures !Moves(event, row, after) {
        NextIsMove(row, event, after);
      }
    }
  }

  /** A cohort is blocked exactly while it remembers the status to restore, which is never `blocked`. */
  lemma {:induction false} BlockedIffSaved(h: History, k: nat)
    requires Legal(h) && k < |h.rows|
    ensures h.rows[k].status.Blocked? <==> h.rows[k].preBlock.Some?
    ensures h.rows[k].preBlock != Some(Blocked)
  {
    if k > 0 {
      BlockedIffSaved(h, k - 1);
      assert Moves(h.events[k - 1], h.rows[k - 1], h.rows[k]);
    }
  }

  /** The only commit that can follow a block restores the row as it was before the block. */
  lemma BlockThenNextRestores(h: History, k: nat)
    requires Legal(h) && k + 2 < |h.rows| && h.events[k] == Block
    ensures h.events[k + 1] == Unblock && h.rows[k + 2] == h.rows[k]
  {
    BlockedIffSaved(h, k);
    assert Moves(h.events[k], h.rows[k], h.rows[k + 1]);
    assert Moves(h.events[k + 1], h.rows[k + 1], h.rows[k + 2]);
  }

  /** The status a cohort has, looking through a block. */
  ghost function Effective(row: Row): CohortStatus {
    if row.status.Blocked? && row.preBlock.Some? then row.preBlock.value else row.status
  }

  /** The statuses that only an approved review leads to, and those that only a build leads to. */
  predicate PastReview(status: CohortStatus) {
    status == ReadyToBuild || status == Building || PastBuild(status)
  }

  predicate PastBuild(status: CohortStatus) {
    status == AwaitingMerge || status == Done
  }

  predicate IsApproval(event: CohortEvent) {
    event == BriefApproved || event == BriefApprovedDepsMet || event == BriefApprovedDepsPending
  }

  /** A step leads past the review only by approving it, and never back; past a build only from a build. */
  lemma MoveLeadsPast(event: CohortEvent, before: Row, after: Row)
    requires Moves(event, before, after) && (before.status.Blocked? <==> before.preBlock.Some?)
    ensures PastReview(Effective(after)) <==>
            PastReview(Effective(before)) || (before.status == BriefReview && IsApproval(event))
    ensures PastBuild(Effective(after)) ==> PastBuild(Effective(before)) || before.status == Building
  {
  }

  /** The review at `i` was approved, and since then the cohort has never been back before it. */
  ghost predicate ApprovedAt(h: History, i: nat, k: nat)
    requires Legal(h) && i < k < |h.rows|
  {
    && h.rows[i].status == BriefReview && IsApproval(h.events[i])
    && forall j :: i < j <= k ==> PastReview(Effective(h.rows[j]))
  }

  /** Whatever is ready to build, in build or built was approved in the last review before it. */
  lemma {:induction false} ApprovalBeforeBuild(h: History, k: nat)
    requires Legal(h) && k < |h.rows| && PastReview(Effective(h.rows[k]))
    ensures exists i :: 0 <= i < k && ApprovedAt(h, i, k)
  {
    if k > 0 {
      hide Moves, Effective;
      BlockedIffSaved(h, k - 1);
      assert Moves(h.events[k - 1], h.rows[k - 1], h.rows[k]);
      MoveLeadsPast(h.events[k - 1], h.rows[k - 1], h.rows[k]);
      if PastReview(Effective(h.rows[k - 1])) {
        ApprovalBeforeBuild(h, k - 1);
        var i :| 0 <= i < k - 1 && ApprovedAt(h, i, k - 1);
        assert ApprovedAt(h, i, k);
      } else {
        assert ApprovedAt(h, k - 1, k);
      }
    }
  }

  ghost predicate VisitedBefore(h: History, k: nat, first: CohortStatus, second: CohortStatus)
    requires k < |h.rows|
  {
    exists i, j :: 0 <= i < j < k && h.rows[i].status == first && h.rows[j].status == second
  }

  lemma {:induction false} ReviewThenBuild(h: History, k: nat)
    requires Legal(h) && k < |h.rows| && PastBuild(Effective(h.rows[k]))
    ensures VisitedBefore(h, k, BriefReview, Building)
  {
    if k > 0 {
      hide Moves;
      BlockedIffSaved(h, k - 1);
      assert Moves(h.events[k - 1], h.rows[k - 1], h.rows[k]);
      MoveLeadsPast(h.events[k - 1], h.rows[k - 1], h.rows[k]);
      if PastBuild(Effective(h.rows[k - 1])) {
        ReviewThenBuild(h, k - 1);
      } else {
        ApprovalBeforeBuild(h, k - 1);
        var i :| 0 <= i < k - 1 && ApprovedAt(h, i, k - 1);
      }
    }
  }

  /** Whatever the interleaving, `done` is committed only after a review and then a build. */
  lemma DoneOnlyAfterReviewAndBuild(h: History, k: nat)
    requires Legal(h) && k < |h.rows| && h.rows[k].status == Done
    ensures VisitedBefore(h, k, BriefReview, Building)
  {
    ReviewThenBuild(h, k);
  }
}
