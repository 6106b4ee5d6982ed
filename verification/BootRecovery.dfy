/**
 What a restart does to the durable state: the ACP boot sweep, then the reconciliation of dispatch
 attempts (kbbl/core/server.ts:218, 236), over whatever tables the crash left behind.
 */
module BootRecovery {
  import opened Optional
  import opened TurnLedger
  import opened DispatchAttempts

  datatype SessionStatus =
    | Provisioning | SessionIdle | SessionPrompting | SessionEnded | SessionFenced | SessionFailed | SessionUnknown

  type Sessions = map<string, SessionStatus>

  datatype DispatchStatus = StillRunning | Completed | NotCompleted

  /** The sessions half of the boot sweep. */
  function SweepSessions(sessions: Sessions): Sessions {
    map sid | sid in sessions ::
      if sessions[sid] == SessionPrompting then SessionIdle
      else if sessions[sid] == Provisioning then SessionFailed
      else sessions[sid]
  }

  /** A session that was being set up has failed; one that was prompting is idle again; no other is touched. */
  predicate SweptTo(before: SessionStatus, after: SessionStatus) {
    && (before == Provisioning ==> after == SessionFailed)
    && (before == SessionPrompting ==> after == SessionIdle)
    && (before != Provisioning && before != SessionPrompting ==> after == before)
  }

  /** `t` is the row getInitialTurn may return: an initial turn of the session with the least creation time. */
  ghost predicate IsInitialTurn(turns: Turns, sid: string, t: TurnId) {
    && t in turns && t.sid == sid && turns[t].source == Initial
    && forall u :: u in turns && u.sid == sid && turns[u].source == Initial ==> turns[t].createdAt <= turns[u].createdAt
  }

  ghost predicate InitialTurnIs(turns: Turns, sid: string, status: TurnStatus) {
    exists t :: IsInitialTurn(turns, sid, t) && turns[t].status == status
  }

  ghost predicate NoInitialTurn(turns: Turns, sid: string) {
    forall t :: t in turns && t.sid == sid ==> turns[t].source != Initial
  }

  method GetInitialTurn(turns: Turns, sid: string) returns (initial: Option<TurnId>)
    ensures initial.Some? ==> IsInitialTurn(turns, sid, initial.value)
    ensures initial.Some? ==> forall t :: t in turns && t.sid == sid && turns[t].source == Initial
                                          ==> turns[initial.value].createdAt <= turns[t].createdAt
    ensures initial.None? ==> NoInitialTurn(turns, sid)
  {
    initial := None;
    var rest := turns.Keys;
    while rest != {}
      invariant rest <= turns.Keys
      invariant initial.Some? ==>
                  initial.value in turns && initial.value.sid == sid && turns[initial.value].source == Initial
      invariant forall t :: t in turns && t !in rest && t.sid == sid && turns[t].source == Initial ==>
                              initial.Some? && turns[initial.value].createdAt <= turns[t].createdAt
      decreases rest
    {
      var t :| t in rest;
      rest := rest - {t};
      if t.sid == sid && turns[t].source == Initial
         && (initial.None? || turns[t].createdAt < turns[initial.value].createdAt) {
        initial := Some(t);
      }
    }
  }

  ghost predicate CanComplete(sessions: Sessions, turns: Turns, sid: string)
    requires sid in sessions
  {
    && sessions[sid] !in {SessionFailed, SessionFenced, SessionEnded}
    && (NoInitialTurn(turns, sid) || InitialTurnIs(turns, sid, Accepted) || InitialTurnIs(turns, sid, Prompting))
  }

  ghost predicate CannotComplete(sessions: Sessions, turns: Turns, sid: string)
    requires sid in sessions
  {
    || sessions[sid] == SessionFailed
    || (sessions[sid] in {SessionFenced, SessionEnded}
        && (NoInitialTurn(turns, sid) || exists s :: s != Succeeded && InitialTurnIs(turns, sid, s)))
    || InitialTurnIs(turns, sid, Failed) || InitialTurnIs(turns, sid, Unknown) || InitialTurnIs(turns, sid, Cancelled)
  }

  /**
   The settlement read: completion is the initial turn having succeeded in a session that did not fail,
   and `StillRunning` means that it can still succeed.
   */
  method GetDispatchStatus(sessions: Sessions, turns: Turns, sid: string) returns (status: Option<DispatchStatus>)
    ensures status.None? <==> sid !in sessions
    ensures status == Some(Completed) ==> sessions[sid] != SessionFailed && InitialTurnIs(turns, sid, Succeeded)
    ensures status == Some(StillRunning) ==> CanComplete(sessions, turns, sid)
    ensures status == Some(NotCompleted) ==> CannotComplete(sessions, turns, sid)
  {
    if sid !in sessions {
      return None;
    }
    if sessions[sid] == SessionFailed {
      return Some(NotCompleted);
    }
    var initial := GetInitialTurn(turns, sid);
    assert initial.Some? ==> InitialTurnIs(turns, sid, turns[initial.value].status);
    if (sessions[sid] == SessionFenced || sessions[sid] == SessionEnded)
       && (initial.None? || turns[initial.value].status != Succeeded) {
      return Some(NotCompleted);
    }
    if initial.None? {
      return Some(StillRunning);
    }
    match turns[initial.value].status {
      case Succeeded => return Some(Completed);
      case Failed => return Some(NotCompleted);
      case Unknown => return Some(NotCompleted);
      case Cancelled => return Some(NotCompleted);
      case Accepted => return Some(StillRunning);
      case Prompting => return Some(StillRunning);
    }
  }

  function SessionRef(a: Attempt): string {
    if a.session.Some? then a.session.value else "(none)"
  }

  /** What reconciliation may make of one row. */
  ghost predicate Reconciled(sessions: Sessions, turns: Turns, alive: set<string>, a: Attempt, b: Attempt) {
    if a.status == Dispatching then
      b == a.(status := DispatchFailed)
    else if a.status == Running then
      match b.status
      case Running =>
        b == a
        && if SessionRef(a) in sessions then CanComplete(sessions, turns, SessionRef(a)) else SessionRef(a) in alive
      case AttemptSucceeded =>
        && b == a.(status := AttemptSucceeded) && SessionRef(a) in sessions
        && InitialTurnIs(turns, SessionRef(a), Succeeded)
      case DispatchFailed =>
        && b == a.(status := DispatchFailed)
        && if SessionRef(a) in sessions then CannotComplete(sessions, turns, SessionRef(a)) else SessionRef(a) !in alive
      case _ => false
    else
      b == a
  }

  method SettleOne(a: Attempt, sessions: Sessions, turns: Turns, alive: set<string>) returns (b: Attempt)
    ensures Reconciled(sessions, turns, alive, a, b)
    ensures b.status == Running && a.session.Some? ==> a.session.value in sessions || a.session.value in alive
    ensures b.status == Running && a.session.None? ==> "(none)" in sessions || "(none)" in alive
  {
    b := a;
    if a.status == Dispatching {
      b := a.(status := DispatchFailed);
    } else if a.status == Running {
      var ref := SessionRef(a);
      var status := GetDispatchStatus(sessions, turns, ref);
      match status {
        case Some(Completed) => b := a.(status := AttemptSucceeded);
        case Some(NotCompleted) => b := a.(status := DispatchFailed);
        case Some(StillRunning) =>
        case None =>
          if ref !in alive {
            b := a.(status := DispatchFailed);
          }
      }
    }
  }

  /** `alive`: refs the legacy session manager knows and has not ended. */
  method ReconcileDispatchAttempts(table: AttemptTable, sessions: Sessions, turns: Turns, alive: set<string>)
    requires table.Valid()
    modifies table
    ensures table.Valid() && |table.rows| == |old(table.rows)|
    ensures forall i :: 0 <= i < |table.rows| ==>
              Reconciled(sessions, turns, alive, old(table.rows)[i], table.rows[i])
  {
    var rows := table.rows;
    for i := 0 to |rows|
      invariant |rows| == |table.rows| && table.rows == old(table.rows)
      invariant forall k :: 0 <= k < i ==> Reconciled(sessions, turns, alive, table.rows[k], rows[k])
      invariant forall k :: i <= k < |rows| ==> rows[k] == table.rows[k]
    {
      var settled := SettleOne(rows[i], sessions, turns, alive);
      rows := rows[i := settled];
    }
    forall i | 0 <= i < |rows| ensures SettlesRow(table.rows[i], rows[i]) {
      assert Reconciled(sessions, turns, alive, table.rows[i], rows[i]);
    }
    SettlesKeepsChain(table.rows, rows);
    table.rows := rows;
  }

  /**
   settleAttemptForEndedSession: while the service runs, the running attempts of an ended session are
   settled by its initial turn. Only they change, and they become succeeded only where that turn succeeded.
   */
  method SettleEndedSession(table: AttemptTable, sessions: Sessions, turns: Turns, sid: string)
    requires table.Valid()
    modifies table
    ensures table.Valid() && |table.rows| == |old(table.rows)|
    ensures forall i :: 0 <= i < |table.rows| ==> SettledAtEnd(sessions, turns, sid, old(table.rows)[i], table.rows[i])
  {
    var outcome := GetDispatchStatus(sessions, turns, sid);
    match outcome {
      case Some(Completed) => var _ := table.MarkRunningFinishedBySession(sid, AttemptSucceeded);
      case Some(NotCompleted) => var _ := table.MarkRunningFinishedBySession(sid, DispatchFailed);
      case _ =>
    }
  }

  ghost predicate SettledAtEnd(sessions: Sessions, turns: Turns, sid: string, a: Attempt, b: Attempt) {
    if b == a then
      RunsFor(a, sid) && sid in sessions ==> CanComplete(sessions, turns, sid)
    else
      && RunsFor(a, sid) && sid in sessions && b == a.(status := b.status)
      && match b.status
         case AttemptSucceeded => sessions[sid] != SessionFailed && InitialTurnIs(turns, sid, Succeeded)
         case DispatchFailed => CannotComplete(sessions, turns, sid)
         case _ => false
  }

  /**
   The boot composition: after any crash no attempt is left `dispatching`; every attempt still `running`
   names a live legacy session, or an ACP session that is neither ended, fenced nor failed and whose
   initial turn is absent or `accepted`; and an attempt is recorded as succeeded only where it was
   already, or where the initial turn of its session succeeded.
   */
  method Restart(ghost crashed: World, store: TurnStore, table: AttemptTable, sessions: Sessions, alive: set<string>)
    returns (swept: Sessions)
    requires !crashed.up && store.turns == crashed.turns && table.Valid()
    modifies store, table
    ensures store.turns == Step(crashed, Boot).turns
    ensures swept == SweepSessions(sessions) && swept.Keys == sessions.Keys
    ensures forall sid :: sid in sessions ==> SweptTo(sessions[sid], swept[sid])
    ensures store.turns.Keys == old(store.turns).Keys
    ensures forall t :: t in store.turns ==>
              store.turns[t] == if old(store.turns)[t].status == Prompting then old(store.turns)[t].(status := Unknown)
                                else old(store.turns)[t]
    ensures table.Valid() && |table.rows| == |old(table.rows)|
    ensures forall i :: 0 <= i < |table.rows| ==>
              SettledAtBoot(swept, store.turns, alive, old(table.rows)[i], table.rows[i])
  {
    var _, _ := store.BootSweep(crashed);
    swept := SweepSessions(sessions);
    ReconcileDispatchAttempts(table, swept, store.turns, alive);
    forall i | 0 <= i < |table.rows|
      ensures SettledAtBoot(swept, store.turns, alive, old(table.rows)[i], table.rows[i])
    {
      BootLeavesNothingUnsettled(swept, store.turns, alive, old(table.rows)[i], table.rows[i]);
    }
  }

  ghost predicate SettledAtBoot(sessions: Sessions, turns: Turns, alive: set<string>, a: Attempt, b: Attempt) {
    && b == a.(status := b.status)
    && b.status != Dispatching
    && (b.status == Running ==>
          var ref := SessionRef(b);
          if ref !in sessions then ref in alive else
            && sessions[ref] !in {SessionFailed, SessionFenced, SessionEnded}
            && (NoInitialTurn(turns, ref) || InitialTurnIs(turns, ref, Accepted)))
    && (b.status == AttemptSucceeded ==> a.status == AttemptSucceeded || InitialTurnIs(turns, SessionRef(b), Succeeded))
    && (!Active(a) ==> b == a)
  }

  lemma BootLeavesNothingUnsettled(sessions: Sessions, turns: Turns, alive: set<string>, a: Attempt, b: Attempt)
    requires Reconciled(sessions, turns, alive, a, b) && WithStatus(turns, Prompting) == {}
    ensures SettledAtBoot(sessions, turns, alive, a, b)
  {
    if InitialTurnIs(turns, SessionRef(a), Prompting) {
      var t :| IsInitialTurn(turns, SessionRef(a), t) && turns[t].status == Prompting;
      assert t in WithStatus(turns, Prompting);
    }
  }
}
