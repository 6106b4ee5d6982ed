/** The dispatch_attempts table (kbbl/core/db/dispatch-attempts.ts) under its partial unique index. */
module DispatchAttempts {
  import opened Optional

  datatype EntityKind = SpecEntity | CohortEntity | BriefEntity | PlanEntity

  /** What a claim is for: one entity at one stage. */
  datatype Slot = Slot(kind: EntityKind, entityId: string, stage: string)
  datatype AttemptStatus = Dispatching | Running | DispatchFailed | AttemptSucceeded | AttemptCancelled
  datatype Attempt = Attempt(id: string, slot: Slot, number: nat, predecessor: Option<string>, status: AttemptStatus,
                             session: Option<string>)

  predicate Active(a: Attempt) {
    a.status == Dispatching || a.status == Running
  }

  /** How many of the first `n` rows belong to the slot. */
  ghost function Rank(rows: seq<Attempt>, slot: Slot, n: nat): nat
    requires n <= |rows|
  {
    if n == 0 then 0 else Rank(rows, slot, n - 1) + if rows[n - 1].slot == slot then 1 else 0
  }

  /** dispatch_attempts_active_claim, and the primary key. */
  ghost predicate Indexed(rows: seq<Attempt>) {
    forall i, j :: 0 <= i < j < |rows| ==>
      rows[i].id != rows[j].id && !(rows[i].slot == rows[j].slot && Active(rows[i]) && Active(rows[j]))
  }

  /** `a` is the next attempt of its slot after the first `n` rows and names the one before it. */
  ghost predicate LinkedTo(rows: seq<Attempt>, n: nat, a: Attempt)
    requires n <= |rows|
  {
    && a.number == Rank(rows, a.slot, n) + 1
    && if a.number == 1 then a.predecessor.None? else exists j :: 0 <= j < n && Precedes(rows[j], a)
  }

  predicate Precedes(b: Attempt, a: Attempt) {
    b.slot == a.slot && b.number == a.number - 1 && a.predecessor == Some(b.id)
  }

  ghost predicate Linked(rows: seq<Attempt>, i: nat)
    requires i < |rows|
  {
    LinkedTo(rows, i, rows[i])
  }

  ghost predicate Chained(rows: seq<Attempt>) {
    Indexed(rows) && forall i :: 0 <= i < |rows| ==> Linked(rows, i)
  }

  lemma {:induction false} RankExtends(rows: seq<Attempt>, more: seq<Attempt>, slot: Slot, n: nat)
    requires n <= |rows| <= |more| && forall i :: 0 <= i < n ==> more[i].slot == rows[i].slot
    ensures Rank(more, slot, n) == Rank(rows, slot, n)
  {
    if n > 0 {
      RankExtends(rows, more, slot, n - 1);
    }
  }

  /** A link depends only on the identity columns of the rows before it. */
  lemma LinkExtends(rows: seq<Attempt>, more: seq<Attempt>, n: nat, a: Attempt, b: Attempt)
    requires n <= |rows| <= |more| && LinkedTo(rows, n, a)
    requires forall i :: 0 <= i < n ==> SameIdentity(rows[i], more[i])
    requires SameIdentity(a, b)
    ensures LinkedTo(more, n, b)
  {
    RankExtends(rows, more, a.slot, n);
    if a.number != 1 {
      var j :| 0 <= j < n && Precedes(rows[j], a);
      assert SameIdentity(rows[j], more[j]) && Precedes(more[j], b);
    }
  }

  predicate SameIdentity(a: Attempt, b: Attempt) {
    a.id == b.id && a.slot == b.slot && a.number == b.number && a.predecessor == b.predecessor
  }

  /** The rows of a slot carry the numbers 1..n, each of them. */
  lemma {:induction false} NumbersAreExact(rows: seq<Attempt>, slot: Slot, n: nat, number: nat)
    requires Chained(rows) && n <= |rows|
    ensures 1 <= number <= Rank(rows, slot, n)
            <==> exists i :: 0 <= i < n && rows[i].slot == slot && rows[i].number == number
  {
    if n > 0 {
      NumbersAreExact(rows, slot, n - 1, number);
      assert Linked(rows, n - 1);
    }
  }

  /** ... and none of them twice. */
  lemma NumbersAreDistinct(rows: seq<Attempt>, i: nat, j: nat)
    requires Chained(rows) && i < j < |rows| && rows[i].slot == rows[j].slot
    ensures rows[i].number < rows[j].number
  {
    assert Linked(rows, i) && Linked(rows, j);
    RankGrows(rows, rows[i].slot, i + 1, j);
  }

  /** The first attempt of a slot has no predecessor; every other one names the attempt numbered one less. */
  lemma PredecessorIsPrevious(rows: seq<Attempt>, i: nat)
    requires Chained(rows) && i < |rows|
    ensures rows[i].number >= 1 && (rows[i].number == 1 <==> rows[i].predecessor.None?)
    ensures rows[i].number > 1 ==> exists j :: 0 <= j < i && rows[j].slot == rows[i].slot
                                               && rows[j].number == rows[i].number - 1
                                               && rows[i].predecessor == Some(rows[j].id)
  {
    assert Linked(rows, i);
    if rows[i].number > 1 {
      var j :| 0 <= j < i && Precedes(rows[j], rows[i]);
    }
  }

  /** Of two attempts of a slot at most one is being dispatched or running. */
  lemma OneAtATime(rows: seq<Attempt>, i: nat, j: nat)
    requires Chained(rows) && i < j < |rows| && rows[i].slot == rows[j].slot
    ensures !(rows[i].status in {Dispatching, Running} && rows[j].status in {Dispatching, Running})
  {
  }

  lemma {:induction false} RankGrows(rows: seq<Attempt>, slot: Slot, m: nat, n: nat)
    requires m <= n <= |rows|
    ensures Rank(rows, slot, m) <= Rank(rows, slot, n)
  {
    if m < n {
      RankGrows(rows, slot, m, n - 1);
    }
  }

  /** The rows differ at most in status and session, and no row becomes active. */
  ghost predicate Settles(rows: seq<Attempt>, after: seq<Attempt>) {
    |after| == |rows| && forall i :: 0 <= i < |rows| ==> SettlesRow(rows[i], after[i])
  }

  predicate SettlesRow(a: Attempt, b: Attempt) {
    b == a.(status := b.status, session := b.session) && (Active(b) ==> Active(a))
  }

  lemma SettlesKeepsChain(rows: seq<Attempt>, after: seq<Attempt>)
    requires Chained(rows) && Settles(rows, after)
    ensures Chained(after)
  {
    assert forall i :: 0 <= i < |rows| ==> SettlesRow(rows[i], after[i]) && SameIdentity(rows[i], after[i]);
    forall i | 0 <= i < |after| ensures Linked(after, i) {
      assert Linked(rows, i);
      LinkExtends(rows, after, i, rows[i], after[i]);
    }
    forall i, j | 0 <= i < j < |after|
      ensures after[i].id != after[j].id && !(after[i].slot == after[j].slot && Active(after[i]) && Active(after[j]))
    {
      assert SettlesRow(rows[i], after[i]) && SettlesRow(rows[j], after[j]);
    }
  }

  lemma AppendKeepsChain(rows: seq<Attempt>, a: Attempt)
    requires Chained(rows) && LinkedTo(rows, |rows|, a)
    requires forall i :: 0 <= i < |rows| ==> rows[i].id != a.id && !(rows[i].slot == a.slot && Active(rows[i]))
    ensures Chained(rows + [a])
  {
    var after := rows + [a];
    assert forall i :: 0 <= i < |rows| ==> after[i] == rows[i];
    forall i | 0 <= i < |after| ensures Linked(after, i) {
      assert i < |rows| ==> Linked(rows, i);
      LinkExtends(rows, after, i, after[i], after[i]);
    }
  }

  datatype ClaimResult = Claimed(attempt: Attempt) | Refused(active: Attempt) | Thrown

  class AttemptTable {
    var rows: seq<Attempt>

    ghost predicate Valid()
      reads this
    {
      Chained(rows)
    }

    constructor ()
      ensures Valid() && rows == []
    {
      rows := [];
    }

    /** The row of the slot with the highest attempt number. */
    method Latest(slot: Slot) returns (latest: Option<Attempt>)
      requires Valid()
      ensures latest.None? <==> Rank(rows, slot, |rows|) == 0
      ensures latest.Some? ==> latest.value in rows && latest.value.slot == slot
                               && latest.value.number == Rank(rows, slot, |rows|)
    {
      latest := None;
      for i := 0 to |rows|
        invariant latest.None? <==> Rank(rows, slot, i) == 0
        invariant latest.Some? ==> latest.value in rows && latest.value.slot == slot
                                   && latest.value.number == Rank(rows, slot, i)
      {
        assert Linked(rows, i);
        if rows[i].slot == slot && (latest.None? || latest.value.number < rows[i].number) {
          latest := Some(rows[i]);
        }
      }
    }

    method GetActive(slot: Slot) returns (active: Option<Attempt>)
      ensures active.Some? ==> active.value in rows && active.value.slot == slot && Active(active.value)
      ensures active.None? ==> forall a :: a in rows && a.slot == slot ==> !Active(a)
    {
      for i := 0 to |rows|
        invariant forall k :: 0 <= k < i && rows[k].slot == slot ==> !Active(rows[k])
      {
        if rows[i].slot == slot && Active(rows[i]) {
          return Some(rows[i]);
        }
      }
      return None;
    }

    /**
     The insert succeeds exactly when neither the id nor an active attempt of the slot is present.
     A refused claim changes nothing and returns the attempt that holds the slot.
     */
    method ClaimDispatch(id: string, slot: Slot) returns (result: ClaimResult)
      requires Valid()
      modifies this
      ensures Valid()
      ensures result.Claimed? <==> forall a :: a in old(rows) ==>
                a.id != id && (a.slot == slot ==> a.status != Dispatching && a.status != Running)
      ensures result.Claimed? ==>
                && rows == old(rows) + [result.attempt]
                && result.attempt.slot == slot && result.attempt.id == id && result.attempt.status == Dispatching
                && result.attempt.number == Rank(old(rows), slot, |old(rows)|) + 1 && result.attempt.session.None?
      ensures !result.Claimed? ==> rows == old(rows)
      ensures result.Refused? ==> result.active in rows && result.active.slot == slot && Active(result.active)
      ensures result.Thrown? ==> forall a :: a in rows && a.slot == slot ==> !Active(a)
    {
      var previous := Latest(slot);
      var number := if previous.Some? then previous.value.number + 1 else 1;
      var predecessor := if previous.Some? then Some(previous.value.id) else None;
      var attempt := Attempt(id, slot, number, predecessor, Dispatching, None);
      if exists a :: a in rows && (a.id == id || (a.slot == slot && Active(a))) {
        var active := GetActive(slot);
        return if active.Some? then Refused(active.value) else Thrown;
      }
      AppendKeepsChain(rows, attempt);
      rows := rows + [attempt];
      return Claimed(attempt);
    }

    /** Unconditional in the source; the unique index makes it throw when another attempt holds the slot. */
    method MarkRunning(id: string, session: string) returns (ok: bool)
      requires Valid()
      modifies this
      ensures Valid() && |rows| == |old(rows)|
      ensures !ok <==> exists i, k :: 0 <= i < |rows| && 0 <= k < |rows| && old(rows)[i].id == id && k != i
                                      && old(rows)[k].slot == old(rows)[i].slot && Active(old(rows)[k])
      ensures !ok ==> rows == old(rows)
      ensures ok ==> forall i :: 0 <= i < |rows| ==>
                rows[i] == if old(rows)[i].id == id then old(rows)[i].(status := Running, session := Some(session))
                           else old(rows)[i]
    {
      for i := 0 to |rows|
        invariant rows == old(rows) && forall k :: 0 <= k < i ==> rows[k].id != id
      {
        if rows[i].id == id {
          if exists k :: 0 <= k < |rows| && k != i && rows[k].slot == rows[i].slot && Active(rows[k]) {
            return false;
          }
          var after := rows[i := rows[i].(status := Running, session := Some(session))];
          RunningKeepsChain(rows, i, after);
          rows := after;
          return true;
        }
      }
      return true;
    }

    /** markAttemptFailed / markAttemptSucceeded: one row, whatever its status was. */
    method MarkFinished(id: string, status: AttemptStatus)
      requires Valid() && status in {DispatchFailed, AttemptSucceeded}
      modifies this
      ensures Valid() && |rows| == |old(rows)|
      ensures forall i :: 0 <= i < |rows| ==>
                rows[i] == if old(rows)[i].id == id then old(rows)[i].(status := status) else old(rows)[i]
    {
      rows := seq(|rows|, i requires 0 <= i < |rows| reads this =>
        if rows[i].id == id then rows[i].(status := status) else rows[i]);
      SettlesKeepsChain(old(rows), rows);
    }

    /** markRunningAttempt{Failed,Succeeded}BySessionRef: every running row of that session; returns one of them. */
    method MarkRunningFinishedBySession(session: string, status: AttemptStatus) returns (settled: Option<Attempt>)
      requires Valid() && status in {DispatchFailed, AttemptSucceeded}
      modifies this
      ensures Valid() && |rows| == |old(rows)|
      ensures forall i :: 0 <= i < |rows| ==>
                rows[i] == if old(rows)[i].session == Some(session) && old(rows)[i].status == Running
                           then old(rows)[i].(status := status) else old(rows)[i]
      ensures settled.None? <==> forall a :: a in old(rows) ==> !RunsFor(a, session)
      ensures settled.Some? ==> settled.value in rows && settled.value.session == Some(session)
                                && settled.value.status == status
    {
      settled := None;
      var after := rows;
      for i := 0 to |rows|
        invariant rows == old(rows) && |after| == |rows|
        invariant forall k :: 0 <= k < |rows| ==>
                    after[k] == if k < i && RunsFor(rows[k], session) then rows[k].(status := status) else rows[k]
        invariant settled.None? <==> forall k :: 0 <= k < i ==> !RunsFor(rows[k], session)
        invariant settled.Some? ==> settled.value in after[..i] && settled.value.session == Some(session)
                                    && settled.value.status == status
      {
        if RunsFor(rows[i], session) {
          after := after[i := rows[i].(status := status)];
          settled := if settled.None? then Some(after[i]) else settled;
        }
      }
      SettlesKeepsChain(rows, after);
      rows := after;
    }
  }

  predicate RunsFor(a: Attempt, session: string) {
    a.session == Some(session) && a.status == Running
  }

  lemma RunningKeepsChain(rows: seq<Attempt>, k: nat, after: seq<Attempt>)
    requires Chained(rows) && k < |rows|
    requires forall i :: 0 <= i < |rows| && i != k && rows[i].slot == rows[k].slot ==> !Active(rows[i])
    requires exists session :: after == rows[k := rows[k].(status := Running, session := Some(session))]
    ensures Chained(after)
  {
    assert forall i :: 0 <= i < |rows| ==> SameIdentity(rows[i], after[i]);
    forall i | 0 <= i < |after| ensures Linked(after, i) {
      assert Linked(rows, i);
      LinkExtends(rows, after, i, rows[i], after[i]);
    }
  }
}
