/** The sequenced event bus (oakridge-core/src/events.rs): bounded rings over one global sequence. */
module EventBus {
  const RING_CAP: nat := 1024

  datatype RunId = RunId(uuid: string)
  datatype SeqEvent<E> = SeqEvent(number: nat, event: E)
  datatype Publication<E> = Publication(run: RunId, entry: SeqEvent<E>)
  datatype Scope = Global | OfRun(run: RunId)

  /** Every publication in scope, oldest first: what a ring would hold if it were unbounded. */
  function InScope<E>(history: seq<Publication<E>>, scope: Scope): seq<SeqEvent<E>> {
    if history == [] then [] else
      var k := |history| - 1;
      InScope(history[..k], scope)
      + if scope == Global || scope == OfRun(history[k].run) then [history[k].entry] else []
  }

  function Newer<E>(events: seq<SeqEvent<E>>, since: nat): seq<SeqEvent<E>> {
    if events == [] then [] else
      (if events[0].number > since then [events[0]] else []) + Newer(events[1..], since)
  }

  /** Events after `since` and whether `since` precedes the oldest retained one. */
  function DrainRing<E>(ring: seq<SeqEvent<E>>, since: nat): (seq<SeqEvent<E>>, bool) {
    if ring == [] then ([], false) else (Newer(ring, since), since < ring[0].number)
  }

  ghost predicate Increasing<E>(events: seq<SeqEvent<E>>) {
    forall i, j :: 0 <= i < j < |events| ==> events[i].number < events[j].number
  }

  /** `ring` is the newest part of `all`, within the capacity. */
  ghost predicate Retains<E>(ring: seq<SeqEvent<E>>, all: seq<SeqEvent<E>>) {
    |ring| <= RING_CAP && |ring| <= |all| && ring == all[|all| - |ring|..]
  }

  /** The sequence numbers are 1, 2, 3, ... over the whole bus. */
  ghost predicate Numbered<E>(history: seq<Publication<E>>) {
    forall i :: 0 <= i < |history| ==> history[i].entry.number == i + 1
  }

  lemma {:induction false} InScopeIncreases<E>(history: seq<Publication<E>>, scope: Scope)
    requires Numbered(history)
    ensures Increasing(InScope(history, scope))
    ensures forall e :: e in InScope(history, scope) ==> 1 <= e.number <= |history|
    ensures scope == Global ==> |InScope(history, scope)| == |history|
  {
    if history != [] {
      InScopeIncreases(history[..|history| - 1], scope);
    }
  }

  /** A scope holds the publications of its run, or all of them. */
  lemma {:induction false} InScopeMembers<E>(history: seq<Publication<E>>, scope: Scope, e: SeqEvent<E>)
    ensures e in InScope(history, scope)
            <==> exists i :: 0 <= i < |history| && history[i].entry == e
                             && (scope.OfRun? ==> history[i].run == scope.run)
  {
    if history != [] {
      var k := |history| - 1;
      InScopeMembers(history[..k], scope, e);
      assert history == history[..k] + [history[k]];
    }
  }

  lemma {:induction false} GlobalIsHistory<E>(history: seq<Publication<E>>)
    ensures |InScope(history, Global)| == |history|
    ensures forall i :: 0 <= i < |history| ==> InScope(history, Global)[i] == history[i].entry
  {
    if history != [] {
      GlobalIsHistory(history[..|history| - 1]);
    }
  }

  /** The global ring never skips a number. */
  lemma GlobalRingIsConsecutive<E>(history: seq<Publication<E>>, ring: seq<SeqEvent<E>>)
    requires Numbered(history) && Retains(ring, InScope(history, Global))
    ensures forall i :: 0 <= i < |ring| ==> ring[i].number == |history| - |ring| + i + 1
  {
    GlobalIsHistory(history);
  }

  lemma {:induction false} NewerSkips<E>(all: seq<SeqEvent<E>>, since: nat, k: nat)
    requires k <= |all| && forall i :: 0 <= i < k ==> all[i].number <= since
    ensures Newer(all, since) == Newer(all[k..], since)
  {
    if k > 0 {
      NewerSkips(all[1..], since, k - 1);
      assert all[1..][k - 1..] == all[k..];
    }
  }

  lemma {:induction false} NewerKeepsAll<E>(events: seq<SeqEvent<E>>, since: nat)
    requires forall i :: 0 <= i < |events| ==> since < events[i].number
    ensures Newer(events, since) == events
  {
    if events != [] {
      NewerKeepsAll(events[1..], since);
    }
  }

  /** `Newer` keeps exactly the later events ... */
  lemma {:induction false} NewerMembers<E>(all: seq<SeqEvent<E>>, since: nat, e: SeqEvent<E>)
    ensures e in Newer(all, since) <==> e in all && e.number > since
  {
    if all != [] {
      NewerMembers(all[1..], since, e);
      assert all == [all[0]] + all[1..];
    }
  }

  /** ... in order; the two together determine it. */
  lemma {:induction false} NewerIncreases<E>(all: seq<SeqEvent<E>>, since: nat)
    requires Increasing(all)
    ensures Increasing(Newer(all, since))
  {
    if all != [] {
      var tail := Newer(all[1..], since);
      NewerIncreases(all[1..], since);
      forall i | 0 <= i < |tail| ensures all[0].number < tail[i].number {
        NewerMembers(all[1..], since, tail[i]);
      }
    }
  }

  function PushBounded<E>(ring: seq<SeqEvent<E>>, e: SeqEvent<E>): seq<SeqEvent<E>> {
    (if |ring| >= RING_CAP then ring[1..] else ring) + [e]
  }

  /** The entry comes last; the first is given up only when there were 1024 before it. */
  ghost predicate KeepsNewest<E>(before: seq<SeqEvent<E>>, e: SeqEvent<E>, after: seq<SeqEvent<E>>) {
    if |before| < 1024 then after == before + [e] else after == before[1..] + [e]
  }

  lemma PushRetains<E>(ring: seq<SeqEvent<E>>, all: seq<SeqEvent<E>>, e: SeqEvent<E>)
    requires Retains(ring, all)
    ensures Retains(PushBounded(ring, e), all + [e])
  {
  }

  lemma InScopeAppend<E>(history: seq<Publication<E>>, p: Publication<E>, scope: Scope)
    ensures InScope(history + [p], scope)
            == InScope(history, scope) + if scope == Global || scope == OfRun(p.run) then [p.entry] else []
  {
    assert (history + [p])[..|history|] == history;
  }

  lemma FirstIsLeast<E>(ring: seq<SeqEvent<E>>, all: seq<SeqEvent<E>>)
    requires Retains(ring, all) && Increasing(all) && ring != []
    ensures forall e :: e in ring ==> ring[0].number <= e.number
    ensures ring[0] in all
  {
    var k := |all| - |ring|;
    assert forall i :: 0 <= i < |ring| ==> ring[i] == all[k + i];
  }

  /**
   Without a gap, draining the ring is as good as draining everything ever published in scope;
   with a gap, everything retained is returned.
   */
  lemma DrainIsComplete<E>(ring: seq<SeqEvent<E>>, all: seq<SeqEvent<E>>, since: nat)
    requires Retains(ring, all) && Increasing(all) && ring != []
    ensures DrainRing(ring, since).0 == if DrainRing(ring, since).1 then ring else Newer(all, since)
  {
    var k := |all| - |ring|;
    assert ring[0] == all[k];
    if since < ring[0].number {
      FirstIsLeast(ring, all);
      NewerKeepsAll(ring, since);
    } else {
      NewerSkips(all, since, k);
    }
  }

  lemma {:induction false} NewerSplits<E>(a: seq<SeqEvent<E>>, b: seq<SeqEvent<E>>, since: nat)
    ensures Newer(a + b, since) == Newer(a, since) + Newer(b, since)
  {
    if a == [] {
      assert a + b == b;
    } else {
      assert (a + b)[1..] == a[1..] + b;
      NewerSplits(a[1..], b, since);
    }
  }

  /** No event of the scope that the ring has dropped is newer than `since`. */
  ghost predicate NothingLost<E>(ring: seq<SeqEvent<E>>, all: seq<SeqEvent<E>>, since: nat)
    requires ring != []
  {
    forall e :: e in all && e.number < ring[0].number ==> e.number <= since
  }

  lemma {:induction false} NewerIsEmptyIff<E>(events: seq<SeqEvent<E>>, since: nat)
    ensures Newer(events, since) == [] <==> forall e :: e in events ==> e.number <= since
  {
    if events != [] {
      assert events == [events[0]] + events[1..];
      NewerIsEmptyIff(events[1..], since);
    }
  }

  /** What the ring has dropped is what precedes its first event. */
  lemma DroppedAreOlder<E>(ring: seq<SeqEvent<E>>, all: seq<SeqEvent<E>>, e: SeqEvent<E>)
    requires Retains(ring, all) && Increasing(all) && ring != []
    ensures e in all[..|all| - |ring|] <==> e in all && e.number < ring[0].number
  {
    var k := |all| - |ring|;
    assert ring[0] == all[k];
    if e in all && e.number < ring[0].number {
      var i :| 0 <= i < |all| && all[i] == e;
      assert i < k && all[..k][i] == e;
    }
  }

  /** What is retained is all there is after `since` exactly if nothing newer was dropped. */
  lemma RingSufficesIffNothingLost<E>(ring: seq<SeqEvent<E>>, all: seq<SeqEvent<E>>, since: nat)
    requires Retains(ring, all) && Increasing(all) && ring != [] && since < ring[0].number
    ensures ring == Newer(all, since) <==> NothingLost(ring, all, since)
  {
    hide Newer, Increasing;
    var dropped := all[..|all| - |ring|];
    NewerSplits(dropped, ring, since);
    assert all == dropped + ring;
    FirstIsLeast(ring, all);
    NewerKeepsAll(ring, since);
    NewerIsEmptyIff(dropped, since);
    forall e ensures e in dropped <==> e in all && e.number < ring[0].number {
      DroppedAreOlder(ring, all, e);
    }
    var older := Newer(dropped, since);
    assert ring == older + ring <==> older == [] by {
      assert |older + ring| == |older| + |ring|;
    }
  }

  /** Every run ring that exists is nonempty and holds the newest events of its run. */
  ghost predicate RunRings<E>(rings: map<RunId, seq<SeqEvent<E>>>, history: seq<Publication<E>>) {
    forall run :: run in rings ==> rings[run] != [] && Retains(rings[run], InScope(history, OfRun(run)))
  }

  /** One run's ring, or none yet, when an event of this or another run is published. */
  lemma RingAfterPublish<E>(ring: seq<SeqEvent<E>>, history: seq<Publication<E>>, p: Publication<E>, run: RunId)
    requires ring == [] || Retains(ring, InScope(history, OfRun(run)))
    ensures run == p.run ==> Retains(PushBounded(ring, p.entry), InScope(history + [p], OfRun(run)))
    ensures run != p.run && ring != [] ==> Retains(ring, InScope(history + [p], OfRun(run)))
  {
    hide InScope;
    var all := InScope(history, OfRun(run));
    InScopeAppend(history, p, OfRun(run));
    if run == p.run {
      assert ring == [] ==> all[|all|..] == ring;
      PushRetains(ring, all, p.entry);
    } else {
      assert all + [] == all;
    }
  }

  lemma PublishKeepsRunRings<E>(rings: map<RunId, seq<SeqEvent<E>>>, history: seq<Publication<E>>, p: Publication<E>)
    requires RunRings(rings, history)
    ensures var ring := if p.run in rings then rings[p.run] else [];
            RunRings(rings[p.run := PushBounded(ring, p.entry)], history + [p])
  {
    hide InScope, Retains;
    var ring := if p.run in rings then rings[p.run] else [];
    var after := rings[p.run := PushBounded(ring, p.entry)];
    forall run | run in after ensures after[run] != [] && Retains(after[run], InScope(history + [p], OfRun(run))) {
      RingAfterPublish(if run == p.run then ring else rings[run], history, p, run);
    }
  }

  ghost predicate Consistent<E>(next: nat, globalRing: seq<SeqEvent<E>>, rings: map<RunId, seq<SeqEvent<E>>>,
                                history: seq<Publication<E>>)
  {
    && next == |history| + 1 && Numbered(history)
    && Retains(globalRing, InScope(history, Global))
    && |globalRing| == (if |history| < 1024 then |history| else 1024)
    && RunRings(rings, history)
  }

  lemma PublishKeepsConsistent<E>(next: nat, globalRing: seq<SeqEvent<E>>, rings: map<RunId, seq<SeqEvent<E>>>,
                                  history: seq<Publication<E>>, p: Publication<E>)
    requires Consistent(next, globalRing, rings, history) && p.entry.number == next
    ensures var ring := if p.run in rings then rings[p.run] else [];
            Consistent(next + 1, PushBounded(globalRing, p.entry), rings[p.run := PushBounded(ring, p.entry)],
                       history + [p])
  {
    hide InScope, Retains, RunRings;
    GlobalIsHistory(history);
    InScopeAppend(history, p, Global);
    PushRetains(globalRing, InScope(history, Global), p.entry);
    PublishKeepsRunRings(rings, history, p);
  }

  /** The ring a scope is read from. */
  lemma ScopeRing<E>(next: nat, globalRing: seq<SeqEvent<E>>, rings: map<RunId, seq<SeqEvent<E>>>,
                     history: seq<Publication<E>>, scope: Scope, ring: seq<SeqEvent<E>>)
    requires Consistent(next, globalRing, rings, history)
    requires ring == match scope case Global => globalRing case OfRun(run) => if run in rings then rings[run] else []
    ensures Increasing(InScope(history, scope)) && (ring != [] ==> Retains(ring, InScope(history, scope)))
    ensures scope.OfRun? && scope.run in rings ==> ring != []
    ensures scope == Global && |history| <= 1024 ==> ring == InScope(history, Global)
    ensures scope == Global && ring == [] ==> InScope(history, Global) == []
  {
    InScopeIncreases(history, scope);
    GlobalIsHistory(history);
  }

  /** What draining a ring means for its scope. */
  lemma DrainedRing<E>(ring: seq<SeqEvent<E>>, all: seq<SeqEvent<E>>, since: nat)
    requires Increasing(all) && (ring != [] ==> Retains(ring, all))
    ensures var (events, gap) := DrainRing(ring, since);
            && (gap <==> ring != [] && since < ring[0].number)
            && (ring == [] ==> events == [])
            && (gap ==> events == ring && (events == Newer(all, since) <==> NothingLost(ring, all, since)))
            && (ring != [] && !gap ==> events == Newer(all, since))
            && (ring == all ==> events == Newer(all, since))
    ensures Newer<E>([], since) == []
  {
    if ring != [] {
      DrainIsComplete(ring, all, since);
      if since < ring[0].number {
        RingSufficesIffNothingLost(ring, all, since);
      }
    }
  }

  class EventBus<E> {
    var next: nat
    var globalRing: seq<SeqEvent<E>>
    var perRunRing: map<RunId, seq<SeqEvent<E>>>
    var terminalRuns: map<RunId, nat>
    const terminalRetention: nat
    ghost var history: seq<Publication<E>>

    ghost predicate Valid()
      reads this
    {
      Consistent(next, globalRing, perRunRing, history)
    }

    constructor (terminalRetention: nat)
      ensures Valid() && history == [] && perRunRing == map[] && terminalRuns == map[]
      ensures this.terminalRetention == terminalRetention
    {
      this.terminalRetention := terminalRetention;
      next, globalRing, perRunRing, terminalRuns, history := 1, [], map[], map[], [];
    }

    /** Less than the retention has passed since the run ended; with no retention at all, nothing is kept. */
    predicate Fresh(endedAt: nat, now: nat) {
      now < endedAt + terminalRetention && 0 < terminalRetention
    }

    function Expired(now: nat): set<RunId>
      reads this
    {
      set run | run in terminalRuns
                && (if now >= terminalRuns[run] then now - terminalRuns[run] else 0) >= terminalRetention
    }

    method EvictExpired(now: nat)
      requires Valid()
      modifies this`terminalRuns, this`perRunRing
      ensures Valid()
      ensures terminalRuns == old(terminalRuns) - old(Expired(now))
      ensures perRunRing == old(perRunRing) - old(Expired(now))
      ensures forall run :: run in terminalRuns <==> run in old(terminalRuns) && Fresh(old(terminalRuns)[run], now)
      ensures forall run :: run in perRunRing <==>
                run in old(perRunRing) && (run in old(terminalRuns) ==> Fresh(old(terminalRuns)[run], now))
    {
      var expired := Expired(now);
      terminalRuns := terminalRuns - expired;
      perRunRing := perRunRing - expired;
    }

    /** Drops the event while the run is terminal; otherwise it becomes the next number of the one sequence. */
    method Publish(run: RunId, event: E, now: nat) returns (published: bool)
      requires Valid()
      modifies this
      ensures Valid()
      ensures published <==> run in old(terminalRuns) ==> !Fresh(old(terminalRuns)[run], now)
      ensures !published ==> globalRing == old(globalRing)
      ensures published ==>
                var entry, kept := SeqEvent(|old(history)| + 1, event), old(perRunRing) - old(Expired(now));
                && run in perRunRing && KeepsNewest(old(globalRing), entry, globalRing)
                && KeepsNewest(if run in kept then kept[run] else [], entry, perRunRing[run])
      ensures history == old(history)
                         + if published then [Publication(run, SeqEvent(|old(history)| + 1, event))] else []
      ensures published ==> run in perRunRing
      ensures var kept := old(perRunRing) - old(Expired(now));
              perRunRing == if published then kept[run := perRunRing[run]] else kept
      ensures terminalRuns == old(terminalRuns) - old(Expired(now))
    {
      hide Consistent, KeepsNewest;
      EvictExpired(now);
      if run in terminalRuns {
        return false;
      }
      Append(run, event);
      return true;
    }

    method Append(run: RunId, event: E)
      requires Valid()
      modifies this`next, this`globalRing, this`perRunRing, this`history
      ensures Valid() && history == old(history) + [Publication(run, SeqEvent(|old(history)| + 1, event))]
      ensures run in perRunRing && perRunRing == old(perRunRing)[run := perRunRing[run]]
      ensures var entry := SeqEvent(|old(history)| + 1, event);
              && KeepsNewest(old(globalRing), entry, globalRing)
              && KeepsNewest(if run in old(perRunRing) then old(perRunRing)[run] else [], entry, perRunRing[run])
    {
      var entry := SeqEvent(next, event);
      PublishKeepsConsistent(next, globalRing, perRunRing, history, Publication(run, entry));
      next := next + 1;
      globalRing := PushBounded(globalRing, entry);
      var ring := if run in perRunRing then perRunRing[run] else [];
      perRunRing := perRunRing[run := PushBounded(ring, entry)];
      history := history + [Publication(run, entry)];
    }

    method CleanupRun(run: RunId, now: nat)
      requires Valid()
      modifies this`terminalRuns, this`perRunRing
      ensures Valid() && terminalRuns == (old(terminalRuns) - old(Expired(now)))[run := now]
      ensures perRunRing == old(perRunRing) - old(Expired(now))
    {
      EvictExpired(now);
      terminalRuns := terminalRuns[run := now];
    }

    /**
     With `gap == false`, the global ring or a run ring that is still there yields exactly the
     publications in scope after `since`, in order; a run ring that is gone yields nothing.
     */
    method Backfill(scope: Scope, since: nat, now: nat) returns (events: seq<SeqEvent<E>>, gap: bool)
      requires Valid()
      modifies this`terminalRuns, this`perRunRing
      ensures Valid()
      ensures gap <==> (scope == Global && globalRing != [] && since < globalRing[0].number)
                       || (scope.OfRun? && scope.run in perRunRing && since < perRunRing[scope.run][0].number)
      ensures (scope == Global || scope.run in perRunRing) && !gap ==> events == Newer(InScope(history, scope), since)
      ensures !gap ==> (events == Newer(InScope(history, scope), since)
                        <==> scope == Global || scope.run in perRunRing || Newer(InScope(history, scope), since) == [])
      ensures gap ==> events == if scope == Global then globalRing else perRunRing[scope.run]
      ensures scope == Global && |history| <= 1024 ==> events == Newer(InScope(history, Global), since)
      ensures gap ==> events != [] && (events == Newer(InScope(history, scope), since)
                                       <==> NothingLost(events, InScope(history, scope), since))
      ensures scope.OfRun? && scope.run !in perRunRing ==> events == [] && !gap
      ensures perRunRing == old(perRunRing) - old(Expired(now))
    {
      hide Consistent, InScope, Newer, Retains, Increasing, NothingLost;
      EvictExpired(now);
      var ring := match scope
        case Global => globalRing
        case OfRun(run) => if run in perRunRing then perRunRing[run] else [];
      ScopeRing(next, globalRing, perRunRing, history, scope, ring);
      var drained := DrainRing(ring, since);
      DrainedRing(ring, InScope(history, scope), since);
      return drained.0, drained.1;
    }

    /** The least retained number of the scope, 0 when nothing is retained. */
    method OldestSeq(scope: Scope, now: nat) returns (oldest: nat)
      requires Valid()
      modifies this`terminalRuns, this`perRunRing
      ensures Valid()
      ensures oldest == 0 <==> if scope == Global then history == [] else scope.run !in perRunRing
      ensures oldest != 0 ==> var ring := if scope == Global then globalRing else perRunRing[scope.run];
                              && (exists e :: e in ring && e.number == oldest)
                              && (forall e :: e in ring ==> oldest <= e.number)
      ensures perRunRing == old(perRunRing) - old(Expired(now))
    {
      EvictExpired(now);
      var ring := match scope
        case Global => globalRing
        case OfRun(run) => if run in perRunRing then perRunRing[run] else [];
      if ring == [] {
        return 0;
      }
      InScopeIncreases(history, scope);
      FirstIsLeast(ring, InScope(history, scope));
      assert ring[0] in ring;
      return ring[0].number;
    }
  }

  /** A bus on which the only run published one event, ended, and has outlived its retention at time 5. */
  method ExpiredRun<E>(run: RunId, event: E) returns (bus: EventBus<E>)
    ensures fresh(bus) && bus.Valid() && run in bus.Expired(5)
    ensures bus.history == [Publication(run, SeqEvent(1, event))]
  {
    hide Consistent;
    bus := new EventBus<E>(5);
    var ok := bus.Publish(run, event, 0);
    assert ok && bus.history == [] + [Publication(run, SeqEvent(1, event))];
    bus.CleanupRun(run, 0);
  }

  /**
   The case the retained ring excludes: once the ring of a terminal run has been evicted, a backfill
   returns nothing and reports no gap although an event was published.
   */
  method EvictedRunReportsNoGap<E>(run: RunId, event: E)
    returns (events: seq<SeqEvent<E>>, gap: bool, published: seq<SeqEvent<E>>)
    ensures events == [] && !gap && published == [SeqEvent(1, event)]
  {
    hide Consistent;
    var bus := ExpiredRun(run, event);
    published := InScope([Publication(run, SeqEvent(1, event))], OfRun(run));
    InScopeAppend([], Publication(run, SeqEvent(1, event)), OfRun(run));
    events, gap := bus.Backfill(OfRun(run), 0, 5);
    assert run !in bus.perRunRing;
  }
}
