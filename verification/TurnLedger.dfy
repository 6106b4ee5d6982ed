/**
 The durable turn ledger and the controllers that dispatch from it, as one state machine.
 Each event is one synchronous stretch between two awaits of kbbl/core/acp/controller.ts, except that
 the ledger write and the send inside `runTurn` are two events, so that the process may die between them.
 Any number of controllers may serve one session; a crash may follow any event and drops them all.
 */
module TurnLedger {
  import opened Optional

  datatype TurnId = TurnId(sid: string, key: string)
  datatype TurnSource = Initial | Operator | Collaboration
  datatype TurnStatus = Accepted | Prompting | Succeeded | Cancelled | Failed | Unknown
  datatype StopReason = EndTurn | MaxTokens | MaxTurnRequests | Refusal | StopCancelled
  datatype Turn = Turn(source: TurnSource, payload: string, createdAt: nat, rowid: nat, status: TurnStatus,
                       stop: Option<StopReason>)
  type Turns = map<TurnId, Turn>

  /** What the awaited session/prompt call yields. */
  datatype Response = Answered(stop: StopReason) | AgentError | TransportLost

  predicate Terminal(status: TurnStatus) {
    status != Accepted && status != Prompting
  }

  // --- the ledger's writes (kbbl/core/acp/store.ts) ---

  function AcceptInto(turns: Turns, t: TurnId, source: TurnSource, payload: string, now: nat): Turns {
    if t in turns then turns else turns[t := Turn(source, payload, now, |turns|, Accepted, None)]
  }

  function MarkPrompting(turns: Turns, t: TurnId): Turns {
    if t in turns then turns[t := turns[t].(status := Prompting)] else turns
  }

  /** No status guard, as in the source. */
  function Complete(turns: Turns, t: TurnId, status: TurnStatus, stop: Option<StopReason>): Turns {
    if t in turns then turns[t := turns[t].(status := status, stop := stop)] else turns
  }

  function Sweep(turns: Turns): Turns {
    map t | t in turns :: if turns[t].status == Prompting then turns[t].(status := Unknown) else turns[t]
  }

  function WithStatus(turns: Turns, status: TurnStatus): set<TurnId> {
    set t | t in turns && turns[t].status == status
  }

  /** The order in which accepted turns are listed: by creation time, then by row. */
  predicate ListedBy(a: Turn, b: Turn) {
    a.createdAt < b.createdAt || (a.createdAt == b.createdAt && a.rowid <= b.rowid)
  }

  predicate IsOldestAccepted(turns: Turns, t: TurnId) {
    && t in turns && turns[t].status == Accepted
    && forall u :: u in turns && u.sid == t.sid && turns[u].status == Accepted ==>
                     ListedBy(turns[t], turns[u])
  }

  // --- one controller (kbbl/core/acp/controller.ts) ---

  /** `live`: client and agent session id are set. `awaiting`: turns whose prompt promise is still pending. */
  datatype Controller = Controller(sid: string, live: bool, active: Option<string>, fenced: bool, defunct: bool,
                                   awaiting: set<string>)

  predicate MayDispatch(c: Controller) {
    !c.fenced && !c.defunct && c.active.None? && c.live
  }

  /** How `runTurn` records a response. */
  function OutcomeOf(response: Response, defunct: bool): (TurnStatus, Option<StopReason>) {
    match response
    case Answered(EndTurn) => (Succeeded, Some(EndTurn))
    case Answered(StopCancelled) => (Cancelled, Some(StopCancelled))
    case Answered(stop) => (Failed, Some(stop))
    case TransportLost => (Unknown, None)
    case AgentError => if defunct then (Unknown, None) else (Failed, None)
  }

  /** What a response makes of its turn, status by status. */
  ghost predicate OutcomeFits(response: Response, defunct: bool, status: TurnStatus, stop: Option<StopReason>) {
    && Terminal(status)
    && (status == Succeeded <==> response == Answered(EndTurn))
    && (status == Cancelled <==> response == Answered(StopCancelled))
    && (status == Unknown <==> response.TransportLost? || (response.AgentError? && defunct))
    && stop == (if response.Answered? then Some(response.stop) else None)
  }

  lemma OutcomeIsFitting(response: Response, defunct: bool)
    ensures var (status, stop) := OutcomeOf(response, defunct); OutcomeFits(response, defunct, status, stop)
    ensures forall status, stop :: OutcomeFits(response, defunct, status, stop)
                                   ==> (status, stop) == OutcomeOf(response, defunct)
  {
  }

  // --- the system ---

  datatype Delivery = Delivery(turn: TurnId, payload: string)

  /**
   `turns` is durable; `controllers` and `sending` are memory; `sent` and `completed` record, for the
   specification only, every payload handed to an agent and every turn given a final status.
   */
  datatype World = World(up: bool, turns: Turns, controllers: map<nat, Controller>, sending: Option<nat>,
                         sent: multiset<Delivery>, completed: multiset<TurnId>)

  const Empty := World(true, map[], map[], None, multiset{}, multiset{})

  datatype Event =
    | Accept(turn: TurnId, source: TurnSource, payload: string, now: nat)
    | Spawn(id: nat, sid: string)
    | BeginTurn(id: nat, turn: TurnId)
    | SendPrompt(id: nat)
    | Respond(id: nat, turn: TurnId, response: Response)
    | ChildExit(id: nat)
    | Fence(id: nat)
    | Teardown(id: nat)
    | Crash
    | Boot

  function ActiveTurn(c: Controller): TurnId
    requires c.active.Some?
  {
    TurnId(c.sid, c.active.value)
  }

  predicate Enabled(w: World, e: Event) {
    match e
    case Crash => w.up
    case Boot => !w.up
    case SendPrompt(id) =>
      && w.up && w.sending == Some(id) && id in w.controllers
      && w.controllers[id].active.Some? && ActiveTurn(w.controllers[id]) in w.turns
    case Accept(_, _, _, _) => w.up && w.sending.None?
    case Spawn(id, _) => w.up && w.sending.None? && id !in w.controllers
    case BeginTurn(id, turn) =>
      && w.up && w.sending.None? && id in w.controllers && MayDispatch(w.controllers[id])
      && w.controllers[id].sid == turn.sid && IsOldestAccepted(w.turns, turn)
    case Respond(id, turn, _) =>
      && w.up && w.sending.None? && id in w.controllers
      && w.controllers[id].sid == turn.sid && turn.key in w.controllers[id].awaiting
    case ChildExit(id) => w.up && w.sending.None? && id in w.controllers
    case Fence(id) => w.up && w.sending.None? && id in w.controllers
    case Teardown(id) => w.up && w.sending.None? && id in w.controllers
  }

  function Put(w: World, id: nat, c: Controller): World {
    w.(controllers := w.controllers[id := c])
  }

  function Finish(w: World, t: TurnId, status: TurnStatus, stop: Option<StopReason>): World {
    w.(turns := Complete(w.turns, t, status, stop), completed := w.completed + multiset{t})
  }

  function Step(w: World, e: Event): World
    requires Enabled(w, e)
  {
    match e
    case Accept(turn, source, payload, now) => w.(turns := AcceptInto(w.turns, turn, source, payload, now))
    case Spawn(id, sid) => Put(w, id, Controller(sid, true, None, false, false, {}))
    case BeginTurn(id, turn) =>
      Put(w, id, w.controllers[id].(active := Some(turn.key)))
        .(turns := MarkPrompting(w.turns, turn), sending := Some(id))
    case SendPrompt(id) =>
      var c := w.controllers[id];
      Put(w, id, c.(awaiting := c.awaiting + {c.active.value}))
        .(sending := None, sent := w.sent + multiset{Delivery(ActiveTurn(c), w.turns[ActiveTurn(c)].payload)})
    case Respond(id, turn, response) =>
      var c := w.controllers[id].(awaiting := w.controllers[id].awaiting - {turn.key});
      if c.active != Some(turn.key) then Put(w, id, c) else
        var (status, stop) := OutcomeOf(response, c.defunct);
        Finish(Put(w, id, c.(active := None)), turn, status, stop)
    case ChildExit(id) =>
      var c := w.controllers[id];
      if c.defunct then w
      else if c.active.None? then Put(w, id, c.(defunct := true))
      else Finish(Put(w, id, c.(defunct := true, active := None)), ActiveTurn(c), Unknown, None)
    case Fence(id) => Put(w, id, w.controllers[id].(fenced := true))
    case Teardown(id) => Put(w, id, w.controllers[id].(defunct := true, live := false))
    case Crash => w.(up := false, controllers := map[], sending := None)
    case Boot =>
      w.(up := true, turns := Sweep(w.turns), completed := w.completed + multiset(WithStatus(w.turns, Prompting)))
  }

  /** `w'` is reached from `w` by the events in order, each one enabled where it happens. */
  ghost predicate Run(w: World, events: seq<Event>, w': World)
    decreases |events|
  {
    if events == [] then w == w'
    else Enabled(w, events[0]) && Run(Step(w, events[0]), events[1..], w')
  }

  // --- the invariant ---

  /** Everything sent belongs to a turn that has left `accepted`, with the payload of its row, once. */
  ghost predicate SentOnce(w: World) {
    forall d :: d in w.sent ==>
      w.sent[d] == 1 && d.turn in w.turns && w.turns[d.turn].status != Accepted && w.turns[d.turn].payload == d.payload
  }

  /** A turn has been completed as often as its status says: once when final, otherwise never. */
  ghost predicate CompletedOnce(w: World) {
    forall t :: w.completed[t] == if t in w.turns && Terminal(w.turns[t].status) then 1 else 0
  }

  ghost predicate SucceededAnswered(w: World) {
    forall t :: t in w.turns && w.turns[t].status == Succeeded ==> w.turns[t].stop == Some(EndTurn)
  }

  ghost predicate Holds(w: World, id: nat, t: TurnId) {
    id in w.controllers && w.controllers[id].active.Some? && ActiveTurn(w.controllers[id]) == t
  }

  /** `prompting` rows and active turn keys correspond one to one. */
  ghost predicate LedgerMatchesMemory(w: World) {
    && (forall id: nat, t :: Holds(w, id, t) ==> t in w.turns && w.turns[t].status == Prompting)
    && (forall t :: t in w.turns && w.turns[t].status == Prompting ==> exists id: nat :: Holds(w, id, t))
    && (forall id: nat, id': nat, t :: Holds(w, id, t) && Holds(w, id', t) ==> id == id')
  }

  /** Between the ledger write and the send the turn is active and not yet sent; otherwise it is awaited. */
  ghost predicate SendPending(w: World) {
    && (w.sending.Some? ==>
          && w.sending.value in w.controllers && w.controllers[w.sending.value].active.Some?
          && forall d :: d in w.sent ==> d.turn != ActiveTurn(w.controllers[w.sending.value]))
    && (forall id: nat, t :: Holds(w, id, t) && w.sending != Some(id) ==> t.key in w.controllers[id].awaiting)
  }

  ghost predicate Recorded(w: World) {
    SentOnce(w) && CompletedOnce(w) && SucceededAnswered(w)
  }

  ghost predicate Inv(w: World) {
    && Recorded(w)
    && (w.up ==> LedgerMatchesMemory(w) && SendPending(w))
    && (!w.up ==> w.controllers == map[] && w.sending.None?)
  }

  lemma AcceptKeepsInv(w: World, t: TurnId, source: TurnSource, payload: string, now: nat)
    requires Inv(w) && w.up
    ensures Inv(w.(turns := AcceptInto(w.turns, t, source, payload, now)))
  {
    var w' := w.(turns := AcceptInto(w.turns, t, source, payload, now));
    assert forall id: nat, u :: Holds(w', id, u) <==> Holds(w, id, u);
  }

  /** Replacing a controller by one that holds the same turn, still awaited, disturbs nothing. */
  lemma QuietKeepsInv(w: World, id: nat, c: Controller)
    requires Inv(w) && w.up && w.sending.None?
    requires if id in w.controllers then c.sid == w.controllers[id].sid && c.active == w.controllers[id].active
             else c.active.None?
    requires c.active.Some? ==> c.active.value in c.awaiting
    ensures Inv(Put(w, id, c))
  {
    assert forall i: nat, t :: Holds(Put(w, id, c), i, t) <==> Holds(w, i, t);
  }

  /** A held turn may be given any final status, once, by the controller that holds it. */
  lemma FinishKeepsInv(w: World, id: nat, c: Controller, status: TurnStatus, stop: Option<StopReason>)
    requires Inv(w) && w.up && w.sending.None? && id in w.controllers && w.controllers[id].active.Some?
    requires c.sid == w.controllers[id].sid && c.active.None?
    requires Terminal(status) && (status == Succeeded ==> stop == Some(EndTurn))
    ensures Inv(Finish(Put(w, id, c), ActiveTurn(w.controllers[id]), status, stop))
  {
    var t := ActiveTurn(w.controllers[id]);
    var w' := Finish(Put(w, id, c), t, status, stop);
    FinishKeepsRecorded(w, id, c, status, stop);
    assert Holds(w, id, t);
    assert LedgerMatchesMemory(w') && SendPending(w') by {
      assert forall i: nat, u :: Holds(w', i, u) <==> Holds(w, i, u) && u != t;
    }
  }

  lemma FinishKeepsRecorded(w: World, id: nat, c: Controller, status: TurnStatus, stop: Option<StopReason>)
    requires Recorded(w) && LedgerMatchesMemory(w) && id in w.controllers && w.controllers[id].active.Some?
    requires Terminal(status) && (status == Succeeded ==> stop == Some(EndTurn))
    ensures Recorded(Finish(Put(w, id, c), ActiveTurn(w.controllers[id]), status, stop))
  {
    assert Holds(w, id, ActiveTurn(w.controllers[id]));
  }

  lemma BeginKeepsInv(w: World, id: nat, t: TurnId, w': World)
    requires Inv(w) && w.up && w.sending.None? && id in w.controllers && MayDispatch(w.controllers[id])
    requires w.controllers[id].sid == t.sid && t in w.turns && w.turns[t].status == Accepted
    requires w' == Put(w, id, w.controllers[id].(active := Some(t.key)))
                     .(turns := MarkPrompting(w.turns, t), sending := Some(id))
    ensures Inv(w')
  {
    assert Recorded(w');
    assert LedgerMatchesMemory(w') && SendPending(w') by {
      assert Holds(w', id, t);
      assert forall i: nat, u :: Holds(w', i, u) <==> Holds(w, i, u) || (i == id && u == t);
    }
  }

  lemma SendKeepsInv(w: World, e: Event)
    requires Inv(w) && Enabled(w, e) && e.SendPrompt?
    ensures Inv(Step(w, e))
  {
    var w' := Step(w, e);
    var t := ActiveTurn(w.controllers[e.id]);
    assert Holds(w, e.id, t);
    assert forall id: nat, t :: Holds(w', id, t) <==> Holds(w, id, t);
  }

  lemma RespondKeepsInv(w: World, e: Event)
    requires Inv(w) && Enabled(w, e) && e.Respond?
    ensures Inv(Step(w, e))
  {
    var c := w.controllers[e.id].(awaiting := w.controllers[e.id].awaiting - {e.turn.key});
    if c.active != Some(e.turn.key) {
      assert c.active.Some? ==> Holds(w, e.id, ActiveTurn(c));
      QuietKeepsInv(w, e.id, c);
    } else {
      var (status, stop) := OutcomeOf(e.response, c.defunct);
      FinishKeepsInv(w, e.id, c.(active := None), status, stop);
    }
  }

  lemma ExitKeepsInv(w: World, e: Event)
    requires Inv(w) && Enabled(w, e) && (e.ChildExit? || e.Fence? || e.Teardown? || e.Spawn?)
    ensures Inv(Step(w, e))
  {
    if e.ChildExit? && !w.controllers[e.id].defunct && w.controllers[e.id].active.Some? {
      FinishKeepsInv(w, e.id, w.controllers[e.id].(defunct := true, active := None), Unknown, None);
    } else if !(e.ChildExit? && w.controllers[e.id].defunct) {
      var c := Step(w, e).controllers[e.id];
      assert c.active.Some? ==> Holds(w, e.id, ActiveTurn(c));
      QuietKeepsInv(w, e.id, c);
    }
  }

  lemma CrashKeepsInv(w: World, e: Event)
    requires Inv(w) && Enabled(w, e) && (e.Crash? || e.Boot?)
    ensures Inv(Step(w, e))
  {
    if e.Boot? {
      assert LedgerMatchesMemory(Step(w, e)) && SendPending(Step(w, e));
    }
  }

  lemma StepKeepsInv(w: World, e: Event)
    requires Inv(w) && Enabled(w, e)
    ensures Inv(Step(w, e))
  {
    match e
    case Accept(t, source, payload, now) => AcceptKeepsInv(w, t, source, payload, now);
    case Spawn(_, _) => ExitKeepsInv(w, e);
    case Fence(_) => ExitKeepsInv(w, e);
    case Teardown(_) => ExitKeepsInv(w, e);
    case BeginTurn(id, t) => BeginKeepsInv(w, id, t, Step(w, e));
    case SendPrompt(_) => SendKeepsInv(w, e);
    case Respond(_, _, _) => RespondKeepsInv(w, e);
    case ChildExit(_) => ExitKeepsInv(w, e);
    case Crash => CrashKeepsInv(w, e);
    case Boot => CrashKeepsInv(w, e);
  }

  lemma {:induction false} RunKeepsInv(w: World, events: seq<Event>, w': World)
    requires Inv(w) && Run(w, events, w')
    ensures Inv(w')
    decreases |events|
  {
    if events != [] {
      StepKeepsInv(w, events[0]);
      RunKeepsInv(Step(w, events[0]), events[1..], w');
    }
  }

  // --- the theorems, over every run from an empty ledger ---

  /** Crash-safe at-most-once delivery: one payload per turn, its own, and none while it is `accepted`. */
  lemma AtMostOnceDelivery(events: seq<Event>, w: World)
    requires Run(Empty, events, w)
    ensures forall d :: d in w.sent ==> w.sent[d] == 1 && d.turn in w.turns && d.payload == w.turns[d.turn].payload
    ensures forall d, d' :: d in w.sent && d' in w.sent && d.turn == d'.turn ==> d == d'
    ensures forall d :: d in w.sent ==> w.turns[d.turn].status != Accepted
  {
    RunKeepsInv(Empty, events, w);
  }

  /** Between boot and crash, `prompting` rows and active turn keys match; no turn is completed twice. */
  lemma LedgerAgreesWithMemory(events: seq<Event>, w: World)
    requires Run(Empty, events, w)
    ensures w.up ==> LedgerMatchesMemory(w)
    ensures CompletedOnce(w)
  {
    RunKeepsInv(Empty, events, w);
  }

  /** No `prompting` turn is orphaned: while the process is up, its response can always be recorded. */
  lemma PromptingCanAlwaysFinish(events: seq<Event>, w: World, t: TurnId, response: Response) returns (id: nat)
    requires Run(Empty, events, w) && w.up && w.sending.None? && t in w.turns && w.turns[t].status == Prompting
    ensures Enabled(w, Respond(id, t, response))
    ensures Terminal(Step(w, Respond(id, t, response)).turns[t].status)
  {
    RunKeepsInv(Empty, events, w);
    id :| Holds(w, id, t);
  }

  /** How one row may look later: same turn, status only moving forward, and frozen once final. */
  predicate Evolves(before: Turn, after: Turn) {
    && before.source == after.source && before.payload == after.payload && before.createdAt == after.createdAt
    && before.rowid == after.rowid
    && match before.status
       case Accepted => true
       case Prompting => after.status != Accepted
       case _ => before == after
  }

  lemma StepEvolves(w: World, e: Event, t: TurnId)
    requires (w.up ==> LedgerMatchesMemory(w)) && Enabled(w, e) && t in w.turns
    ensures t in Step(w, e).turns && Evolves(w.turns[t], Step(w, e).turns[t])
  {
    if e.Respond? && w.controllers[e.id].active == Some(e.turn.key) {
      assert Holds(w, e.id, e.turn);
    } else if e.ChildExit? && w.controllers[e.id].active.Some? {
      assert Holds(w, e.id, ActiveTurn(w.controllers[e.id]));
    }
  }

  /** Final statuses never change, although `Complete` would overwrite any row it is given. */
  lemma {:induction false} RunEvolves(w: World, events: seq<Event>, w': World, t: TurnId)
    requires Inv(w) && Run(w, events, w') && t in w.turns
    ensures t in w'.turns && Evolves(w.turns[t], w'.turns[t])
    decreases |events|
  {
    if events != [] {
      StepEvolves(w, events[0], t);
      StepKeepsInv(w, events[0]);
      RunEvolves(Step(w, events[0]), events[1..], w', t);
    }
  }

  /** A turn is recorded as succeeded only if an agent answered that very turn with `end_turn`. */
  lemma {:induction false} SucceededMeansEndTurn(w: World, events: seq<Event>, w': World, t: TurnId)
    requires Run(w, events, w') && t in w'.turns && w'.turns[t].status == Succeeded
    requires t in w.turns ==> w.turns[t].status != Succeeded
    ensures exists i, id :: 0 <= i < |events| && events[i] == Respond(id, t, Answered(EndTurn))
    decreases |events|
  {
    var first := Step(w, events[0]);
    if t in first.turns && first.turns[t].status == Succeeded {
      assert events[0] == Respond(events[0].id, t, Answered(EndTurn));
    } else {
      SucceededMeansEndTurn(first, events[1..], w', t);
      var i, id :| 0 <= i < |events[1..]| && events[1..][i] == Respond(id, t, Answered(EndTurn));
      assert events[i + 1] == Respond(id, t, Answered(EndTurn));
    }
  }

  /** And conversely: a turn answered with `end_turn` while it is active has succeeded from then on. */
  lemma EndTurnSucceeds(before: seq<Event>, w: World, id: nat, t: TurnId, events: seq<Event>, w': World)
    requires Run(Empty, before, w) && Enabled(w, Respond(id, t, Answered(EndTurn)))
    requires w.controllers[id].active == Some(t.key) && Run(Step(w, Respond(id, t, Answered(EndTurn))), events, w')
    ensures t in w'.turns && w'.turns[t].status == Succeeded && w'.turns[t].stop == Some(EndTurn)
  {
    var e := Respond(id, t, Answered(EndTurn));
    RunKeepsInv(Empty, before, w);
    assert Holds(w, id, t);
    StepKeepsInv(w, e);
    RunEvolves(Step(w, e), events, w', t);
  }

  /** A row is what the first accept of its turn said, whatever was accepted under the same key later. */
  ghost predicate IsFirstAccept(events: seq<Event>, i: nat, t: TurnId, row: Turn)
    requires i < |events|
  {
    && events[i] == Accept(t, row.source, row.payload, row.createdAt)
    && forall j :: 0 <= j < i ==> !(events[j].Accept? && events[j].turn == t)
  }

  lemma OnlyAcceptCreates(w: World, e: Event, t: TurnId)
    requires Enabled(w, e) && t !in w.turns
    ensures t in Step(w, e).turns <==> e.Accept? && e.turn == t
    ensures t in Step(w, e).turns ==>
              var row := Step(w, e).turns[t];
              e == Accept(t, row.source, row.payload, row.createdAt) && row.status == Accepted
  {
  }

  lemma {:induction false} RowIsFirstAccept(w: World, events: seq<Event>, w': World, t: TurnId)
    requires Inv(w) && Run(w, events, w') && t !in w.turns && t in w'.turns
    ensures exists i :: 0 <= i < |events| && IsFirstAccept(events, i, t, w'.turns[t])
    decreases |events|
  {
    hide Step, Enabled, Inv;
    var first, rest := Step(w, events[0]), events[1..];
    StepKeepsInv(w, events[0]);
    OnlyAcceptCreates(w, events[0], t);
    if t in first.turns {
      RunEvolves(first, rest, w', t);
      assert IsFirstAccept(events, 0, t, w'.turns[t]);
    } else {
      RowIsFirstAccept(first, rest, w', t);
      var i :| 0 <= i < |rest| && IsFirstAccept(rest, i, t, w'.turns[t]);
      forall j | 0 <= j < i + 1 ensures !(events[j].Accept? && events[j].turn == t) {
        assert j > 0 ==> events[j] == rest[j - 1];
      }
      assert IsFirstAccept(events, i + 1, t, w'.turns[t]);
    }
  }

  /** What an agent is handed for a turn is the payload of the first accept of that turn. */
  lemma DeliveredIsFirstAccepted(events: seq<Event>, w: World, d: Delivery)
    requires Run(Empty, events, w) && d in w.sent
    ensures d.turn in w.turns
    ensures exists i :: 0 <= i < |events| && IsFirstAccept(events, i, d.turn, w.turns[d.turn])
                        && events[i].payload == d.payload
  {
    RunKeepsInv(Empty, events, w);
    RowIsFirstAccept(Empty, events, w, d.turn);
    var i :| 0 <= i < |events| && IsFirstAccept(events, i, d.turn, w.turns[d.turn]);
    assert events[i].payload == d.payload;
  }

  /** A fenced or torn-down controller begins no turn for the rest of its life. */
  lemma {:induction false} RetiredBeginsNothing(w: World, events: seq<Event>, w': World, id: nat, k: nat)
    requires Run(w, events, w') && k < |events| && id in w.controllers
    requires w.controllers[id].fenced || w.controllers[id].defunct
    requires forall j :: 0 <= j < k ==> !events[j].Crash?
    ensures !(events[k].BeginTurn? && events[k].id == id)
    decreases k
  {
    if k > 0 {
      var first := Step(w, events[0]);
      assert !events[0].Crash?;
      assert id in first.controllers && (first.controllers[id].fenced || first.controllers[id].defunct);
      RetiredBeginsNothing(first, events[1..], w', id, k - 1);
    }
  }

  // --- the code that takes these steps ---

  datatype AcceptOutcome = Created | Existing | PayloadConflict

  /** AcpSessionStore, as far as acp_turns goes. */
  class TurnStore {
    var turns: Turns

    constructor ()
      ensures turns == map[]
    {
      turns := map[];
    }

    method AcceptTurn(t: TurnId, source: TurnSource, payload: string, now: nat)
      returns (outcome: AcceptOutcome, row: Turn)
      modifies this
      ensures turns == AcceptInto(old(turns), t, source, payload, now) && t in turns && row == turns[t]
      ensures outcome.Created? ==> row == Turn(source, payload, now, |old(turns)|, Accepted, None)
      ensures !outcome.Created? ==> turns == old(turns) && row == old(turns[t])
      ensures outcome.Created? ==> turns == old(turns)[t := row]
      ensures outcome.Created? <==> t !in old(turns)
      ensures outcome.PayloadConflict? <==> t in old(turns) && old(turns[t]).payload != payload
    {
      if t in turns {
        return (if turns[t].payload != payload then PayloadConflict else Existing), turns[t];
      }
      row := Turn(source, payload, now, |turns|, Accepted, None);
      turns := turns[t := row];
      outcome := Created;
    }

    /** The head of listAcceptedTurns: the accepted turn of the session with the least creation time and row. */
    method FirstAccepted(sid: string) returns (first: Option<TurnId>)
      ensures first.Some? ==> first.value.sid == sid && IsOldestAccepted(turns, first.value)
      ensures first.Some? ==> forall t :: t in turns && t.sid == sid && turns[t].status == Accepted
                                          && turns[t].createdAt <= turns[first.value].createdAt
                                          ==> turns[t].createdAt == turns[first.value].createdAt
                                              && turns[first.value].rowid <= turns[t].rowid
      ensures first.None? ==> forall t :: t in turns && t.sid == sid ==> turns[t].status != Accepted
    {
      first := None;
      var rest := turns.Keys;
      while rest != {}
        invariant rest <= turns.Keys
        invariant first.Some? ==>
                    first.value.sid == sid && first.value in turns && turns[first.value].status == Accepted
        invariant forall t :: t in turns && t !in rest && t.sid == sid && turns[t].status == Accepted ==>
                                first.Some? && ListedBy(turns[first.value], turns[t])
        decreases rest
      {
        var t :| t in rest;
        rest := rest - {t};
        if t.sid == sid && turns[t].status == Accepted
           && (first.None? || !ListedBy(turns[first.value], turns[t])) {
          first := Some(t);
        }
      }
    }

    method MarkTurnPrompting(t: TurnId)
      modifies this
      ensures turns == MarkPrompting(old(turns), t)
    {
      if t in turns {
        turns := turns[t := turns[t].(status := Prompting)];
      }
    }

    method CompleteTurn(t: TurnId, status: TurnStatus, stop: Option<StopReason>)
      modifies this
      ensures turns == Complete(old(turns), t, status, stop)
    {
      if t in turns {
        turns := turns[t := turns[t].(status := status, stop := stop)];
      }
    }

    /** The turns half of the boot sweep; run on the ledger a crash left behind, it is the Boot step. */
    method BootSweep(ghost w: World) returns (markedUnknown: nat, retainedAccepted: nat)
      requires w.turns == turns && Enabled(w, Boot)
      modifies this
      ensures turns == Step(w, Boot).turns && WithStatus(turns, Prompting) == {} && turns.Keys == old(turns).Keys
      ensures forall t :: t in turns ==>
                turns[t] == if old(turns)[t].status == Prompting then old(turns)[t].(status := Unknown)
                            else old(turns)[t]
      ensures WithStatus(turns, Accepted) == WithStatus(old(turns), Accepted)
      ensures markedUnknown == |WithStatus(old(turns), Prompting)|
      ensures retainedAccepted == |WithStatus(old(turns), Accepted)|
    {
      var prompting := WithStatus(turns, Prompting);
      markedUnknown := |prompting|;
      turns := map t | t in turns :: if t in prompting then turns[t].(status := Unknown) else turns[t];
      retainedAccepted := |WithStatus(turns, Accepted)|;
      assert WithStatus(turns, Accepted) == WithStatus(old(turns), Accepted);
    }
  }

  /** AcpSessionController: every method is one or two enabled steps of the machine above. */
  class SessionController {
    const sid: string
    const store: TurnStore
    var live: bool
    var active: Option<string>
    var fenced: bool
    var defunct: bool
    var awaiting: set<string>

    /** This object is controller `id` of the world `w`, and its store holds the ledger of `w`. */
    ghost predicate Shows(w: World, id: nat)
      reads this, store
    {
      && w.turns == store.turns && w.up && w.sending.None? && id in w.controllers
      && w.controllers[id] == Controller(sid, live, active, fenced, defunct, awaiting)
    }

    constructor (sid: string, store: TurnStore, ghost w: World, ghost id: nat)
      requires w.turns == store.turns && Enabled(w, Spawn(id, sid))
      ensures this.store == store && this.sid == sid && Shows(Step(w, Spawn(id, sid)), id)
      ensures live && active.None? && !fenced && !defunct && awaiting == {}
    {
      this.sid, this.store := sid, store;
      live, active, fenced, defunct, awaiting := true, None, false, false, {};
    }

    /**
     One pass of the dispatch loop up to its await: pick the oldest accepted turn, mark it `prompting`,
     then hand its payload to the agent, in that order. Returns what was sent, if anything.
     */
    method DispatchNext(ghost w: World, ghost id: nat) returns (delivery: Option<Delivery>, ghost w': World)
      requires Shows(w, id)
      modifies this, store
      ensures delivery.None? ==> w' == w
      ensures delivery.Some? ==>
                var begin := BeginTurn(id, delivery.value.turn);
                && Enabled(w, begin) && Enabled(Step(w, begin), SendPrompt(id))
                && w' == Step(Step(w, begin), SendPrompt(id))
                && w'.sent == w.sent + multiset{delivery.value}
      ensures delivery.None? <==> !MayDispatch(w.controllers[id])
                                  || forall t :: t in w.turns && t.sid == sid ==> w.turns[t].status != Accepted
      ensures Shows(w', id)
      ensures delivery.Some? <==> && !old(fenced) && !old(defunct) && old(active).None? && old(live)
                                  && exists t :: t in old(store.turns) && t.sid == sid
                                                 && old(store.turns)[t].status == Accepted
      ensures delivery.Some? ==>
                var t := delivery.value.turn;
                && t.sid == sid && t in old(store.turns) && old(store.turns)[t].status == Accepted
                && delivery.value.payload == old(store.turns)[t].payload && active == Some(t.key)
                && store.turns == old(store.turns)[t := old(store.turns)[t].(status := Prompting)]
    {
      w' := w;
      if fenced || defunct || active.Some? {
        return None, w';
      }
      var next := store.FirstAccepted(sid);
      if next.None? || !live {
        return None, w';
      }
      var turn := next.value;
      var payload := store.turns[turn].payload;
      active := Some(turn.key);
      store.MarkTurnPrompting(turn);
      w' := Step(w, BeginTurn(id, turn));
      awaiting := awaiting + {turn.key};
      w' := Step(w', SendPrompt(id));
      return Some(Delivery(turn, payload)), w';
    }

    /** The continuation of `runTurn` after its prompt promise settles. */
    method RecordResponse(key: string, response: Response, ghost w: World, ghost id: nat)
      requires Shows(w, id) && key in awaiting
      modifies this, store
      ensures Enabled(w, Respond(id, TurnId(sid, key), response))
      ensures Shows(Step(w, Respond(id, TurnId(sid, key), response)), id)
      ensures old(active) == Some(key) && TurnId(sid, key) in old(store.turns) ==>
                var row := store.turns[TurnId(sid, key)]; OutcomeFits(response, defunct, row.status, row.stop)
      ensures old(active) != Some(key) ==> store.turns == old(store.turns) && active == old(active)
    {
      awaiting := awaiting - {key};
      if active != Some(key) {
        return;
      }
      active := None;
      var status, stop := OutcomeFor(response);
      OutcomeIsFitting(response, defunct);
      store.CompleteTurn(TurnId(sid, key), status, stop);
    }

    method OutcomeFor(response: Response) returns (status: TurnStatus, stop: Option<StopReason>)
      ensures OutcomeFits(response, defunct, status, stop)
    {
      match response {
        case Answered(reason) =>
          stop := Some(reason);
          if reason == EndTurn {
            status := Succeeded;
          } else if reason == StopCancelled {
            status := Cancelled;
          } else {
            status := Failed;
          }
        case _ =>
          stop := None;
          status := if defunct || response.TransportLost? then Unknown else Failed;
      }
    }

    method HandleChildExit(ghost w: World, ghost id: nat)
      requires Shows(w, id)
      modifies this, store
      ensures Enabled(w, ChildExit(id)) && Shows(Step(w, ChildExit(id)), id)
      ensures defunct && live == old(live) && fenced == old(fenced) && awaiting == old(awaiting)
      ensures old(defunct) ==> active == old(active) && store.turns == old(store.turns)
      ensures !old(defunct) ==> active.None?
      ensures !old(defunct) && old(active).Some? && TurnId(sid, old(active).value) in old(store.turns) ==>
                var t := TurnId(sid, old(active).value);
                store.turns == old(store.turns)[t := old(store.turns)[t].(status := Unknown, stop := None)]
    {
      if defunct {
        return;
      }
      defunct := true;
      if active.Some? {
        var key := active.value;
        active := None;
        store.CompleteTurn(TurnId(sid, key), Unknown, None);
      }
    }

    method MarkFenced(ghost w: World, ghost id: nat)
      requires Shows(w, id)
      modifies this
      ensures Enabled(w, Fence(id)) && Shows(Step(w, Fence(id)), id)
      ensures fenced && live == old(live) && active == old(active) && defunct == old(defunct)
    {
      fenced := true;
    }

    method TeardownChild(ghost w: World, ghost id: nat)
      requires Shows(w, id)
      modifies this
      ensures Enabled(w, Teardown(id)) && Shows(Step(w, Teardown(id)), id)
      ensures defunct && !live && active == old(active) && fenced == old(fenced)
    {
      defunct := true;
      live := false;
    }
  }
}
