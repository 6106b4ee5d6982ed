/**
 serializeByKey (kbbl/core/session/serialize-by-key.ts): per-key promise chains. The call itself is
 synchronous; each promise reaction (start of the work, settlement, the swallowing tail, the cleanup)
 is a method of its own, so that callers may interleave them in any order the promises allow.
 */
module KeyedChains {
  import opened Optional

  datatype Phase = Queued | Started | Settled(fulfilled: bool) | TailSettled(fulfilled: bool) | Cleaned(fulfilled: bool)

  /** One call: its key and the call whose tail it was chained onto, if an entry was found. */
  datatype Work<Key> = Work(key: Key, previous: Option<nat>, phase: Phase)

  predicate HasStarted<Key>(w: Work<Key>) {
    !w.phase.Queued?
  }

  predicate HasSettled<Key>(w: Work<Key>) {
    w.phase.Settled? || w.phase.TailSettled? || w.phase.Cleaned?
  }

  predicate TailDone<Key>(w: Work<Key>) {
    w.phase.TailSettled? || w.phase.Cleaned?
  }

  /** Call `j` was chained so that nothing of its key before it can be skipped. */
  ghost predicate Chained<Key>(works: seq<Work<Key>>, j: nat)
    requires j < |works|
  {
    && (works[j].previous.Some? ==> works[j].previous.value < j && works[works[j].previous.value].key == works[j].key)
    && (HasStarted(works[j]) && works[j].previous.Some? ==> TailDone(works[works[j].previous.value]))
    && forall i :: 0 <= i < j && works[i].key == works[j].key ==>
         TailDone(works[i]) || (works[j].previous.Some? && i <= works[j].previous.value)
  }

  /** An entry names the last call of its key; a missing entry means every call of the key has settled. */
  ghost predicate EntryOk<Key>(chains: map<Key, nat>, works: seq<Work<Key>>, i: nat)
    requires i < |works|
  {
    var key := works[i].key;
    if key in chains then i <= chains[key] else TailDone(works[i])
  }

  ghost predicate Consistent<Key>(chains: map<Key, nat>, works: seq<Work<Key>>) {
    && (forall j :: 0 <= j < |works| ==> Chained(works, j))
    && (forall i :: 0 <= i < |works| ==> EntryOk(chains, works, i))
    && (forall key :: key in chains ==> chains[key] < |works| && works[chains[key]].key == key)
  }

  /** Works under one key start in call order, each only after every earlier one and its tail have settled. */
  lemma {:induction false} StartsAfterEarlier<Key>(chains: map<Key, nat>, works: seq<Work<Key>>, i: nat, j: nat)
    requires Consistent(chains, works) && i < j < |works|
    requires works[i].key == works[j].key && HasStarted(works[j])
    ensures HasStarted(works[i]) && HasSettled(works[i]) && TailDone(works[i])
    decreases j
  {
    assert Chained(works, j);
    if !TailDone(works[i]) {
      var p := works[j].previous.value;
      if i < p {
        StartsAfterEarlier(chains, works, i, p);
      }
    }
  }

  lemma MissingEntryMeansSettled<Key>(chains: map<Key, nat>, works: seq<Work<Key>>, i: nat)
    requires Consistent(chains, works) && i < |works| && works[i].key !in chains
    ensures HasSettled(works[i])
  {
    assert EntryOk(chains, works, i);
  }

  /** No call is stuck behind a rejection: once the earlier ones of its key have settled, it may start. */
  lemma NextMayStart<Key>(chains: map<Key, nat>, works: seq<Work<Key>>, j: nat)
    requires Consistent(chains, works) && j < |works|
    requires forall i :: 0 <= i < j && works[i].key == works[j].key ==> TailDone(works[i])
    ensures MayStart(works, j) || HasStarted(works[j])
  {
    assert Chained(works, j);
  }

  predicate MayStart<Key>(works: seq<Work<Key>>, j: nat)
    requires j < |works|
  {
    && works[j].phase.Queued?
    && (works[j].previous.Some? ==> works[j].previous.value < |works| && TailDone(works[works[j].previous.value]))
  }

  /** A work may move to a later phase; it starts only when its predecessor's tail has settled. */
  ghost predicate Advances<Key>(works: seq<Work<Key>>, j: nat, phase: Phase)
    requires j < |works|
  {
    match phase
    case Queued => false
    case Started => MayStart(works, j)
    case Settled(_) => works[j].phase.Started?
    case TailSettled(ok) => works[j].phase == Settled(ok)
    case Cleaned(ok) => works[j].phase == TailSettled(ok)
  }

  lemma AdvanceKeepsConsistent<Key>(chains: map<Key, nat>, works: seq<Work<Key>>, j: nat, phase: Phase)
    requires Consistent(chains, works) && j < |works| && Advances(works, j, phase)
    ensures Consistent(chains, works[j := works[j].(phase := phase)])
  {
    var after := works[j := works[j].(phase := phase)];
    forall k | 0 <= k < |after| ensures Chained(after, k) && EntryOk(chains, after, k) {
      assert Chained(works, k) && EntryOk(chains, works, k);
    }
  }

  lemma CallKeepsConsistent<Key>(chains: map<Key, nat>, works: seq<Work<Key>>, key: Key)
    requires Consistent(chains, works)
    ensures Consistent(chains[key := |works|], works + [Work(key, TailOf(chains, key), Queued)])
  {
    var previous := TailOf(chains, key);
    var after, chains' := works + [Work(key, previous, Queued)], chains[key := |works|];
    forall k | 0 <= k < |after| ensures Chained(after, k) && EntryOk(chains', after, k) {
      if k < |works| {
        assert Chained(works, k) && EntryOk(chains, works, k);
      } else {
        forall i | 0 <= i < |works| && after[i].key == key
          ensures TailDone(after[i]) || (previous.Some? && i <= previous.value)
        {
          assert EntryOk(chains, works, i);
        }
      }
    }
    forall k | k in chains' ensures chains'[k] < |after| && after[chains'[k]].key == k {
    }
  }

  /** The tail stored for a key. */
  function TailOf<Key>(chains: map<Key, nat>, key: Key): Option<nat> {
    if key in chains then Some(chains[key]) else None
  }

  lemma DropKeepsConsistent<Key>(chains: map<Key, nat>, works: seq<Work<Key>>, i: nat)
    requires Consistent(chains, works) && i < |works| && TailDone(works[i])
    requires works[i].key in chains && chains[works[i].key] == i
    ensures Consistent(chains - {works[i].key}, works)
  {
    forall k | 0 <= k < |works| ensures EntryOk(chains - {works[i].key}, works, k) {
      assert EntryOk(chains, works, k);
      if works[k].key == works[i].key && k < i {
        StartsAfterEarlier(chains, works, k, i);
      }
    }
  }

  class Serializer<Key(==)> {
    var chains: map<Key, nat>
    var works: seq<Work<Key>>

    ghost predicate Valid()
      reads this
    {
      Consistent(chains, works)
    }

    constructor ()
      ensures Valid() && works == [] && chains == map[]
    {
      chains, works := map[], [];
    }

    /** The synchronous part: chain onto the current tail, then become the tail. */
    method SerializeByKey(key: Key) returns (call: nat)
      requires Valid()
      modifies this
      ensures Valid() && call == |old(works)|
      ensures works == old(works) + [Work(key, TailOf(old(chains), key), Queued)]
      ensures chains == old(chains)[key := call]
    {
      var previous := TailOf(chains, key);
      CallKeepsConsistent(chains, works, key);
      call := |works|;
      works := works + [Work(key, previous, Queued)];
      chains := chains[key := call];
    }

    /** `previous.then(work)` fires. */
    method StartWork(call: nat)
      requires Valid() && call < |works| && MayStart(works, call)
      modifies this`works
      ensures Valid() && works == old(works)[call := old(works)[call].(phase := Started)]
    {
      AdvanceKeepsConsistent(chains, works, call, Started);
      works := works[call := works[call].(phase := Started)];
    }

    method SettleWork(call: nat, fulfilled: bool)
      requires Valid() && call < |works| && works[call].phase.Started?
      modifies this`works
      ensures Valid() && works == old(works)[call := old(works)[call].(phase := Settled(fulfilled))]
    {
      AdvanceKeepsConsistent(chains, works, call, Settled(fulfilled));
      works := works[call := works[call].(phase := Settled(fulfilled))];
    }

    /** The stored tail swallows rejection: it settles either way. */
    method SettleTail(call: nat)
      requires Valid() && call < |works| && works[call].phase.Settled?
      modifies this`works
      ensures Valid()
      ensures works == old(works)[call := old(works)[call].(phase := TailSettled(old(works)[call].phase.fulfilled))]
    {
      var fulfilled := works[call].phase.fulfilled;
      AdvanceKeepsConsistent(chains, works, call, TailSettled(fulfilled));
      works := works[call := works[call].(phase := TailSettled(fulfilled))];
    }

    /** The cleanup reaction: drop the entry only while it is still this tail. */
    method Cleanup(call: nat)
      requires Valid() && call < |works| && works[call].phase.TailSettled?
      modifies this
      ensures Valid()
      ensures works == old(works)[call := old(works)[call].(phase := Cleaned(old(works)[call].phase.fulfilled))]
      ensures var key := old(works)[call].key;
              chains == if key in old(chains) && old(chains)[key] == call then old(chains) - {key} else old(chains)
    {
      var Work(key, previous, phase) := works[call];
      AdvanceKeepsConsistent(chains, works, call, Cleaned(phase.fulfilled));
      works := works[call := works[call].(phase := Cleaned(phase.fulfilled))];
      if key in chains && chains[key] == call {
        DropKeepsConsistent(chains, works, call);
        chains := chains - {key};
      }
    }
  }
}
