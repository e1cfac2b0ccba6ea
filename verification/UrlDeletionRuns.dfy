/**
  Whole runs of the deletion loop: bounded work, absorbing failure, and what is left when it falls idle.
 */
module UrlDeletionRuns {
  import opened Common
  import opened UrlDeletion
  import opened UrlDeletionLaws

  // ---- The measure ----

  function Weight(cfg: Config, r: Record): nat {
    if r.status == Failed || r.retryCount >= cfg.maxRetries then 0 else cfg.maxRetries - r.retryCount
  }

  /** The sum of the retries left over all records that have not failed. */
  ghost function RetriesLeft(cfg: Config, store: Store): nat
    decreases |store|
  {
    if store == map[] then 0
    else
      var id :| id in store;
      Weight(cfg, store[id]) + RetriesLeft(cfg, store - {id})
  }

  lemma {:induction false} RetriesLeftSplit(cfg: Config, store: Store, id: Id)
    requires id in store
    ensures RetriesLeft(cfg, store) == Weight(cfg, store[id]) + RetriesLeft(cfg, store - {id})
    decreases |store|
  {
    var picked :| picked in store && RetriesLeft(cfg, store) == Weight(cfg, store[picked]) + RetriesLeft(cfg, store - {picked});
    if picked != id {
      RetriesLeftSplit(cfg, store - {picked}, id);
      RetriesLeftSplit(cfg, store - {id}, picked);
      assert store - {picked} - {id} == store - {id} - {picked};
    }
  }

  ghost predicate Lighter(cfg: Config, store: Store, store': Store) {
    && store'.Keys <= store.Keys
    && forall id :: id in store' ==> Weight(cfg, store'[id]) <= Weight(cfg, store[id])
  }

  lemma {:induction false} RetriesLeftMonotone(cfg: Config, store: Store, store': Store)
    requires Lighter(cfg, store, store')
    ensures RetriesLeft(cfg, store') <= RetriesLeft(cfg, store)
    decreases |store|
  {
    if store == map[] {
      assert store' == map[];
    } else {
      var id :| id in store;
      RetriesLeftSplit(cfg, store, id);
      if id in store' {
        RetriesLeftSplit(cfg, store', id);
        RetriesLeftMonotone(cfg, store - {id}, store' - {id});
      } else {
        RetriesLeftMonotone(cfg, store - {id}, store');
      }
    }
  }

  lemma RetriesLeftDrops(cfg: Config, store: Store, store': Store, id: Id)
    requires Lighter(cfg, store, store')
    requires id in store && Weight(cfg, store[id]) > 0
    requires id in store' ==> Weight(cfg, store'[id]) < Weight(cfg, store[id])
    ensures RetriesLeft(cfg, store') < RetriesLeft(cfg, store)
  {
    RetriesLeftSplit(cfg, store, id);
    if id in store' {
      RetriesLeftSplit(cfg, store', id);
      RetriesLeftMonotone(cfg, store - {id}, store' - {id});
    } else {
      RetriesLeftMonotone(cfg, store - {id}, store');
    }
  }

  // ---- One turn ----

  lemma WorksDecreases<W>(
    cfg: Config, st: Storage<W>, t: StorageType, c: string, batch: seq<Id>, s: State<W>, s': State<W>)
    requires Works(cfg, st, t, c, batch, s, s')
    ensures RetriesLeft(cfg, s'.store) < RetriesLeft(cfg, s.store)
    ensures Onward(cfg, s, s')
  {
    var start := s.(ticks := s.ticks + 1);
    var id := batch[0];
    InvariantsKept(cfg, st, batch, start);
    EveryRecordAccounted(cfg, st, batch, start, id);
    assert News(start, s') == News(s, s');
    RetriesLeftDrops(cfg, s.store, s'.store, id);
  }

  /** A turn that selects a record uses up at least one retry, whatever the storage answers. */
  lemma WorkingTurnDecreases<W>(
    cfg: Config, storageFor: (StorageType, string) -> Storage<W>, s: State<W>, s': State<W>)
    requires WorkingTurn(cfg, storageFor, s, s')
    ensures RetriesLeft(cfg, s'.store) < RetriesLeft(cfg, s.store)
    ensures Onward(cfg, s, s')
  {
    var t, c, batch :| Works(cfg, storageFor(t, c), t, c, batch, s, s');
    WorksDecreases(cfg, storageFor(t, c), t, c, batch, s, s');
  }

  lemma TurnOnward<W>(
    cfg: Config, storageFor: (StorageType, string) -> Storage<W>, s: State<W>, s': State<W>)
    requires Idle(cfg, s, s') || WorkingTurn(cfg, storageFor, s, s')
    ensures Onward(cfg, s, s')
  {
    if WorkingTurn(cfg, storageFor, s, s') {
      WorkingTurnDecreases(cfg, storageFor, s, s');
    } else {
      assert News(s, s') == [];
    }
  }

  lemma OnwardTransitive<W>(cfg: Config, s: State<W>, s1: State<W>, s2: State<W>)
    requires Onward(cfg, s, s1) && Onward(cfg, s1, s2)
    ensures Onward(cfg, s, s2)
  {
    NewsConcat(s, s1, s2);
    forall id | id in s.store
      ensures id !in s2.store <==> Reported(News(s, s2), id)
    {
      ReportedConcat(News(s, s1), News(s1, s2), id);
    }
  }

  // ---- Runs ----

  /** How many turns of the run selected at least one record. */
  ghost function WorkingTurns<W>(
    cfg: Config, storageFor: (StorageType, string) -> Storage<W>, states: seq<State<W>>): nat
  {
    if |states| <= 1 then 0
    else (if WorkingTurn(cfg, storageFor, states[0], states[1]) then 1 else 0) + WorkingTurns(cfg, storageFor, states[1..])
  }

  lemma RunTail<W>(cfg: Config, storageFor: (StorageType, string) -> Storage<W>, states: seq<State<W>>)
    requires IsRun(cfg, storageFor, states) && |states| > 1
    ensures IsRun(cfg, storageFor, states[1..])
  {
    var rest := states[1..];
    forall i | 0 <= i < |rest| - 1
      ensures Idle(cfg, rest[i], rest[i + 1]) || WorkingTurn(cfg, storageFor, rest[i], rest[i + 1])
    {
      assert rest[i] == states[i + 1] && rest[i + 1] == states[i + 2];
    }
  }

  /**
    The loop does bounded work: with no new records, the number of turns that select anything is at most
    the retries left at the start, however long the run and however the storages behave.
   */
  lemma {:induction false} WorkIsBounded<W>(
    cfg: Config, storageFor: (StorageType, string) -> Storage<W>, states: seq<State<W>>)
    requires IsRun(cfg, storageFor, states)
    ensures WorkingTurns(cfg, storageFor, states) + RetriesLeft(cfg, states[|states| - 1].store)
         <= RetriesLeft(cfg, states[0].store)
  {
    if |states| > 1 {
      RunTail(cfg, storageFor, states);
      WorkIsBounded(cfg, storageFor, states[1..]);
      if WorkingTurn(cfg, storageFor, states[0], states[1]) {
        WorkingTurnDecreases(cfg, storageFor, states[0], states[1]);
      } else {
        assert Idle(cfg, states[0], states[1]);
      }
    }
  }

  lemma {:induction false} RunOnward<W>(
    cfg: Config, storageFor: (StorageType, string) -> Storage<W>, states: seq<State<W>>)
    requires IsRun(cfg, storageFor, states)
    ensures Onward(cfg, states[0], states[|states| - 1])
  {
    if |states| > 1 {
      RunTail(cfg, storageFor, states);
      TurnOnward(cfg, storageFor, states[0], states[1]);
      RunOnward(cfg, storageFor, states[1..]);
      OnwardTransitive(cfg, states[0], states[1], states[|states| - 1]);
    }
  }

  /** Every stamp is older than the retry timeout. */
  ghost predicate TimeoutsOver<W>(cfg: Config, s: State<W>) {
    forall id :: id in s.store ==>
      s.store[id].lastFailureTime.None? || s.store[id].lastFailureTime.value < cfg.clock(s.ticks) - cfg.retryTimeout
  }

  /**
    What a run achieves. If it starts with no record out of retries but not failed, and its last turn is
    idle although all timeouts are over, then every record the loop has a helper for was either removed,
    with its deletion reported during the run, or has failed for good.
   */
  lemma RunDrains<W>(
    cfg: Config, storageFor: (StorageType, string) -> Storage<W>, states: seq<State<W>>, id: Id)
    requires IsRun(cfg, storageFor, states) && |states| > 1
    requires forall x :: x in states[0].store ==> Bounded(cfg, states[0].store[x])
    requires Idle(cfg, states[|states| - 2], states[|states| - 1])
    requires TimeoutsOver(cfg, states[|states| - 2])
    requires id in states[0].store && Handled(states[0].store[id])
    ensures var last := states[|states| - 1];
            && states[0].log <= last.log
            && (id in last.store ==> last.store[id].status == Failed)
            && (id !in last.store <==> Reported(News(states[0], last), id))
  {
    RunOnward(cfg, storageFor, states);
  }
}
