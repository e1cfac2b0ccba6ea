/**
  Why a record fails, what its failure reason is, and when it is tried again.

  A record with retries left is not failed: it stays retryable unless it can never be asked for.
 */
module UrlDeletionStatus {
  import opened Common
  import opened UrlDeletion
  import opened UrlDeletionLaws
  import opened UrlDeletionRuns
  import opened UrlDeletionBounds
  import opened UrlDeletionCounts
  import opened UrlOrder

  // ---- Reasons ----

  /** The record can never be asked for: its url resolves to no base, or its path raises. */
  predicate GivenUpFor<W>(st: Storage<W>, url: string, reason: string) {
    var (key, rest) := st.resolve(url);
    if key.None? || key.value == "" then reason == st.invalid else st.path(key.value, rest) == Err(reason)
  }

  /** The record has a base and a path to ask for. */
  predicate CanBeAsked<W>(st: Storage<W>, url: string) {
    var (key, rest) := st.resolve(url);
    key.Some? && key.value != "" && st.path(key.value, rest).Ok?
  }

  /** The remote side gave the reason: its error, a reason of its reply that names the record, or that it forgot the record. */
  ghost predicate Gives<W>(st: Storage<W>, event: Event<W>, id: Id, reason: string) {
    match event
    case Connected(_, _, _) => false
    case Refused(group, base, before, _) => id in group && st.connect(before, base).1 == Some(reason)
    case Asked(group, _, _, _, _, Err(err)) => id in group && err == reason
    case Asked(_, _, pairs, _, _, Ok(reply)) =>
      || (exists err :: err in reply.errors && err.0 == reason && id in IdsAt(pairs, err.1))
      || (reason == "Not succeeded" && Missing(pairs, reply, id))
  }

  ghost predicate Given<W>(st: Storage<W>, events: seq<Event<W>>, id: Id, reason: string) {
    exists event :: event in events && Gives(st, event, id, reason)
  }

  /** What can become of a record that stays. */
  ghost predicate Fate<W>(cfg: Config, st: Storage<W>, events: seq<Event<W>>, id: Id, r: Record, r': Record) {
    && r'.url == r.url && r'.company == r.company && r'.storageType == r.storageType
    && r'.retryCount >= r.retryCount
    && (r'.status == r.status
        || (r'.status == Failed && (r'.retryCount >= cfg.maxRetries || !CanBeAsked(st, r.url))))
    && (r' != r ==>
         && r'.lastFailureReason.Some?
         && (Given(st, events, id, r'.lastFailureReason.value) || GivenUpFor(st, r.url, r'.lastFailureReason.value)))
  }

  ghost predicate Fates<W>(cfg: Config, st: Storage<W>, events: seq<Event<W>>, s: State<W>, s': State<W>) {
    s'.store.Keys <= s.store.Keys && forall id :: id in s'.store ==> Fate(cfg, st, events, id, s.store[id], s'.store[id])
  }

  lemma FatesTransitive<W>(cfg: Config, st: Storage<W>, events: seq<Event<W>>, s: State<W>, s1: State<W>, s2: State<W>)
    requires Fates(cfg, st, events, s, s1) && Fates(cfg, st, events, s1, s2)
    ensures Fates(cfg, st, events, s, s2)
  {
    forall id | id in s2.store ensures Fate(cfg, st, events, id, s.store[id], s2.store[id]) {
      assert Fate(cfg, st, events, id, s.store[id], s1.store[id]) && Fate(cfg, st, events, id, s1.store[id], s2.store[id]);
    }
  }

  // ---- The two updates ----

  lemma RetryFates<W>(cfg: Config, st: Storage<W>, events: seq<Event<W>>, s: State<W>, ids: set<Id>, reason: string)
    requires forall id :: id in ids ==> Given(st, events, id, reason)
    ensures Fates(cfg, st, events, s, Retry(cfg, s, ids, reason))
  {
  }

  lemma GiveUpFates<W>(cfg: Config, st: Storage<W>, events: seq<Event<W>>, s: State<W>, ids: set<Id>, reason: string)
    requires forall id :: id in ids && id in s.store ==> GivenUpFor(st, s.store[id].url, reason)
    ensures Fates(cfg, st, events, s, GiveUp(cfg, s, ids, reason))
  {
  }

  // ---- One chunk ----

  /** The items are what the records resolve to. */
  ghost predicate Belongs<W>(st: Storage<W>, store: Store, key: Option<string>, items: seq<Item>) {
    forall item :: item in items && item.id in store ==> st.resolve(store[item.id].url) == (key, item.url)
  }

  lemma BelongsLater<W>(
    cfg: Config, st: Storage<W>, events: seq<Event<W>>, s: State<W>, s': State<W>, key: Option<string>, items: seq<Item>)
    requires Fates(cfg, st, events, s, s') && Belongs(st, s.store, key, items)
    ensures Belongs(st, s'.store, key, items)
  {
    forall item | item in items && item.id in s'.store ensures st.resolve(s'.store[item.id].url) == (key, item.url) {
      assert Fate(cfg, st, events, item.id, s.store[item.id], s'.store[item.id]);
    }
  }

  lemma BelongsSplit<W>(st: Storage<W>, store: Store, key: Option<string>, items: seq<Item>, n: nat)
    requires Belongs(st, store, key, items) && n <= |items|
    ensures Belongs(st, store, key, items[..n]) && Belongs(st, store, key, items[n..])
  {
    assert forall item :: item in items[..n] || item in items[n..] ==> item in items;
  }

  lemma {:induction false} PrepareFates<W>(
    cfg: Config, st: Storage<W>, events: seq<Event<W>>, base: string, chunk: seq<Item>, s: State<W>, pairs: seq<(Id, string)>)
    requires base != "" && Belongs(st, s.store, Some(base), chunk)
    ensures Fates(cfg, st, events, s, Prepare(cfg, st, base, chunk, s, pairs).0)
  {
    if chunk != [] {
      assert chunk[0] in chunk;
      BelongsSplit(st, s.store, Some(base), chunk, 1);
      match st.path(base, chunk[0].url) {
        case Ok(path) =>
          PrepareFates(cfg, st, events, base, chunk[1..], s, pairs + [(chunk[0].id, path)]);
        case Err(err) =>
          var s1 := GiveUp(cfg, s, {chunk[0].id}, err);
          GiveUpFates(cfg, st, events, s, {chunk[0].id}, err);
          BelongsLater(cfg, st, events, s, s1, Some(base), chunk[1..]);
          PrepareFates(cfg, st, events, base, chunk[1..], s1, pairs);
          FatesTransitive(cfg, st, events, s, s1, Prepare(cfg, st, base, chunk, s, pairs).0);
      }
    }
  }

  lemma {:induction false} MarkErrorsFates<W>(
    cfg: Config, st: Storage<W>, events: seq<Event<W>>, event: Event<W>, errors: seq<(string, seq<string>)>, s: State<W>)
    requires event.Asked? && event.outcome.Ok? && event in events
    requires forall err :: err in errors ==> err in event.outcome.value.errors
    ensures Fates(cfg, st, events, s, MarkErrors(cfg, event.pairs, errors, s))
  {
    if errors != [] {
      var ids := IdsAt(event.pairs, errors[0].1);
      assert errors[0] in errors;
      forall id | id in ids ensures Given(st, events, id, errors[0].0) {
        assert Gives(st, event, id, errors[0].0);
      }
      RetryFates(cfg, st, events, s, ids, errors[0].0);
      var s1 := Retry(cfg, s, ids, errors[0].0);
      MarkErrorsFates(cfg, st, events, event, errors[1..], s1);
      FatesTransitive(cfg, st, events, s, s1, MarkErrors(cfg, event.pairs, errors, s));
    }
  }

  lemma SettleFates<W>(cfg: Config, st: Storage<W>, events: seq<Event<W>>, event: Event<W>, s: State<W>)
    requires event.Asked? && event.outcome.Ok? && event in events
    ensures Fates(cfg, st, events, s, Settle(cfg, event.pairs, event.outcome.value, s))
  {
    var pairs, reply := event.pairs, event.outcome.value;
    var marked := MarkErrors(cfg, pairs, reply.errors, s);
    var gone := IdsAt(pairs, reply.deleted);
    var cleaned := marked.(store := marked.store - gone);
    var missing := AllIds(pairs) - gone - FailedIds(pairs, reply.errors);
    MarkErrorsFates(cfg, st, events, event, reply.errors, s);
    assert Fates(cfg, st, events, marked, cleaned);
    FatesTransitive(cfg, st, events, s, marked, cleaned);
    if missing != {} {
      forall id | id in missing ensures Given(st, events, id, "Not succeeded") {
        assert Gives(st, event, id, "Not succeeded");
      }
      RetryFates(cfg, st, events, cleaned, missing, "Not succeeded");
      FatesTransitive(cfg, st, events, s, cleaned, Retry(cfg, cleaned, missing, "Not succeeded"));
    }
  }

  lemma AskFates<W>(
    cfg: Config, st: Storage<W>, events: seq<Event<W>>, base: string, group: set<Id>, pairs: seq<(Id, string)>, s: State<W>)
    requires AskedOf(st, base, group, pairs, s.world) in events
    ensures Fates(cfg, st, events, s, Ask(cfg, st, base, group, pairs, s))
  {
    var event := AskedOf(st, base, group, pairs, s.world);
    var asked := s.(world := event.after, log := s.log + [event]);
    match event.outcome {
      case Err(err) =>
        forall id | id in group ensures Given(st, events, id, err) {
          assert Gives(st, event, id, err);
        }
        RetryFates(cfg, st, events, asked, group, err);
      case Ok(reply) =>
        SettleFates(cfg, st, events, event, asked);
    }
  }

  lemma ChunkFates<W>(
    cfg: Config, st: Storage<W>, events: seq<Event<W>>, base: string, group: set<Id>, chunk: seq<Item>, s: State<W>)
    requires base != "" && Belongs(st, s.store, Some(base), chunk)
    requires PairsOf(st, base, chunk) != [] ==> AskedOf(st, base, group, PairsOf(st, base, chunk), s.world) in events
    ensures Fates(cfg, st, events, s, Chunk(cfg, st, base, group, chunk, s))
  {
    var (prepared, pairs) := Prepare(cfg, st, base, chunk, s, []);
    PrepareFates(cfg, st, events, base, chunk, s, []);
    PreparePairs(cfg, st, base, chunk, s, []);
    assert [] + PairsOf(st, base, chunk) == PairsOf(st, base, chunk);
    if pairs != [] {
      AskFates(cfg, st, events, base, group, pairs, prepared);
      FatesTransitive(cfg, st, events, s, prepared, Ask(cfg, st, base, group, pairs, prepared));
    }
  }

  // ---- One group, one batch ----

  ghost predicate Among<W>(some: seq<Event<W>>, events: seq<Event<W>>) {
    forall event :: event in some ==> event in events
  }

  lemma {:induction false} ChunksFates<W>(
    cfg: Config, st: Storage<W>, events: seq<Event<W>>, base: string, group: set<Id>, items: seq<Item>, s: State<W>)
    requires st.chunkSize > 0 && base != "" && Belongs(st, s.store, Some(base), items)
    requires Among(ChunkEvents(st, base, group, items, s.world), events)
    ensures Fates(cfg, st, events, s, Chunks(cfg, st, base, group, items, s))
    decreases |items|
  {
    if items != [] {
      var n := Min(st.chunkSize, |items|);
      var s1 := Chunk(cfg, st, base, group, items[..n], s);
      BelongsSplit(st, s.store, Some(base), items, n);
      ChunkTrace(cfg, st, base, group, items[..n], s);
      ChunkFates(cfg, st, events, base, group, items[..n], s);
      BelongsLater(cfg, st, events, s, s1, Some(base), items[n..]);
      ChunksFates(cfg, st, events, base, group, items[n..], s1);
      FatesTransitive(cfg, st, events, s, s1, Chunks(cfg, st, base, group, items, s));
    }
  }

  lemma GroupFates<W>(cfg: Config, st: Storage<W>, events: seq<Event<W>>, base: Option<string>, items: seq<Item>, s: State<W>)
    requires st.chunkSize > 0 && Belongs(st, s.store, base, items)
    requires Among(GroupEvents(st, base, items, s.world), events)
    ensures Fates(cfg, st, events, s, Group(cfg, st, base, items, s))
  {
    if base.None? || base.value == "" {
      GiveUpFates(cfg, st, events, s, IdsOf(items), st.invalid);
    } else {
      var (after, failure) := st.connect(s.world, base.value);
      if failure.Some? {
        var event := Refused(IdsOf(items), base.value, s.world, after);
        assert event in GroupEvents(st, base, items, s.world);
        forall id | id in IdsOf(items) ensures Given(st, events, id, failure.value) {
          assert Gives(st, event, id, failure.value);
        }
        RetryFates(cfg, st, events, s.(world := after, log := s.log + [event]), IdsOf(items), failure.value);
      } else {
        var s1 := s.(world := after, log := s.log + [Connected(base.value, s.world, after)]);
        ChunksFates(cfg, st, events, base.value, IdsOf(items), items, s1);
      }
    }
  }

  ghost predicate AllBelong<W>(st: Storage<W>, store: Store, groups: Buckets) {
    forall i :: 0 <= i < |groups| ==> Belongs(st, store, groups[i].0, groups[i].1)
  }

  lemma {:induction false} GroupsFates<W>(cfg: Config, st: Storage<W>, events: seq<Event<W>>, groups: Buckets, s: State<W>)
    requires st.chunkSize > 0 && AllBelong(st, s.store, groups) && Among(GroupsEvents(st, groups, s.world), events)
    ensures Fates(cfg, st, events, s, Groups(cfg, st, groups, s))
    decreases |groups|
  {
    if groups != [] {
      var s1 := Group(cfg, st, groups[0].0, groups[0].1, s);
      GroupTrace(cfg, st, groups[0].0, groups[0].1, s);
      GroupFates(cfg, st, events, groups[0].0, groups[0].1, s);
      forall i | 0 <= i < |groups[1..]| ensures Belongs(st, s1.store, groups[1..][i].0, groups[1..][i].1) {
        assert groups[1..][i] == groups[i + 1];
        BelongsLater(cfg, st, events, s, s1, groups[i + 1].0, groups[i + 1].1);
      }
      GroupsFates(cfg, st, events, groups[1..], s1);
      FatesTransitive(cfg, st, events, s, s1, Groups(cfg, st, groups, s));
    }
  }

  lemma {:induction false} AddedBelongs<W>(st: Storage<W>, store: Store, groups: Buckets, key: Option<string>, item: Item)
    requires AllBelong(st, store, groups) && Belongs(st, store, key, [item])
    ensures AllBelong(st, store, AddToBucket(groups, key, item))
  {
    assert item in [item];
    if groups != [] && groups[0].0 != key {
      assert forall i :: 0 <= i < |groups[1..]| ==> groups[1..][i] == groups[i + 1];
      AddedBelongs(st, store, groups[1..], key, item);
    }
  }

  lemma {:induction false} BucketizeBelongs<W>(st: Storage<W>, store: Store, batch: seq<Id>)
    requires forall id :: id in batch ==> id in store
    ensures AllBelong(st, store, Bucketize(st, store, batch))
  {
    if batch != [] {
      var n := |batch| - 1;
      var (key, url) := st.resolve(store[batch[n]].url);
      BucketizeBelongs(st, store, batch[..n]);
      AddedBelongs(st, store, Bucketize(st, store, batch[..n]), key, Item(batch[n], url));
    }
  }

  /**
    What becomes of every record that stays, over any client. Its status changes to failed only, and only if it is out
    of retries or can never be asked for; and if it changes at all, its failure reason is what the remote side said of
    it in this call, or why it was given up.
   */
  lemma BatchFates<W>(cfg: Config, st: Storage<W>, batch: seq<Id>, s: State<W>)
    requires st.chunkSize > 0 && forall x :: x in batch ==> x in s.store
    ensures Fates(cfg, st, BatchEvents(st, batch, s), s, DeleteBatch(cfg, st, batch, s))
  {
    BucketizeBelongs(st, s.store, batch);
    GroupsFates(cfg, st, BatchEvents(st, batch, s), Bucketize(st, s.store, batch), s);
  }

  /** A record that has a path to ask for ends a call failed exactly when its count has reached the maximum. */
  lemma FailedIff<W>(cfg: Config, st: Storage<W>, batch: seq<Id>, s: State<W>, id: Id)
    requires st.chunkSize > 0 && forall x :: x in batch ==> x in s.store
    requires id in DeleteBatch(cfg, st, batch, s).store
    requires id in s.store ==>
               && s.store[id].status != Failed && s.store[id].retryCount < cfg.maxRetries && CanBeAsked(st, s.store[id].url)
    ensures var s' := DeleteBatch(cfg, st, batch, s);
            && id in s.store
            && (s'.store[id].status == Failed <==> s'.store[id].retryCount >= cfg.maxRetries)
            && (s'.store[id].status != Failed ==> s'.store[id].status == s.store[id].status)
  {
    BatchFates(cfg, st, batch, s);
    BatchEvolves(cfg, st, batch, s);
    assert Fate(cfg, st, BatchEvents(st, batch, s), id, s.store[id], DeleteBatch(cfg, st, batch, s).store[id]);
  }

  ghost predicate NoBase<W>(st: Storage<W>, url: string) {
    st.resolve(url).0.None? || st.resolve(url).0 == Some("")
  }

  lemma {:induction false} AsksAreCounted<W>(events: seq<Event<W>>, k: nat, id: Id)
    requires k < |events| && Asks(events[k], id) > 0
    ensures AllAsks(events, id) > 0
  {
    if k > 0 {
      AsksAreCounted(events[1..], k - 1, id);
    }
  }

  /** Nobody is asked for a record without a base. */
  lemma NoBaseUnasked<W(!new)>(st: Storage<W>, batch: seq<Id>, s: State<W>, id: Id)
    requires st.chunkSize > 0 && (forall x :: x in batch ==> x in s.store) && id in batch && NoBase(st, s.store[id].url)
    ensures Charges(BatchEvents(st, batch, s), id) == 0 && !Reported(BatchEvents(st, batch, s), id)
  {
    var key := st.resolve(s.store[id].url).0;
    var groups, events := Bucketize(st, s.store, batch), BatchEvents(st, batch, s);
    OwnBucketOnly(st, s.store, batch, id);
    GroupsAsks(st, groups, s.world, key, id);
    GroupsEventsGrouped(st, groups, s.world);
    forall k | 0 <= k < |events| ensures !Deletes(events[k], id) {
      assert Grouped(events[k]);
      if Deletes(events[k], id) {
        assert id in AllIds(events[k].pairs);
        AsksAreCounted(events, k, id);
      }
    }
    var at := BatchCharges(st, batch, s, id);
  }

  /** A selected record whose url resolves to no base fails at once, uncounted. */
  lemma NoBaseFails<W(!new)>(cfg: Config, st: Storage<W>, batch: seq<Id>, s: State<W>, id: Id)
    requires st.chunkSize > 0 && (forall x :: x in batch ==> x in s.store) && id in batch && NoBase(st, s.store[id].url)
    ensures var s' := DeleteBatch(cfg, st, batch, s);
            && id in s'.store && s'.store[id].status == Failed && s'.store[id].retryCount == s.store[id].retryCount
  {
    NoBaseUnasked(st, batch, s, id);
    BatchNews(cfg, st, batch, s);
    EveryRecordAccounted(cfg, st, batch, s, id);
    RetryCountExact(cfg, st, batch, s, id);
    RemovedIffReported(cfg, st, batch, s, id);
  }

  // ---- Runs ----

  /** What becomes of a record over any stretch of a run. */
  ghost predicate KeepsItsStatus<W>(cfg: Config, st: Storage<W>, r: Record, r': Record) {
    && r'.url == r.url && r'.company == r.company && r'.storageType == r.storageType
    && r'.retryCount >= r.retryCount
    && (r'.status == r.status
        || (r'.status == Failed && (r'.retryCount >= cfg.maxRetries || !CanBeAsked(st, r.url))))
  }

  lemma WorksStatus<W>(
    cfg: Config, st: Storage<W>, t: StorageType, c: string, batch: seq<Id>, s: State<W>, s': State<W>, id: Id)
    requires Works(cfg, st, t, c, batch, s, s') && id in batch && id in s'.store
    ensures id in s.store && KeepsItsStatus(cfg, st, s.store[id], s'.store[id])
  {
    var start := s.(ticks := s.ticks + 1);
    BatchFates(cfg, st, batch, start);
    assert Fate(cfg, st, BatchEvents(st, batch, start), id, start.store[id], s'.store[id]);
  }

  lemma TurnStatus<W>(
    cfg: Config, storageFor: (StorageType, string) -> Storage<W>, s: State<W>, s': State<W>, id: Id)
    requires Idle(cfg, s, s') || WorkingTurn(cfg, storageFor, s, s')
    requires id in s.store && id in s'.store
    ensures KeepsItsStatus(cfg, storageFor(s.store[id].storageType, s.store[id].company), s.store[id], s'.store[id])
  {
    if WorkingTurn(cfg, storageFor, s, s') {
      var t, c, batch :| Works(cfg, storageFor(t, c), t, c, batch, s, s');
      if id in batch {
        WorksStatus(cfg, storageFor(t, c), t, c, batch, s, s', id);
      } else {
        OthersUntouched(cfg, storageFor(t, c), batch, s.(ticks := s.ticks + 1));
      }
    }
  }

  /**
    Over any run, a record that stays keeps its status, or it has failed because its count has reached the maximum or
    because its url resolves to no base or its path raises.
   */
  lemma {:induction false} RunStatus<W>(
    cfg: Config, storageFor: (StorageType, string) -> Storage<W>, states: seq<State<W>>, id: Id)
    requires IsRun(cfg, storageFor, states)
    requires id in states[0].store && id in states[|states| - 1].store
    ensures var r := states[0].store[id];
            KeepsItsStatus(cfg, storageFor(r.storageType, r.company), r, states[|states| - 1].store[id])
  {
    if |states| > 1 {
      RunTail(cfg, storageFor, states);
      RunOnward(cfg, storageFor, states[1..]);
      TurnStatus(cfg, storageFor, states[0], states[1], id);
      RunStatus(cfg, storageFor, states[1..], id);
    }
  }

  /** So over any run a record with a path to ask for, and with retries left at the start, has failed exactly when it has none. */
  lemma RunFailedIff<W>(
    cfg: Config, storageFor: (StorageType, string) -> Storage<W>, states: seq<State<W>>, id: Id)
    requires IsRun(cfg, storageFor, states)
    requires id in states[0].store && id in states[|states| - 1].store
    requires states[0].store[id].status != Failed && states[0].store[id].retryCount < cfg.maxRetries
    requires CanBeAsked(storageFor(states[0].store[id].storageType, states[0].store[id].company), states[0].store[id].url)
    ensures states[|states| - 1].store[id].status == Failed <==> states[|states| - 1].store[id].retryCount >= cfg.maxRetries
  {
    RunStatus(cfg, storageFor, states, id);
    RunOnward(cfg, storageFor, states);
  }

  // ---- The retry timeout ----

  /** A turn takes up a record only if it has not failed, has retries left, and its last failure is long enough ago. */
  lemma OnlyTheDue<W>(cfg: Config, st: Storage<W>, t: StorageType, c: string, batch: seq<Id>, s: State<W>, s': State<W>, id: Id)
    requires Works(cfg, st, t, c, batch, s, s') && id in batch
    ensures id in s.store && s.store[id].status != Failed && s.store[id].retryCount < cfg.maxRetries
    ensures s.store[id].storageType == t && s.store[id].company == c
    ensures s.store[id].lastFailureTime.Some? ==>
              s.store[id].lastFailureTime.value + cfg.retryTimeout < cfg.clock(s.ticks)
  {
  }

  /** The record is one of the loop's at that time, written out. */
  predicate CanBeTaken(cfg: Config, r: Record, now: int) {
    && r.storageType in {Fileserver, S3, Azure, Gs}
    && r.status != Failed && r.retryCount < cfg.maxRetries
    && (r.lastFailureTime.Some? ==> r.lastFailureTime.value + cfg.retryTimeout < now)
  }

  /** The record could have been taken with the batch. */
  predicate LeftOut<W>(cfg: Config, t: StorageType, c: string, batch: seq<Id>, s: State<W>, id: Id) {
    && id in s.store && id !in batch
    && s.store[id].storageType == t && s.store[id].company == c && CanBeTaken(cfg, s.store[id], cfg.clock(s.ticks))
  }

  /**
    What a turn takes: of the company and storage type of a record counted least of all that can be taken, all of them,
    or the first 10000 by url.
   */
  lemma TakesTheFirst<W>(cfg: Config, st: Storage<W>, t: StorageType, c: string, batch: seq<Id>, s: State<W>, s': State<W>)
    requires Works(cfg, st, t, c, batch, s, s')
    ensures 0 < |batch| <= 10000
    ensures forall i, j :: 0 <= i < j < |batch| ==>
              batch[i] != batch[j] && batch[i] in s.store && batch[j] in s.store
              && UrlLe(s.store[batch[i]].url, s.store[batch[j]].url)
    ensures exists first :: first in s.store && s.store[first].storageType == t && s.store[first].company == c
              && CanBeTaken(cfg, s.store[first], cfg.clock(s.ticks))
              && forall id :: id in s.store && CanBeTaken(cfg, s.store[id], cfg.clock(s.ticks)) ==>
                   s.store[first].retryCount <= s.store[id].retryCount
    ensures forall id :: LeftOut(cfg, t, c, batch, s, id) ==>
              |batch| == 10000 && forall x :: x in batch ==> x in s.store && UrlLe(s.store[x].url, s.store[id].url)
  {
    var now := cfg.clock(s.ticks);
    var first :| first in s.store && IsForemost(cfg, s.store, now, first)
                 && c == s.store[first].company && t == s.store[first].storageType;
    assert forall id :: id in s.store && CanBeTaken(cfg, s.store[id], now) ==>
      Due(cfg, s.store[id], now) && Handled(s.store[id]);
    assert CanBeTaken(cfg, s.store[first], now);
    forall id | LeftOut(cfg, t, c, batch, s, id)
      ensures |batch| == 10000 && forall x :: x in batch ==> x in s.store && UrlLe(s.store[x].url, s.store[id].url)
    {
      assert id in SelectedIds(cfg, s.store, now, c, t);
    }
  }

  /** A turn is idle exactly when no record of a handled type is so. */
  lemma IdleIff<W>(cfg: Config, storageFor: (StorageType, string) -> Storage<W>, s: State<W>, s': State<W>)
    requires Idle(cfg, s, s') || WorkingTurn(cfg, storageFor, s, s')
    ensures Idle(cfg, s, s') <==>
              forall id :: id in s.store && s.store[id].storageType in {Fileserver, S3, Azure, Gs}
                           && s.store[id].status != Failed && s.store[id].retryCount < cfg.maxRetries ==>
                && s.store[id].lastFailureTime.Some?
                && s.store[id].lastFailureTime.value + cfg.retryTimeout >= cfg.clock(s.ticks)
  {
    if WorkingTurn(cfg, storageFor, s, s') {
      var t, c, batch :| Works(cfg, storageFor(t, c), t, c, batch, s, s');
      var first :| first in s.store && IsForemost(cfg, s.store, cfg.clock(s.ticks), first);
      assert Due(cfg, s.store[first], cfg.clock(s.ticks)) && Handled(s.store[first]);
    }
  }

  /** The turn takes up the record. */
  ghost predicate TakesUp<W>(
    cfg: Config, storageFor: (StorageType, string) -> Storage<W>, s: State<W>, s': State<W>, id: Id)
  {
    exists t, c, batch :: Works(cfg, storageFor(t, c), t, c, batch, s, s') && id in batch
  }

  lemma WorksStamps<W>(
    cfg: Config, st: Storage<W>, t: StorageType, c: string, batch: seq<Id>, s: State<W>, s': State<W>, id: Id)
    requires Works(cfg, st, t, c, batch, s, s') && id in s'.store
    ensures id in s.store && s.ticks < s'.ticks
    ensures s'.store[id] == s.store[id] || Stamped(cfg, s'.store[id], s.ticks + 1, s'.ticks)
    ensures id in batch ==> Stamped(cfg, s'.store[id], s.ticks + 1, s'.ticks)
  {
    BatchEvolves(cfg, st, batch, s.(ticks := s.ticks + 1));
  }

  /** A failure time read since some point stays one. */
  lemma TurnStamp<W>(
    cfg: Config, storageFor: (StorageType, string) -> Storage<W>, s: State<W>, s': State<W>, id: Id, from: nat)
    requires Idle(cfg, s, s') || WorkingTurn(cfg, storageFor, s, s')
    requires id in s.store && id in s'.store && from <= s.ticks && Stamped(cfg, s.store[id], from, s.ticks)
    ensures s.ticks <= s'.ticks && Stamped(cfg, s'.store[id], from, s'.ticks)
  {
    if WorkingTurn(cfg, storageFor, s, s') {
      var t, c, batch :| Works(cfg, storageFor(t, c), t, c, batch, s, s');
      WorksStamps(cfg, storageFor(t, c), t, c, batch, s, s', id);
    }
  }

  lemma {:induction false} RunStamp<W>(
    cfg: Config, storageFor: (StorageType, string) -> Storage<W>, states: seq<State<W>>, id: Id, from: nat)
    requires IsRun(cfg, storageFor, states) && id in states[0].store && id in states[|states| - 1].store
    requires from <= states[0].ticks && Stamped(cfg, states[0].store[id], from, states[0].ticks)
    ensures Stamped(cfg, states[|states| - 1].store[id], from, states[|states| - 1].ticks)
  {
    if |states| > 1 {
      RunTail(cfg, storageFor, states);
      RunOnward(cfg, storageFor, states[1..]);
      TurnStamp(cfg, storageFor, states[0], states[1], id, from);
      RunStamp(cfg, storageFor, states[1..], id, from);
    }
  }

  /** Between two turns that take up one record the timeout passes, measured from a clock reading after the first began. */
  lemma WaitsItsTimeout<W>(
    cfg: Config, storageFor: (StorageType, string) -> Storage<W>, first: State<W>, between: seq<State<W>>, last: State<W>, id: Id)
    returns (n: nat)
    requires IsRun(cfg, storageFor, between)
    requires TakesUp(cfg, storageFor, first, between[0], id) && TakesUp(cfg, storageFor, between[|between| - 1], last, id)
    ensures first.ticks < n < between[|between| - 1].ticks
    ensures cfg.clock(n) + cfg.retryTimeout < cfg.clock(between[|between| - 1].ticks)
  {
    var before := between[|between| - 1];
    var t, c, batch :| Works(cfg, storageFor(t, c), t, c, batch, before, last) && id in batch;
    OnlyTheDue(cfg, storageFor(t, c), t, c, batch, before, last, id);
    RunOnward(cfg, storageFor, between);
    var t0, c0, batch0 :| Works(cfg, storageFor(t0, c0), t0, c0, batch0, first, between[0]) && id in batch0;
    WorksStamps(cfg, storageFor(t0, c0), t0, c0, batch0, first, between[0], id);
    RunStamp(cfg, storageFor, between, id, first.ticks + 1);
    n :| first.ticks + 1 <= n < before.ticks && before.store[id].lastFailureTime == Some(cfg.clock(n));
  }
}
