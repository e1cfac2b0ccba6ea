/**
  The asynchronous URL deletion job.

  The record collection is a map, the remote side of a storage (its client, the network, the files)
  is an abstract world `W` threaded through the calls, and the wall clock is a sequence of readings.
  The class `DeletionJob` does what the job does, step by step; the functions above it say what each
  step computes, and `UrlDeletionLaws` and `UrlDeletionRuns` prove what the job promises about them.
 */
module UrlDeletion {
  import opened Common
  import opened UrlOrder

  type Id = string

  datatype StorageType = Fileserver | S3 | Azure | Gs | Unknown

  datatype Status = Created | Retrying | Failed

  datatype Record = Record(
    company: string,
    url: string,
    storageType: StorageType,
    retryCount: int,
    lastFailureTime: Option<int>,
    lastFailureReason: Option<string>,
    status: Status)

  type Store = map<Id, Record>

  /** `clock(n)` is the n-th reading of the wall clock. */
  datatype Config = Config(maxRetries: int, retryTimeout: int, clock: nat -> int)

  /** A record as loaded by one call: its url may have been rewritten in memory while grouping. */
  datatype Item = Item(id: Id, url: string)

  /** What a storage client reports: deleted paths, and failed paths by reason in insertion order. */
  datatype Reply = Reply(deleted: seq<string>, errors: seq<(string, seq<string>)>)

  /** One kind of storage. `connect` stands for `get_client`: `Some(error)` when it raises. */
  datatype Storage<!W> = Storage(
    invalid: string,
    resolve: string -> (Option<string>, string),
    connect: (W, string) -> (W, Option<string>),
    chunkSize: nat,
    path: (string, string) -> Result<string, string>,
    deleteMany: (W, string, seq<string>) -> (W, Result<Reply, string>))

  /** What the job saw of the remote side, in order: a bookkeeping log that no decision reads. */
  datatype Event<W> =
    | Connected(base: string, before: W, after: W)
    | Refused(group: set<Id>, base: string, before: W, after: W)
    | Asked(group: set<Id>, base: string, pairs: seq<(Id, string)>, before: W, after: W, outcome: Result<Reply, string>)

  datatype State<W> = State(store: Store, world: W, ticks: nat, log: seq<Event<W>>)

  // ---- Updates of the record collection ----

  function Counted(r: Record, now: int, reason: string): Record {
    r.(lastFailureTime := Some(now), lastFailureReason := Some(reason), retryCount := r.retryCount + 1)
  }

  function Exhausted(r: Record, maxRetries: int): Record {
    if r.retryCount >= maxRetries then r.(status := Failed) else r
  }

  function GivenUp(r: Record, now: int, reason: string): Record {
    r.(status := Failed, lastFailureTime := Some(now), lastFailureReason := Some(reason))
  }

  /** The two updates of `mark_retry_failed`: count the failure, then fail whoever has no retries left. */
  function Retried(store: Store, ids: set<Id>, now: int, reason: string, maxRetries: int): Store {
    map id | id in store ::
      if id in ids then Exhausted(Counted(store[id], now, reason), maxRetries) else store[id]
  }

  function Abandoned(store: Store, ids: set<Id>, now: int, reason: string): Store {
    map id | id in store :: if id in ids then GivenUp(store[id], now, reason) else store[id]
  }

  /** Of the given ids each record counts one more failure and is stamped; it fails if its count has reached the maximum. */
  ghost predicate CountedOnce(before: Store, after: Store, ids: set<Id>, now: int, reason: string, maxRetries: int) {
    && after.Keys == before.Keys
    && forall id :: id in after ==>
         if id in ids then
           after[id] == before[id].(
             retryCount := before[id].retryCount + 1,
             lastFailureTime := Some(now),
             lastFailureReason := Some(reason),
             status := if before[id].retryCount + 1 >= maxRetries then Failed else before[id].status)
         else after[id] == before[id]
  }

  /** Of the given ids each record is failed and stamped, and its count stays. */
  ghost predicate FailedForGood(before: Store, after: Store, ids: set<Id>, now: int, reason: string) {
    && after.Keys == before.Keys
    && forall id :: id in after ==>
         if id in ids then
           after[id] == before[id].(status := Failed, lastFailureTime := Some(now), lastFailureReason := Some(reason))
         else after[id] == before[id]
  }

  lemma RetriedOnce(store: Store, ids: set<Id>, now: int, reason: string, maxRetries: int)
    ensures CountedOnce(store, Retried(store, ids, now, reason, maxRetries), ids, now, reason, maxRetries)
  {
  }

  function Retry<W>(cfg: Config, s: State<W>, ids: set<Id>, reason: string): State<W> {
    s.(store := Retried(s.store, ids, cfg.clock(s.ticks), reason, cfg.maxRetries), ticks := s.ticks + 1)
  }

  function GiveUp<W>(cfg: Config, s: State<W>, ids: set<Id>, reason: string): State<W> {
    s.(store := Abandoned(s.store, ids, cfg.clock(s.ticks), reason), ticks := s.ticks + 1)
  }

  // ---- One chunk ----

  function IdsOf(items: seq<Item>): set<Id> {
    set item | item in items :: item.id
  }

  function PathsOf(pairs: seq<(Id, string)>): seq<string> {
    seq(|pairs|, i requires 0 <= i < |pairs| => pairs[i].1)
  }

  /** The ids filed under one of the given paths. */
  function IdsAt(pairs: seq<(Id, string)>, paths: seq<string>): set<Id> {
    set pair | pair in pairs && pair.1 in paths :: pair.0
  }

  function AllIds(pairs: seq<(Id, string)>): set<Id> {
    set pair | pair in pairs :: pair.0
  }

  function FailedIds(pairs: seq<(Id, string)>, errors: seq<(string, seq<string>)>): set<Id> {
    set pair, err | pair in pairs && err in errors && pair.1 in err.1 :: pair.0
  }

  /** The path loop: an item without a path is given up, the others are collected. */
  function Prepare<W>(cfg: Config, st: Storage<W>, base: string, chunk: seq<Item>, s: State<W>, pairs: seq<(Id, string)>)
    : (State<W>, seq<(Id, string)>)
  {
    if chunk == [] then (s, pairs)
    else match st.path(base, chunk[0].url)
      case Ok(path) => Prepare(cfg, st, base, chunk[1..], s, pairs + [(chunk[0].id, path)])
      case Err(err) => Prepare(cfg, st, base, chunk[1..], GiveUp(cfg, s, {chunk[0].id}, err), pairs)
  }

  function MarkErrors<W>(cfg: Config, pairs: seq<(Id, string)>, errors: seq<(string, seq<string>)>, s: State<W>): State<W> {
    if errors == [] then s
    else MarkErrors(cfg, pairs, errors[1..], Retry(cfg, s, IdsAt(pairs, errors[0].1), errors[0].0))
  }

  function Settle<W>(cfg: Config, pairs: seq<(Id, string)>, reply: Reply, s: State<W>): State<W> {
    var marked := MarkErrors(cfg, pairs, reply.errors, s);
    var gone := IdsAt(pairs, reply.deleted);
    var cleaned := marked.(store := marked.store - gone);
    var missing := AllIds(pairs) - gone - FailedIds(pairs, reply.errors);
    if missing == {} then cleaned else Retry(cfg, cleaned, missing, "Not succeeded")
  }

  function Ask<W>(cfg: Config, st: Storage<W>, base: string, group: set<Id>, pairs: seq<(Id, string)>, s: State<W>): State<W> {
    var (after, outcome) := st.deleteMany(s.world, base, PathsOf(pairs));
    var asked := s.(world := after, log := s.log + [Asked(group, base, pairs, s.world, after, outcome)]);
    match outcome
    case Err(err) => Retry(cfg, asked, group, err)
    case Ok(reply) => Settle(cfg, pairs, reply, asked)
  }

  function Chunk<W>(cfg: Config, st: Storage<W>, base: string, group: set<Id>, chunk: seq<Item>, s: State<W>): State<W> {
    var (prepared, pairs) := Prepare(cfg, st, base, chunk, s, []);
    if pairs == [] then prepared else Ask(cfg, st, base, group, pairs, prepared)
  }

  // ---- One group, one batch ----

  function Chunks<W>(cfg: Config, st: Storage<W>, base: string, group: set<Id>, items: seq<Item>, s: State<W>): State<W>
    requires st.chunkSize > 0
    decreases |items|
  {
    if items == [] then s
    else
      var n := Min(st.chunkSize, |items|);
      Chunks(cfg, st, base, group, items[n..], Chunk(cfg, st, base, group, items[..n], s))
  }

  function Group<W>(cfg: Config, st: Storage<W>, base: Option<string>, items: seq<Item>, s: State<W>): State<W>
    requires st.chunkSize > 0
  {
    if base.None? || base.value == "" then GiveUp(cfg, s, IdsOf(items), st.invalid)
    else
      var (world, failure) := st.connect(s.world, base.value);
      match failure
      case Some(err) =>
        var refused := Refused(IdsOf(items), base.value, s.world, world);
        Retry(cfg, s.(world := world, log := s.log + [refused]), IdsOf(items), err)
      case None =>
        var connected := Connected(base.value, s.world, world);
        Chunks(cfg, st, base.value, IdsOf(items), items, s.(world := world, log := s.log + [connected]))
  }

  type Buckets = seq<(Option<string>, seq<Item>)>

  function Groups<W>(cfg: Config, st: Storage<W>, groups: Buckets, s: State<W>): State<W>
    requires st.chunkSize > 0
  {
    if groups == [] then s
    else Groups(cfg, st, groups[1..], Group(cfg, st, groups[0].0, groups[0].1, s))
  }

  /** Files an item under its key: in the bucket that has the key, or in a new last bucket. */
  function AddToBucket(buckets: Buckets, key: Option<string>, item: Item): Buckets {
    if buckets == [] then [(key, [item])]
    else if buckets[0].0 == key then [(key, buckets[0].1 + [item])] + buckets[1..]
    else [buckets[0]] + AddToBucket(buckets[1..], key, item)
  }

  /** `bucketize(urls, key=_resolve_base_url)`; resolving an item may rewrite its url in memory. */
  function Bucketize<W>(st: Storage<W>, store: Store, batch: seq<Id>): Buckets
    requires forall id :: id in batch ==> id in store
  {
    if batch == [] then []
    else
      var id := batch[|batch| - 1];
      var (key, url) := st.resolve(store[id].url);
      AddToBucket(Bucketize(st, store, batch[..|batch| - 1]), key, Item(id, url))
  }

  function DeleteBatch<W>(cfg: Config, st: Storage<W>, batch: seq<Id>, s: State<W>): State<W>
    requires st.chunkSize > 0
    requires forall id :: id in batch ==> id in s.store
  {
    Groups(cfg, st, Bucketize(st, s.store, batch), s)
  }

  // ---- Selection ----

  const BATCH_LIMIT: nat := 10000

  predicate Due(cfg: Config, r: Record, now: int) {
    && r.status != Failed
    && r.retryCount < cfg.maxRetries
    && (r.lastFailureTime.None? || r.lastFailureTime.value < now - cfg.retryTimeout)
  }

  /** The storage types the loop has a helper for. */
  predicate Handled(r: Record) {
    !r.storageType.Unknown?
  }

  predicate Selected(cfg: Config, r: Record, now: int, company: string, storageType: StorageType) {
    Due(cfg, r, now) && r.company == company && r.storageType == storageType
  }

  predicate UrlSorted(store: Store, batch: seq<Id>)
    requires forall id :: id in batch ==> id in store
  {
    forall i, j :: 0 <= i < j < |batch| ==> UrlLe(store[batch[i]].url, store[batch[j]].url)
  }

  predicate AheadOf(store: Store, batch: seq<Id>, rest: set<Id>)
    requires forall id :: id in batch ==> id in store
    requires rest <= store.Keys
  {
    forall id, other :: id in batch && other in rest ==> UrlLe(store[id].url, store[other].url)
  }

  function SelectedIds(cfg: Config, store: Store, now: int, company: string, storageType: StorageType): set<Id> {
    set id | id in store && Selected(cfg, store[id], now, company, storageType)
  }

  /** A possible answer of the limited query: the first of the selected records by url, equal urls in any order. */
  ghost predicate IsBatch(
    cfg: Config, store: Store, now: int, company: string, storageType: StorageType, batch: seq<Id>)
  {
    var selected := SelectedIds(cfg, store, now, company, storageType);
    && (forall i, j :: 0 <= i < j < |batch| ==> batch[i] != batch[j])
    && (forall id :: id in batch ==> id in selected)
    && |batch| <= BATCH_LIMIT
    && (|batch| < BATCH_LIMIT ==> forall id :: id in selected ==> id in batch)
    && UrlSorted(store, batch)
    && AheadOf(store, batch, set id | id in selected && id !in batch)
  }

  // ---- The job itself ----

  class DeletionJob<W> {
    const cfg: Config
    const storageFor: (StorageType, string) -> Storage<W>
    var store: Store
    var world: W
    var ticks: nat
    var log: seq<Event<W>>

    ghost function Now(): State<W>
      reads this
    {
      State(store, world, ticks, log)
    }

    constructor (cfg: Config, storageFor: (StorageType, string) -> Storage<W>, store: Store, world: W)
      ensures Now() == State(store, world, 0, [])
      ensures this.cfg == cfg && this.storageFor == storageFor
    {
      this.cfg := cfg;
      this.storageFor := storageFor;
      this.store := store;
      this.world := world;
      this.ticks := 0;
      this.log := [];
    }

    method ReadClock() returns (now: int)
      modifies this`ticks
      ensures now == cfg.clock(old(ticks)) && ticks == old(ticks) + 1
    {
      now := cfg.clock(ticks);
      ticks := ticks + 1;
    }

    method MarkRetryFailed(ids: set<Id>, reason: string)
      modifies this`store, this`ticks
      ensures Now() == Retry(cfg, old(Now()), ids, reason)
      ensures CountedOnce(old(store), store, ids, cfg.clock(old(ticks)), reason, cfg.maxRetries)
    {
      var now := ReadClock();
      store := map id | id in store :: if id in ids then Counted(store[id], now, reason) else store[id];
      store := map id | id in store ::
        if id in ids && store[id].retryCount >= cfg.maxRetries then store[id].(status := Failed) else store[id];
      assert store == Retried(old(store), ids, now, reason, cfg.maxRetries);
      RetriedOnce(old(store), ids, now, reason, cfg.maxRetries);
    }

    method MarkFailed(ids: set<Id>, reason: string)
      modifies this`store, this`ticks
      ensures Now() == GiveUp(cfg, old(Now()), ids, reason)
      ensures FailedForGood(old(store), store, ids, cfg.clock(old(ticks)), reason)
    {
      var now := ReadClock();
      store := map id | id in store :: if id in ids then GivenUp(store[id], now, reason) else store[id];
    }

    /** The body of the chunk loop. */
    method DeleteChunk(st: Storage<W>, base: string, urls: seq<Item>, chunk: seq<Item>)
      modifies this
      ensures Now() == Chunk(cfg, st, base, IdsOf(urls), chunk, old(Now()))
    {
      var pathToIds: map<string, seq<Id>> := map[];
      var pairs: seq<(Id, string)> := [];
      var i := 0;
      ghost var start := Now();
      while i < |chunk|
        invariant 0 <= i <= |chunk|
        invariant Prepare(cfg, st, base, chunk[i..], Now(), pairs) == Prepare(cfg, st, base, chunk, start, [])
        invariant Indexed(pathToIds, pairs)
      {
        assert chunk[i..][0] == chunk[i] && chunk[i..][1..] == chunk[i + 1..];
        match st.path(base, chunk[i].url) {
          case Err(err) =>
            MarkFailed({chunk[i].id}, err);
          case Ok(path) =>
            IndexedExtends(pathToIds, pairs, chunk[i].id, path);
            pairs := pairs + [(chunk[i].id, path)];
            pathToIds := pathToIds[path := (if path in pathToIds then pathToIds[path] else []) + [chunk[i].id]];
        }
        i := i + 1;
      }
      assert chunk[i..] == [];
      if pairs == [] {
        return;
      }

      var before := world;
      var (after, outcome) := st.deleteMany(world, base, PathsOf(pairs));
      world := after;
      log := log + [Asked(IdsOf(urls), base, pairs, before, after, outcome)];
      match outcome {
        case Err(err) =>
          MarkRetryFailed(IdsOf(urls), err);
        case Ok(reply) =>
          SettleReply(pathToIds, pairs, reply);
      }
    }

    method SettleReply(pathToIds: map<string, seq<Id>>, pairs: seq<(Id, string)>, reply: Reply)
      requires Indexed(pathToIds, pairs)
      modifies this`store, this`ticks
      ensures Now() == Settle(cfg, pairs, reply, old(Now()))
    {
      var failedIds: set<Id> := {};
      var k := 0;
      while k < |reply.errors|
        invariant 0 <= k <= |reply.errors|
        invariant MarkErrors(cfg, pairs, reply.errors[k..], Now()) == MarkErrors(cfg, pairs, reply.errors, old(Now()))
        invariant failedIds == FailedIds(pairs, reply.errors[..k])
        invariant world == old(world) && log == old(log)
      {
        assert reply.errors[k..][0] == reply.errors[k] && reply.errors[k..][1..] == reply.errors[k + 1..];
        var errorIds := Lookup(pathToIds, reply.errors[k].1);
        LookupIsIdsAt(pathToIds, pairs, reply.errors[k].1);
        MarkRetryFailed(errorIds, reply.errors[k].0);
        FailedIdsSnoc(pairs, reply.errors, k);
        failedIds := failedIds + errorIds;
        k := k + 1;
      }
      assert reply.errors[k..] == [] && reply.errors[..k] == reply.errors;
      var deletedIds := Lookup(pathToIds, reply.deleted);
      LookupIsIdsAt(pathToIds, pairs, reply.deleted);
      if deletedIds != {} {
        store := store - deletedIds;
      } else {
        assert store - deletedIds == store;
      }
      var missing := AllIds(pairs) - deletedIds - failedIds;
      if missing != {} {
        MarkRetryFailed(missing, "Not succeeded");
      }
    }

    /** `delete_urls` on the records the query returned. */
    method DeleteUrls(st: Storage<W>, batch: seq<Id>)
      requires st.chunkSize > 0
      requires forall id :: id in batch ==> id in store
      modifies this
      ensures Now() == DeleteBatch(cfg, st, batch, old(Now()))
    {
      if batch == [] {
        return;
      }
      var groups := Bucketize(st, store, batch);
      var g := 0;
      while g < |groups|
        invariant 0 <= g <= |groups|
        invariant Groups(cfg, st, groups[g..], Now()) == Groups(cfg, st, groups, old(Now()))
      {
        assert groups[g..][0] == groups[g] && groups[g..][1..] == groups[g + 1..];
        DeleteGroup(st, groups[g].0, groups[g].1);
        g := g + 1;
      }
      assert groups[g..] == [];
    }

    /** The chunk loop over one connected group. */
    method DeleteChunks(st: Storage<W>, base: string, urls: seq<Item>)
      requires st.chunkSize > 0
      modifies this
      ensures Now() == Chunks(cfg, st, base, IdsOf(urls), urls, old(Now()))
    {
      ghost var group := IdsOf(urls);
      ghost var target := Chunks(cfg, st, base, group, urls, Now());
      var at := 0;
      assert urls[0..] == urls;
      while at < |urls|
        invariant 0 <= at <= |urls|
        invariant Chunks(cfg, st, base, group, urls[at..], Now()) == target
      {
        at := DeleteNext(st, base, urls, at);
      }
      assert urls[at..] == [];
    }

    /** The chunk that begins at a position; the next one begins where it ends. */
    method DeleteNext(st: Storage<W>, base: string, urls: seq<Item>, at: nat) returns (next: nat)
      requires st.chunkSize > 0 && at < |urls|
      modifies this
      ensures at < next <= |urls|
      ensures Chunks(cfg, st, base, IdsOf(urls), urls[next..], Now())
           == Chunks(cfg, st, base, IdsOf(urls), urls[at..], old(Now()))
    {
      var n := Min(st.chunkSize, |urls| - at);
      ChunksStep(cfg, st, base, IdsOf(urls), urls, at, Now());
      DeleteChunk(st, base, urls, urls[at..at + n]);
      next := at + n;
    }

    method DeleteGroup(st: Storage<W>, base: Option<string>, urls: seq<Item>)
      requires st.chunkSize > 0
      modifies this
      ensures Now() == Group(cfg, st, base, urls, old(Now()))
    {
      if base.None? || base.value == "" {
        MarkFailed(IdsOf(urls), st.invalid);
        return;
      }
      var before := world;
      var (after, failure) := st.connect(world, base.value);
      world := after;
      if failure.Some? {
        log := log + [Refused(IdsOf(urls), base.value, before, after)];
        MarkRetryFailed(IdsOf(urls), failure.value);
        return;
      }
      log := log + [Connected(base.value, before, after)];
      DeleteChunks(st, base.value, urls);
    }

    /** One turn of the endless loop: `batch` is what was handed to `delete_urls`, empty on an idle turn. */
    method Pass() returns (batch: seq<Id>)
      requires forall t, c :: storageFor(t, c).chunkSize > 0
      modifies this
      ensures batch == [] ==> Idle(cfg, old(Now()), Now())
      ensures batch != [] ==> exists t, c :: Works(cfg, storageFor(t, c), t, c, batch, old(Now()), Now())
    {
      var now := ReadClock();
      var due := set id | id in store && Due(cfg, store[id], now) && Handled(store[id]);
      if due == {} {
        forall id | id in store
          ensures !(Due(cfg, store[id], now) && Handled(store[id]))
        {
          assert id !in due;
        }
        return [];
      }
      var first := LeastRetried(due);
      var company, storageType := store[first].company, store[first].storageType;
      assert IsForemost(cfg, store, now, first);
      batch := Query(now, company, storageType);
      assert first in batch || |batch| == BATCH_LIMIT;
      DeleteUrls(storageFor(storageType, company), batch);
      assert Works(cfg, storageFor(storageType, company), storageType, company, batch, old(Now()), Now());
    }

    /** The first `turns` turns of the endless loop, with the states between them. */
    method RunDeleteLoop(turns: nat) returns (ghost states: seq<State<W>>)
      requires forall t, c :: storageFor(t, c).chunkSize > 0
      modifies this
      ensures |states| == turns + 1 && states[0] == old(Now()) && states[turns] == Now()
      ensures IsRun(cfg, storageFor, states)
    {
      states := [Now()];
      for turn := 0 to turns
        invariant |states| == turn + 1 && states[0] == old(Now()) && states[turn] == Now()
        invariant IsRun(cfg, storageFor, states)
      {
        var batch := Pass();
        states := states + [Now()];
      }
    }

    /** `order_by("retry_count").limit(1).first()` on a non-empty result. */
    method LeastRetried(ids: set<Id>) returns (least: Id)
      requires ids != {} && forall id :: id in ids ==> id in store
      ensures least in ids
      ensures forall id :: id in ids ==> store[least].retryCount <= store[id].retryCount
    {
      least :| least in ids;
      var rest := ids - {least};
      while rest != {}
        invariant least in ids && rest <= ids
        invariant forall id :: id in ids - rest ==> store[least].retryCount <= store[id].retryCount
        decreases rest
      {
        var id :| id in rest;
        if store[id].retryCount < store[least].retryCount {
          least := id;
        }
        rest := rest - {id};
      }
    }

    /** The first of some records by url. */
    method LeastUrl(ids: set<Id>) returns (least: Id)
      requires ids != {} && ids <= store.Keys
      ensures least in ids
      ensures forall id :: id in ids ==> UrlLe(store[least].url, store[id].url)
    {
      least :| least in ids;
      var rest := ids - {least};
      UrlLeTotal(store[least].url, store[least].url);
      while rest != {}
        invariant least in ids && rest <= ids
        invariant forall id :: id in ids - rest ==> UrlLe(store[least].url, store[id].url)
        decreases rest
      {
        var id :| id in rest;
        UrlLeTotal(store[least].url, store[id].url);
        if !UrlLe(store[least].url, store[id].url) {
          forall other | other in ids - rest ensures UrlLe(store[id].url, store[other].url) {
            UrlLeTransitive(store[id].url, store[least].url, store[other].url);
          }
          UrlLeTotal(store[id].url, store[id].url);
          least := id;
        }
        rest := rest - {id};
      }
    }

    method Query(now: int, company: string, storageType: StorageType) returns (batch: seq<Id>)
      ensures IsBatch(cfg, store, now, company, storageType, batch)
    {
      ghost var all := SelectedIds(cfg, store, now, company, storageType);
      var rest := set id | id in store && Selected(cfg, store[id], now, company, storageType);
      batch := [];
      while rest != {} && |batch| < BATCH_LIMIT
        invariant rest <= all && |batch| <= BATCH_LIMIT
        invariant forall id :: id in batch <==> id in all - rest
        invariant forall i, j :: 0 <= i < j < |batch| ==> batch[i] != batch[j]
        invariant UrlSorted(store, batch) && AheadOf(store, batch, rest)
        decreases rest
      {
        var id := LeastUrl(rest);
        assert id !in batch;
        batch := batch + [id];
        rest := rest - {id};
      }
      assert rest == set id | id in all && id !in batch;
    }
  }

  /** The chunks from a position on are the next chunk and the chunks after it. */
  lemma ChunksStep<W>(cfg: Config, st: Storage<W>, base: string, group: set<Id>, urls: seq<Item>, at: nat, s: State<W>)
    requires st.chunkSize > 0 && at < |urls|
    ensures var n := Min(st.chunkSize, |urls| - at);
            Chunks(cfg, st, base, group, urls[at..], s)
            == Chunks(cfg, st, base, group, urls[at + n..], Chunk(cfg, st, base, group, urls[at..at + n], s))
  {
    var n := Min(st.chunkSize, |urls| - at);
    assert urls[at..][..n] == urls[at..at + n] && urls[at..][n..] == urls[at + n..];
  }

  // ---- One turn as a relation ----

  ghost predicate Idle<W>(cfg: Config, s: State<W>, s': State<W>) {
    && s' == s.(ticks := s.ticks + 1)
    && forall id :: id in s.store ==> !(Due(cfg, s.store[id], cfg.clock(s.ticks)) && Handled(s.store[id]))
  }

  /** The company and storage type are those of a due record with the least retries. */
  ghost predicate Foremost(cfg: Config, store: Store, now: int, company: string, storageType: StorageType) {
    exists first :: first in store && IsForemost(cfg, store, now, first)
      && company == store[first].company && storageType == store[first].storageType
  }

  predicate IsForemost(cfg: Config, store: Store, now: int, first: Id)
    requires first in store
  {
    && Due(cfg, store[first], now) && Handled(store[first])
    && forall id :: id in store && Due(cfg, store[id], now) && Handled(store[id]) ==>
         store[first].retryCount <= store[id].retryCount
  }

  ghost predicate Works<W>(
    cfg: Config, st: Storage<W>, storageType: StorageType, company: string, batch: seq<Id>, s: State<W>, s': State<W>)
  {
    var now := cfg.clock(s.ticks);
    && st.chunkSize > 0
    && batch != []
    && Foremost(cfg, s.store, now, company, storageType)
    && IsBatch(cfg, s.store, now, company, storageType, batch)
    && s' == DeleteBatch(cfg, st, batch, s.(ticks := s.ticks + 1))
  }

  ghost predicate WorkingTurn<W>(
    cfg: Config, storageFor: (StorageType, string) -> Storage<W>, s: State<W>, s': State<W>)
  {
    exists t, c, batch :: Works(cfg, storageFor(t, c), t, c, batch, s, s')
  }

  /** No record is added by anybody else between two turns. */
  ghost predicate IsRun<W>(cfg: Config, storageFor: (StorageType, string) -> Storage<W>, states: seq<State<W>>) {
    && states != []
    && forall i :: 0 <= i < |states| - 1 ==>
         Idle(cfg, states[i], states[i + 1]) || WorkingTurn(cfg, storageFor, states[i], states[i + 1])
  }

  // ---- The path index of a chunk ----

  /** `path_to_id_mapping` holds, under each path, exactly the ids collected with it. */
  ghost predicate Indexed(index: map<string, seq<Id>>, pairs: seq<(Id, string)>) {
    forall id, path :: (path in index && id in index[path]) <==> (id, path) in pairs
  }

  function Lookup(index: map<string, seq<Id>>, paths: seq<string>): set<Id> {
    set path, id | path in paths && path in index && id in index[path] :: id
  }

  lemma LookupIsIdsAt(index: map<string, seq<Id>>, pairs: seq<(Id, string)>, paths: seq<string>)
    requires Indexed(index, pairs)
    ensures Lookup(index, paths) == IdsAt(pairs, paths)
  {
    forall id | id in IdsAt(pairs, paths)
      ensures id in Lookup(index, paths)
    {
      var pair :| pair in pairs && pair.1 in paths && pair.0 == id;
      assert (id, pair.1) in pairs;
    }
    forall id | id in Lookup(index, paths)
      ensures id in IdsAt(pairs, paths)
    {
      var path :| path in paths && path in index && id in index[path];
      assert (id, path) in pairs;
    }
  }

  lemma IndexedExtends(index: map<string, seq<Id>>, pairs: seq<(Id, string)>, newId: Id, newPath: string)
    requires Indexed(index, pairs)
    ensures Indexed(index[newPath := (if newPath in index then index[newPath] else []) + [newId]], pairs + [(newId, newPath)])
  {
    var index' := index[newPath := (if newPath in index then index[newPath] else []) + [newId]];
    var pairs' := pairs + [(newId, newPath)];
    forall id, path
      ensures (path in index' && id in index'[path]) <==> (id, path) in pairs'
    {
      assert (path in index && id in index[path]) <==> (id, path) in pairs;
    }
  }

  lemma FailedIdsSnoc(pairs: seq<(Id, string)>, errors: seq<(string, seq<string>)>, k: nat)
    requires k < |errors|
    ensures FailedIds(pairs, errors[..k + 1]) == FailedIds(pairs, errors[..k]) + IdsAt(pairs, errors[k].1)
  {
    var shorter, longer := errors[..k], errors[..k + 1];
    assert longer == shorter + [errors[k]];
    forall id | id in FailedIds(pairs, shorter) + IdsAt(pairs, errors[k].1)
      ensures id in FailedIds(pairs, longer)
    {
      if id in IdsAt(pairs, errors[k].1) {
        assert errors[k] in longer;
      } else {
        var pair, err :| pair in pairs && err in shorter && pair.1 in err.1 && pair.0 == id;
        assert err in longer;
      }
    }
  }
}
