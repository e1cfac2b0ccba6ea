/**
  How high one call can count a record, over all that clients can answer.

  A client counts a record more often than it was asked about when its reply names the record's path under several
  reasons. What a class of clients may do there is a cap: under how many reasons a request's reply names a path.
 */
module UrlDeletionCounts {
  import opened Common
  import opened UrlDeletion
  import opened UrlDeletionLaws
  import opened UrlDeletionBounds

  // ---- Reasons ----

  /** Under how many reasons the path is reported. */
  function Naming(errors: seq<(string, seq<string>)>, path: string): nat {
    if errors == [] then 0 else (if path in errors[0].1 then 1 else 0) + Naming(errors[1..], path)
  }

  /** How often the path is asked for. */
  function Occurs(paths: seq<string>, path: string): nat {
    if paths == [] then 0 else (if paths[0] == path then 1 else 0) + Occurs(paths[1..], path)
  }

  /** At most how many reasons a reply to these paths gives for one of them. */
  type Cap = (seq<string>, string) -> nat

  ghost predicate Within<W(!new)>(st: Storage<W>, cap: Cap) {
    forall w, base, paths, path :: st.deleteMany(w, base, paths).1.Ok? && path in paths ==>
      Naming(st.deleteMany(w, base, paths).1.value.errors, path) <= cap(paths, path)
  }

  /** A reply names each path under one reason at most. */
  ghost predicate Tidy(reply: Reply) {
    forall path :: Naming(reply.errors, path) <= 1
  }

  ghost predicate TidyClient<W(!new)>(st: Storage<W>) {
    forall w, base, paths :: st.deleteMany(w, base, paths).1.Ok? ==> Tidy(st.deleteMany(w, base, paths).1.value)
  }

  function One(paths: seq<string>, path: string): nat {
    1
  }

  // ---- What is known before the call ----

  function Max(a: nat, b: nat): nat {
    if a >= b then a else b
  }

  /** The most that one request counts against a record of its group: all reasons its own path can get, or one exception. */
  function Exposed(cap: Cap, pairs: seq<(Id, string)>, id: Id, path: string): nat {
    if id in AllIds(pairs) then Max(1, cap(PathsOf(pairs), path)) else 1
  }

  function ChunksExposure<W>(st: Storage<W>, cap: Cap, base: string, items: seq<Item>, id: Id, path: string): nat
    requires st.chunkSize > 0
    decreases |items|
  {
    if items == [] then 0
    else
      var n := Min(st.chunkSize, |items|);
      var pairs := PairsOf(st, base, items[..n]);
      (if pairs == [] then 0 else Exposed(cap, pairs, id, path)) + ChunksExposure(st, cap, base, items[n..], id, path)
  }

  function PathOr<W>(st: Storage<W>, base: string, url: string): string {
    match st.path(base, url) case Ok(path) => path case Err(_) => ""
  }

  /** The most that one call counts against the record, from its group's chunks and paths alone. */
  function Exposure<W>(st: Storage<W>, cap: Cap, store: Store, batch: seq<Id>, id: Id): nat
    requires st.chunkSize > 0
    requires (forall x :: x in batch ==> x in store) && id in store
  {
    var (key, url) := st.resolve(store[id].url);
    if key.None? || key.value == "" then 0
    else ChunksExposure(st, cap, key.value, GroupOf(st, store, batch, key), id, PathOr(st, key.value, url))
  }

  // ---- One request ----

  /** All pairs of the id have the path. */
  predicate OwnPairs(pairs: seq<(Id, string)>, id: Id, path: string) {
    forall pair :: pair in pairs && pair.0 == id ==> pair.1 == path
  }

  lemma AtOwnPath(pairs: seq<(Id, string)>, paths: seq<string>, id: Id, path: string)
    requires OwnPairs(pairs, id, path)
    ensures id in IdsAt(pairs, paths) <==> id in AllIds(pairs) && path in paths
  {
    if id in AllIds(pairs) && path in paths {
      var pair :| pair in pairs && pair.0 == id;
      assert pair.1 in paths;
    }
  }

  lemma {:induction false} NamedIsNaming(pairs: seq<(Id, string)>, errors: seq<(string, seq<string>)>, id: Id, path: string)
    requires OwnPairs(pairs, id, path)
    ensures NamedIn(pairs, errors, id) == if id in AllIds(pairs) then Naming(errors, path) else 0
    ensures id in FailedIds(pairs, errors) <==> NamedIn(pairs, errors, id) > 0
  {
    if errors != [] {
      AtOwnPath(pairs, errors[0].1, id, path);
      FailedIdsCons(pairs, errors, id);
      NamedIsNaming(pairs, errors[1..], id, path);
    }
  }

  lemma OwnPathAsked(pairs: seq<(Id, string)>, id: Id, path: string)
    requires OwnPairs(pairs, id, path) && id in AllIds(pairs)
    ensures path in PathsOf(pairs)
  {
    var pair :| pair in pairs && pair.0 == id;
    var i :| 0 <= i < |pairs| && pairs[i] == pair;
    assert PathsOf(pairs)[i] == path;
  }

  /** A reply that deletes nothing counts the reasons of the record's path, or once when there is none. */
  lemma ReplyCharge<W>(event: Event<W>, id: Id, path: string)
    requires event.Asked? && event.outcome.Ok? && OwnPairs(event.pairs, id, path)
    ensures Charge(event, id) <= if id in AllIds(event.pairs) then Max(1, Naming(event.outcome.value.errors, path)) else 0
    ensures id in AllIds(event.pairs) && event.outcome.value.deleted == [] ==>
              Charge(event, id) == Max(1, Naming(event.outcome.value.errors, path))
  {
    NamedIsNaming(event.pairs, event.outcome.value.errors, id, path);
  }

  lemma AskedCharge<W(!new)>(
    st: Storage<W>, cap: Cap, base: string, group: set<Id>, pairs: seq<(Id, string)>, w: W, id: Id, path: string)
    requires Within(st, cap) && OwnPairs(pairs, id, path) && id in group
    ensures Charge(AskedOf(st, base, group, pairs, w), id) <= Exposed(cap, pairs, id, path)
  {
    var event := AskedOf(st, base, group, pairs, w);
    if event.outcome.Ok? {
      ReplyCharge(event, id, path);
      if id in AllIds(pairs) {
        OwnPathAsked(pairs, id, path);
        assert Naming(event.outcome.value.errors, path) <= cap(PathsOf(pairs), path);
      }
    }
  }

  // ---- The record's own group ----

  /** All items of the id have the path, if they have one. */
  predicate OwnItems<W>(st: Storage<W>, base: string, items: seq<Item>, id: Id, path: string) {
    forall item :: item in items && item.id == id && st.path(base, item.url).Ok? ==> st.path(base, item.url).value == path
  }

  lemma {:induction false} PairsOwn<W>(st: Storage<W>, base: string, items: seq<Item>, id: Id, path: string)
    requires OwnItems(st, base, items, id, path)
    ensures OwnPairs(PairsOf(st, base, items), id, path)
  {
    if items != [] {
      assert items[0] in items;
      assert forall item :: item in items[1..] ==> item in items;
      PairsOwn(st, base, items[1..], id, path);
    }
  }

  lemma OwnSplit<W>(st: Storage<W>, base: string, items: seq<Item>, n: nat, id: Id, path: string)
    requires OwnItems(st, base, items, id, path) && n <= |items|
    ensures OwnItems(st, base, items[..n], id, path) && OwnItems(st, base, items[n..], id, path)
  {
    assert forall item :: item in items[..n] || item in items[n..] ==> item in items;
  }

  lemma {:induction false} GroupOwn<W>(st: Storage<W>, store: Store, batch: seq<Id>, key: Option<string>, base: string, id: Id)
    requires (forall x :: x in batch ==> x in store) && id in store
    ensures OwnItems(st, base, GroupOf(st, store, batch, key), id, PathOr(st, base, st.resolve(store[id].url).1))
  {
    if batch != [] {
      GroupOwn(st, store, batch[..|batch| - 1], key, base, id);
    }
  }

  lemma {:induction false} ChunkCharges<W(!new)>(
    st: Storage<W>, cap: Cap, base: string, group: set<Id>, items: seq<Item>, w: W, id: Id, path: string)
    requires st.chunkSize > 0 && Within(st, cap) && OwnItems(st, base, items, id, path) && id in group
    ensures Charges(ChunkEvents(st, base, group, items, w), id) <= ChunksExposure(st, cap, base, items, id, path)
    decreases |items|
  {
    if items != [] {
      var n := Min(st.chunkSize, |items|);
      OwnSplit(st, base, items, n, id, path);
      var pairs := PairsOf(st, base, items[..n]);
      if pairs == [] {
        ChunkCharges(st, cap, base, group, items[n..], w, id, path);
      } else {
        var event := AskedOf(st, base, group, pairs, w);
        var rest := ChunkEvents(st, base, group, items[n..], event.after);
        PairsOwn(st, base, items[..n], id, path);
        AskedCharge(st, cap, base, group, pairs, w, id, path);
        ChunkCharges(st, cap, base, group, items[n..], event.after, id, path);
        assert ([event] + rest)[1..] == rest;
      }
    }
  }

  lemma GroupCharges<W(!new)>(st: Storage<W>, cap: Cap, base: string, items: seq<Item>, w: W, id: Id, path: string)
    requires st.chunkSize > 0 && Within(st, cap) && OwnItems(st, base, items, id, path)
    requires base != "" && id in IdsOf(items)
    ensures Charges(GroupEvents(st, Some(base), items, w), id) <= Max(1, ChunksExposure(st, cap, base, items, id, path))
  {
    var (after, failure) := st.connect(w, base);
    if failure.Some? {
      assert [Refused(IdsOf(items), base, w, after)][1..] == [];
    } else {
      var rest := ChunkEvents(st, base, IdsOf(items), items, after);
      ChunkCharges(st, cap, base, IdsOf(items), items, after, id, path);
      assert ([Connected(base, w, after)] + rest)[1..] == rest;
    }
  }

  // ---- The other groups ----

  lemma {:induction false} ChunksSpare<W>(st: Storage<W>, base: string, group: set<Id>, items: seq<Item>, w: W, id: Id)
    requires st.chunkSize > 0 && IdsOf(items) <= group && id !in group
    ensures Charges(ChunkEvents(st, base, group, items, w), id) == 0
    decreases |items|
  {
    if items != [] {
      var n := Min(st.chunkSize, |items|);
      assert forall item :: item in items[..n] || item in items[n..] ==> item in items;
      assert IdsOf(items[..n]) <= IdsOf(items) && IdsOf(items[n..]) <= IdsOf(items);
      var pairs := PairsOf(st, base, items[..n]);
      if pairs == [] {
        ChunksSpare(st, base, group, items[n..], w, id);
      } else {
        var event := AskedOf(st, base, group, pairs, w);
        var rest := ChunkEvents(st, base, group, items[n..], event.after);
        PairsAreOf(st, base, items[..n]);
        if event.outcome.Ok? {
          ReplyCharge(event, id, "");
        }
        ChunksSpare(st, base, group, items[n..], event.after, id);
        assert ([event] + rest)[1..] == rest;
      }
    }
  }

  lemma GroupSpares<W>(st: Storage<W>, base: Option<string>, items: seq<Item>, w: W, id: Id)
    requires st.chunkSize > 0 && id !in IdsOf(items)
    ensures Charges(GroupEvents(st, base, items, w), id) == 0
  {
    if base.Some? && base.value != "" {
      var (after, failure) := st.connect(w, base.value);
      if failure.Some? {
        assert [Refused(IdsOf(items), base.value, w, after)][1..] == [];
      } else {
        var rest := ChunkEvents(st, base.value, IdsOf(items), items, after);
        ChunksSpare(st, base.value, IdsOf(items), items, after, id);
        assert ([Connected(base.value, w, after)] + rest)[1..] == rest;
      }
    }
  }

  lemma {:induction false} GroupsSpare<W>(st: Storage<W>, groups: Buckets, w: W, id: Id)
    requires st.chunkSize > 0
    requires forall i :: 0 <= i < |groups| ==> id !in IdsOf(groups[i].1)
    ensures Charges(GroupsEvents(st, groups, w), id) == 0
  {
    if groups != [] {
      var first := GroupEvents(st, groups[0].0, groups[0].1, w);
      GroupSpares(st, groups[0].0, groups[0].1, w, id);
      GroupsSpare(st, groups[1..], Last(first, w), id);
      ChargesConcat(first, GroupsEvents(st, groups[1..], Last(first, w)), id);
    }
  }

  /** All groups that are worked on have the key. */
  ghost predicate OneKey(groups: Buckets, key: Option<string>) {
    forall i :: 0 <= i < |groups| ==> groups[i].0 == key || groups[i].0.None?
  }

  /** Only the record's own group counts, at some state of the remote side. */
  lemma {:induction false} OwnGroupCharges<W>(st: Storage<W>, groups: Buckets, w: W, key: Option<string>, id: Id) returns (at: W)
    requires st.chunkSize > 0 && WellBucketed(groups) && OnlyUnder(groups, key, id) && BucketOf(groups, key) != []
    ensures Charges(GroupsEvents(st, groups, w), id) == Charges(GroupEvents(st, key, BucketOf(groups, key), at), id)
    ensures OneKey(groups, key) ==> at == w
  {
    var first := GroupEvents(st, groups[0].0, groups[0].1, w);
    var rest := GroupsEvents(st, groups[1..], Last(first, w));
    TailBuckets(groups, key, id);
    ChargesConcat(first, rest, id);
    if groups[0].0 == key {
      forall i | 0 <= i < |groups[1..]| ensures id !in IdsOf(groups[1..][i].1) {
        assert groups[1..][i].0 != key;
      }
      GroupsSpare(st, groups[1..], Last(first, w), id);
      at := w;
    } else {
      GroupSpares(st, groups[0].0, groups[0].1, w, id);
      at := OwnGroupCharges(st, groups[1..], Last(first, w), key, id);
    }
  }

  lemma {:induction false} KeyAdded(buckets: Buckets, key: Option<string>, item: Item, only: Option<string>)
    requires OneKey(buckets, only) && (key == only || key.None?)
    ensures OneKey(AddToBucket(buckets, key, item), only)
  {
    if buckets != [] && buckets[0].0 != key {
      assert forall i :: 0 <= i < |buckets[1..]| ==> buckets[1..][i] == buckets[i + 1];
      KeyAdded(buckets[1..], key, item, only);
    }
  }

  lemma {:induction false} KeysResolve<W>(st: Storage<W>, store: Store, batch: seq<Id>, key: Option<string>)
    requires forall id :: id in batch ==> id in store
    requires forall url :: st.resolve(url).0 == key || st.resolve(url).0.None?
    ensures OneKey(Bucketize(st, store, batch), key)
  {
    if batch != [] {
      var n := |batch| - 1;
      var (base, url) := st.resolve(store[batch[n]].url);
      KeysResolve(st, store, batch[..n], key);
      KeyAdded(Bucketize(st, store, batch[..n]), base, Item(batch[n], url), key);
    }
  }

  lemma BatchCharges<W>(st: Storage<W>, batch: seq<Id>, s: State<W>, id: Id) returns (at: W)
    requires st.chunkSize > 0 && (forall x :: x in batch ==> x in s.store) && id in batch
    ensures var key := st.resolve(s.store[id].url).0;
            var items := GroupOf(st, s.store, batch, key);
            && id in IdsOf(items)
            && Charges(BatchEvents(st, batch, s), id) == Charges(GroupEvents(st, key, items, at), id)
            && ((forall url :: st.resolve(url).0 == key || st.resolve(url).0.None?) ==> at == s.world)
  {
    var key := st.resolve(s.store[id].url).0;
    var groups := Bucketize(st, s.store, batch);
    if forall url :: st.resolve(url).0 == key || st.resolve(url).0.None? {
      KeysResolve(st, s.store, batch, key);
    }
    OwnBucketOnly(st, s.store, batch, id);
    BucketizeGroups(st, s.store, batch, key);
    GroupHolds(st, s.store, batch, key, id);
    at := OwnGroupCharges(st, groups, s.world, key, id);
  }

  // ---- The bound ----

  /** In this call the record is removed, or counted at most `n` times. */
  ghost predicate CountedAtMost<W(!new)>(cfg: Config, st: Storage<W>, batch: seq<Id>, s: State<W>, id: Id, n: nat)
    requires st.chunkSize > 0 && (forall x :: x in batch ==> x in s.store) && id in s.store
  {
    var s' := DeleteBatch(cfg, st, batch, s);
    id in s'.store ==> s'.store[id].retryCount <= s.store[id].retryCount + n
  }

  /** Whatever the clients of the class do, one call counts a record at most as often as it is exposed, or once. */
  lemma CountsWithin<W(!new)>(cfg: Config, st: Storage<W>, cap: Cap, batch: seq<Id>, s: State<W>, id: Id)
    requires st.chunkSize > 0 && (forall x :: x in batch ==> x in s.store) && id in batch && Within(st, cap)
    ensures CountedAtMost(cfg, st, batch, s, id, Max(1, Exposure(st, cap, s.store, batch, id)))
  {
    var (key, url) := st.resolve(s.store[id].url);
    var at := BatchCharges(st, batch, s, id);
    BatchNews(cfg, st, batch, s);
    RetryCountExact(cfg, st, batch, s, id);
    if key.Some? && key.value != "" {
      GroupOwn(st, s.store, batch, key, key.value, id);
      GroupCharges(st, cap, key.value, GroupOf(st, s.store, batch, key), at, id, PathOr(st, key.value, url));
    }
  }

  // ---- A client that reaches it ----

  /** So many reasons, each for the path. */
  function Reasons(path: string, n: nat): seq<(string, seq<string>)> {
    if n == 0 then [] else [(Unary(n), [path])] + Reasons(path, n - 1)
  }

  lemma ReasonsName(path: string, n: nat, other: string)
    ensures Naming(Reasons(path, n), other) == if other == path then n else 0
  {
  }

  /** For each chunk with a path whether it asks for the record. */
  function Turns<W>(st: Storage<W>, base: string, items: seq<Item>, id: Id): seq<bool>
    requires st.chunkSize > 0
    decreases |items|
  {
    if items == [] then []
    else
      var n := Min(st.chunkSize, |items|);
      var pairs := PairsOf(st, base, items[..n]);
      (if pairs == [] then [] else [id in AllIds(pairs)]) + Turns(st, base, items[n..], id)
  }

  function Restart(w: nat, base: string): (nat, Option<string>) {
    (0, None)
  }

  function Spite(cap: Cap, turns: seq<bool>, path: string, w: nat, paths: seq<string>): (nat, Result<Reply, string>) {
    (w + 1, if w < |turns| && turns[w] then Ok(Reply([], Reasons(path, cap(paths, path)))) else Err("raised"))
  }

  /**
    A client that counts the requests since it was connected. In its turns it names the path under as many reasons as
    it may, in all others it raises.
   */
  function Spiteful<W>(st: Storage<W>, cap: Cap, turns: seq<bool>, path: string): Storage<nat> {
    Storage(st.invalid, st.resolve, Restart, st.chunkSize, st.path,
            (w: nat, base, paths) => Spite(cap, turns, path, w, paths))
  }

  lemma SpitefulWithin<W(!new)>(st: Storage<W>, cap: Cap, turns: seq<bool>, path: string)
    ensures SameStorage(st, Spiteful(st, cap, turns, path)) && Within(Spiteful(st, cap, turns, path), cap)
  {
    forall paths, other
      ensures Naming(Reasons(path, cap(paths, path)), other) == if other == path then cap(paths, path) else 0
    {
      ReasonsName(path, cap(paths, path), other);
    }
  }

  /** The client's turns left when it was asked `w` times. */
  ghost predicate TurnsFrom<W>(st: Storage<W>, base: string, items: seq<Item>, id: Id, turns: seq<bool>, w: nat)
    requires st.chunkSize > 0
  {
    w <= |turns| && turns[w..] == Turns(st, base, items, id)
  }

  lemma SpitefulCharge<W>(
    st: Storage<W>, cap: Cap, turns: seq<bool>, base: string, group: set<Id>, pairs: seq<(Id, string)>, w: nat, id: Id, path: string)
    requires OwnPairs(pairs, id, path) && id in group && w < |turns| && turns[w] == (id in AllIds(pairs))
    ensures Charge(AskedOf(Spiteful(st, cap, turns, path), base, group, pairs, w), id) == Exposed(cap, pairs, id, path)
  {
    if turns[w] {
      ReplyCharge(AskedOf(Spiteful(st, cap, turns, path), base, group, pairs, w), id, path);
      ReasonsName(path, cap(PathsOf(pairs), path), path);
    }
  }

  lemma {:induction false} SpitefulCharges<W(!new)>(
    st: Storage<W>, cap: Cap, turns: seq<bool>, base: string, group: set<Id>, items: seq<Item>, w: nat, id: Id, path: string)
    requires st.chunkSize > 0 && OwnItems(st, base, items, id, path) && id in group
    requires TurnsFrom(st, base, items, id, turns, w)
    ensures Charges(ChunkEvents(Spiteful(st, cap, turns, path), base, group, items, w), id)
         == ChunksExposure(st, cap, base, items, id, path)
    decreases |items|
  {
    var other := Spiteful(st, cap, turns, path);
    if items != [] {
      var n := Min(st.chunkSize, |items|);
      OwnSplit(st, base, items, n, id, path);
      SpitefulWithin(st, cap, turns, path);
      PairsSame(st, other, base, items[..n]);
      var pairs := PairsOf(st, base, items[..n]);
      if pairs == [] {
        SpitefulCharges(st, cap, turns, base, group, items[n..], w, id, path);
      } else {
        var event := AskedOf(other, base, group, pairs, w);
        var rest := ChunkEvents(other, base, group, items[n..], w + 1);
        PairsOwn(st, base, items[..n], id, path);
        assert turns[w] == turns[w..][0] && turns[w + 1..] == turns[w..][1..];
        SpitefulCharge(st, cap, turns, base, group, pairs, w, id, path);
        SpitefulCharges(st, cap, turns, base, group, items[n..], w + 1, id, path);
        assert ([event] + rest)[1..] == rest;
      }
    }
  }

  /** It deletes nothing, so a record of the batch stays and is counted as often as it is exposed. */
  lemma SpitefulCounts<W(!new)>(cfg: Config, st: Storage<W>, cap: Cap, batch: seq<Id>, s: State<nat>, id: Id) returns (other: Storage<nat>)
    requires st.chunkSize > 0 && (forall x :: x in batch ==> x in s.store) && id in batch
    ensures SameStorage(st, other) && Within(other, cap)
    ensures var s' := DeleteBatch(cfg, other, batch, s);
            id in s'.store && s'.store[id].retryCount == s.store[id].retryCount + Exposure(st, cap, s.store, batch, id)
  {
    var (key, url) := st.resolve(s.store[id].url);
    var items := GroupOf(st, s.store, batch, key);
    var base := if key.Some? then key.value else "";
    var path := PathOr(st, base, url);
    var turns := Turns(st, base, items, id);
    other := Spiteful(st, cap, turns, path);
    SpitefulWithin(st, cap, turns, path);
    GroupSame(st, other, s.store, batch, key);
    GroupOwn(st, s.store, batch, key, base, id);
    var at := BatchCharges(other, batch, s, id);
    if base != "" {
      SpitefulCharges(st, cap, turns, base, IdsOf(items), items, 0, id, path);
      var rest := ChunkEvents(other, base, IdsOf(items), items, 0);
      assert ([Connected(base, at, 0)] + rest)[1..] == rest;
    }
    BatchNews(cfg, other, batch, s);
    NothingDeleted(cfg, other, batch, s, id);
    RetryCountExact(cfg, other, batch, s, id);
  }

  /** A client that never reports a deletion removes no record. */
  lemma NothingDeleted<W(!new)>(cfg: Config, st: Storage<W>, batch: seq<Id>, s: State<W>, id: Id)
    requires st.chunkSize > 0 && (forall x :: x in batch ==> x in s.store) && id in s.store
    requires forall w, base, paths :: st.deleteMany(w, base, paths).1.Ok? ==> st.deleteMany(w, base, paths).1.value.deleted == []
    ensures id in DeleteBatch(cfg, st, batch, s).store
  {
    BatchEvolves(cfg, st, batch, s);
    RemovedIffReported(cfg, st, batch, s, id);
    var events := News(s, DeleteBatch(cfg, st, batch, s));
    forall k | 0 <= k < |events| ensures !Deletes(events[k], id) {
      assert Genuine(st, Loaded(st, s.store, batch), events[k]);
    }
  }

  // ---- The exact bounds ----

  /** Over all clients of a class one call counts a record at most `n` times exactly when it is exposed to no more. */
  lemma CountsIff<W(!new)>(cfg: Config, st: Storage<W>, cap: Cap, batch: seq<Id>, s: State<nat>, id: Id, n: nat)
    requires st.chunkSize > 0 && (forall x :: x in batch ==> x in s.store) && id in batch && n >= 1
    ensures (forall other: Storage<nat> :: SameStorage(st, other) && Within(other, cap) ==>
              CountedAtMost(cfg, other, batch, s, id, n))
       <==> Exposure(st, cap, s.store, batch, id) <= n
  {
    if Exposure(st, cap, s.store, batch, id) <= n {
      forall other: Storage<nat> | SameStorage(st, other) && Within(other, cap)
        ensures CountedAtMost(cfg, other, batch, s, id, n)
      {
        ExposureSame(st, other, cap, s.store, batch, id);
        CountsWithin(cfg, other, cap, batch, s, id);
      }
    } else {
      var other := SpitefulCounts(cfg, st, cap, batch, s, id);
      assert !CountedAtMost(cfg, other, batch, s, id, n);
    }
  }

  lemma {:induction false} ChunksExposureSame<W(!new), V(!new)>(
    st: Storage<W>, other: Storage<V>, cap: Cap, base: string, items: seq<Item>, id: Id, path: string)
    requires SameStorage(st, other) && st.chunkSize > 0
    ensures ChunksExposure(other, cap, base, items, id, path) == ChunksExposure(st, cap, base, items, id, path)
    decreases |items|
  {
    if items != [] {
      var n := Min(st.chunkSize, |items|);
      PairsSame(st, other, base, items[..n]);
      ChunksExposureSame(st, other, cap, base, items[n..], id, path);
    }
  }

  lemma ExposureSame<W(!new), V(!new)>(st: Storage<W>, other: Storage<V>, cap: Cap, store: Store, batch: seq<Id>, id: Id)
    requires SameStorage(st, other) && st.chunkSize > 0
    requires (forall x :: x in batch ==> x in store) && id in store
    ensures Exposure(other, cap, store, batch, id) == Exposure(st, cap, store, batch, id)
  {
    var (key, url) := st.resolve(store[id].url);
    GroupSame(st, other, store, batch, key);
    if key.Some? && key.value != "" {
      ChunksExposureSame(st, other, cap, key.value, GroupOf(st, store, batch, key), id, PathOr(st, key.value, url));
    }
  }

  /** The retry count stays within the maximum. */
  ghost predicate StaysWithin<W(!new)>(cfg: Config, st: Storage<W>, batch: seq<Id>, s: State<W>, id: Id)
    requires st.chunkSize > 0 && (forall x :: x in batch ==> x in s.store) && id in s.store
  {
    var s' := DeleteBatch(cfg, st, batch, s);
    id in s'.store ==> s'.store[id].retryCount <= cfg.maxRetries
  }

  /**
    `max_retries` bounds the count of a record that still has retries left, whatever the clients of a class do, exactly
    when the record's count and what it is exposed to stay within it.
   */
  lemma MaxRetriesBoundsIff<W(!new)>(cfg: Config, st: Storage<W>, cap: Cap, batch: seq<Id>, s: State<nat>, id: Id)
    requires st.chunkSize > 0 && (forall x :: x in batch ==> x in s.store) && id in batch
    requires s.store[id].retryCount < cfg.maxRetries
    ensures (forall other: Storage<nat> :: SameStorage(st, other) && Within(other, cap) ==> StaysWithin(cfg, other, batch, s, id))
       <==> s.store[id].retryCount + Exposure(st, cap, s.store, batch, id) <= cfg.maxRetries
  {
    var n: nat := cfg.maxRetries - s.store[id].retryCount;
    CountsIff(cfg, st, cap, batch, s, id, n);
    forall other: Storage<nat> | SameStorage(st, other)
      ensures StaysWithin(cfg, other, batch, s, id) <==> CountedAtMost(cfg, other, batch, s, id, n)
    {
    }
  }

  // ---- Clients that give one reason ----

  lemma {:induction false} OneReasonChunks<W>(st: Storage<W>, base: string, items: seq<Item>, id: Id, path: string)
    requires st.chunkSize > 0
    ensures ChunksExposure(st, One, base, items, id, path) == AskingChunks(st, base, items)
    decreases |items|
  {
    if items != [] {
      OneReasonChunks(st, base, items[Min(st.chunkSize, |items|)..], id, path);
    }
  }

  /** With clients that name a path under one reason at most, every chunk with a path counts once. */
  lemma TidyCountsIff<W(!new)>(cfg: Config, st: Storage<W>, batch: seq<Id>, s: State<W>, id: Id, n: nat)
    requires st.chunkSize > 0 && (forall x :: x in batch ==> x in s.store) && id in batch && n >= 1
    ensures Exposure(st, One, s.store, batch, id) == Asking(st, s.store, batch, id)
    ensures (forall other: Storage<W> :: SameStorage(st, other) && TidyClient(other) ==>
              CountedAtMost(cfg, other, batch, s, id, n))
       <==> Asking(st, s.store, batch, id) <= n
  {
    var (key, url) := st.resolve(s.store[id].url);
    if key.Some? && key.value != "" {
      OneReasonChunks(st, key.value, GroupOf(st, s.store, batch, key), id, PathOr(st, key.value, url));
    }
    if Asking(st, s.store, batch, id) <= n {
      forall other: Storage<W> | SameStorage(st, other) && TidyClient(other)
        ensures CountedAtMost(cfg, other, batch, s, id, n)
      {
        ExposureSame(st, other, One, s.store, batch, id);
        CountsWithin(cfg, other, One, batch, s, id);
      }
    } else {
      RaisingStorage(st);
      AskingSame(st, Raising(st), s.store, batch, id);
      RaisingCounts(cfg, Raising(st), batch, s, id);
      assert !CountedAtMost(cfg, Raising(st), batch, s, id, n);
    }
  }

  /** With chunks as large as a batch such a client counts a record once at most. */
  lemma TidyCountsOnce<W(!new)>(cfg: Config, st: Storage<W>, batch: seq<Id>, s: State<W>, id: Id)
    requires (forall x :: x in batch ==> x in s.store) && id in batch
    requires |batch| <= BATCH_LIMIT <= st.chunkSize && TidyClient(st)
    ensures CountedAtMost(cfg, st, batch, s, id, 1)
  {
    GroupHolds(st, s.store, batch, st.resolve(s.store[id].url).0, id);
    SmallGroupAsksOnce(st, s.store, batch, id);
    assert SameStorage(st, st);
    TidyCountsIff(cfg, st, batch, s, id, 1);
  }
}
