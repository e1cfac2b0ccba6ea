/** The deletion job on the records of migrated artifacts: `AWSStorage` and the RustFS bucket plugged into the job. */
module RustfsJob {
  import opened Common
  import opened Uris
  import opened UrlDeletion
  import opened UrlDeletionLaws
  import opened UrlDeletionBounds

  /** The keys of the bucket. */
  type Bucket = set<string>

  function Listed(paths: seq<string>): set<string> {
    set path | path in paths
  }

  /** `AWSStorage` for a bucket that deletes the keys it is asked for and, as S3 does, reports the absent ones too. */
  function AwsStorage(fs: Rustfs, other: string -> Option<string>): Storage<Bucket> {
    Storage(
      "Invalid AWS url or missing AWS configuration for account",
      url => (ResolveBaseUrl(fs, other, url), url),
      (w: Bucket, base) => (w, None),
      1000,
      (base, url) => Ok(GetPath(base, url)),
      (w: Bucket, base, paths) => (w - Listed(paths), Ok(Reply(paths, []))))
  }

  /** The same storage by what its functions return. */
  ghost predicate IsAws(st: Storage<Bucket>, fs: Rustfs, other: string -> Option<string>) {
    && (forall url :: st.resolve(url) == (ResolveBaseUrl(fs, other, url), url))
    && (forall w, base :: st.connect(w, base) == (w, None))
    && st.chunkSize == 1000
    && (forall base, url :: st.path(base, url) == Ok(GetPath(base, url)))
    && (forall w, base, paths :: st.deleteMany(w, base, paths) == (w - Listed(paths), Ok(Reply(paths, []))))
  }

  lemma AwsStorageIs(fs: Rustfs, other: string -> Option<string>)
    ensures IsAws(AwsStorage(fs, other), fs, other)
  {
  }

  /** What the job asks for on behalf of some items. */
  function Paths(base: string, items: seq<Item>): set<string> {
    set item | item in items :: GetPath(base, item.url)
  }

  lemma {:induction false} AllPairs(st: Storage<Bucket>, fs: Rustfs, other: string -> Option<string>, base: string, chunk: seq<Item>)
    requires IsAws(st, fs, other)
    ensures var pairs := PairsOf(st, base, chunk);
            |pairs| == |chunk| && forall i :: 0 <= i < |chunk| ==> pairs[i] == (chunk[i].id, GetPath(base, chunk[i].url))
  {
    if chunk != [] {
      AllPairs(st, fs, other, base, chunk[1..]);
    }
  }

  /** One chunk: every record of it leaves the collection and every path of it the bucket. */
  lemma ChunkDeletes(
    cfg: Config, st: Storage<Bucket>, fs: Rustfs, other: string -> Option<string>, base: string, group: set<Id>,
    chunk: seq<Item>, s: State<Bucket>)
    requires IsAws(st, fs, other) && chunk != []
    ensures var s' := Chunk(cfg, st, base, group, chunk, s);
            s'.store == s.store - IdsOf(chunk) && s'.world == s.world - Paths(base, chunk)
  {
    var pairs := PairsOf(st, base, chunk);
    AllPairs(st, fs, other, base, chunk);
    PreparePairs(cfg, st, base, chunk, s, []);
    assert [] + pairs == pairs;
    PrepareKeeps(cfg, st, fs, other, base, chunk, s, []);
    var prepared := Prepare(cfg, st, base, chunk, s, []).0;
    PairsCover(base, chunk, pairs);
    var asked := prepared.(world := prepared.world - Listed(PathsOf(pairs)),
      log := prepared.log + [Asked(group, base, pairs, prepared.world, prepared.world - Listed(PathsOf(pairs)),
                                   Ok(Reply(PathsOf(pairs), [])))]);
    assert Ask(cfg, st, base, group, pairs, prepared) == Settle(cfg, pairs, Reply(PathsOf(pairs), []), asked);
    AllReported(cfg, pairs, asked);
  }

  lemma {:induction false} PrepareKeeps(
    cfg: Config, st: Storage<Bucket>, fs: Rustfs, other: string -> Option<string>, base: string, chunk: seq<Item>,
    s: State<Bucket>, pairs: seq<(Id, string)>)
    requires IsAws(st, fs, other)
    ensures Prepare(cfg, st, base, chunk, s, pairs).0 == s
  {
    if chunk != [] {
      PrepareKeeps(cfg, st, fs, other, base, chunk[1..], s, pairs + [(chunk[0].id, GetPath(base, chunk[0].url))]);
    }
  }

  lemma PairsCover(base: string, chunk: seq<Item>, pairs: seq<(Id, string)>)
    requires |pairs| == |chunk| && forall i :: 0 <= i < |chunk| ==> pairs[i] == (chunk[i].id, GetPath(base, chunk[i].url))
    ensures AllIds(pairs) == IdsOf(chunk) && Listed(PathsOf(pairs)) == Paths(base, chunk)
  {
    forall id ensures id in AllIds(pairs) <==> id in IdsOf(chunk) {
      if pair :| pair in pairs && pair.0 == id {
        var i :| 0 <= i < |pairs| && pairs[i] == pair;
        assert chunk[i] in chunk;
      }
      if item :| item in chunk && item.id == id {
        var i :| 0 <= i < |chunk| && chunk[i] == item;
        assert pairs[i] in pairs;
      }
    }
    forall path ensures path in Listed(PathsOf(pairs)) <==> path in Paths(base, chunk) {
      if path in PathsOf(pairs) {
        var i :| 0 <= i < |pairs| && PathsOf(pairs)[i] == path;
        assert chunk[i] in chunk;
      }
      if item :| item in chunk && GetPath(base, item.url) == path {
        var i :| 0 <= i < |chunk| && chunk[i] == item;
        assert PathsOf(pairs)[i] == path;
      }
    }
  }

  lemma AllReported(cfg: Config, pairs: seq<(Id, string)>, s: State<Bucket>)
    ensures Settle(cfg, pairs, Reply(PathsOf(pairs), []), s) == s.(store := s.store - AllIds(pairs))
  {
    forall id | id in AllIds(pairs) ensures id in IdsAt(pairs, PathsOf(pairs)) {
      var pair :| pair in pairs && pair.0 == id;
      var i :| 0 <= i < |pairs| && pairs[i] == pair;
      assert PathsOf(pairs)[i] == pair.1;
    }
    assert IdsAt(pairs, PathsOf(pairs)) == AllIds(pairs);
  }

  lemma SplitItems(base: string, items: seq<Item>, n: nat)
    requires n <= |items|
    ensures IdsOf(items) == IdsOf(items[..n]) + IdsOf(items[n..])
    ensures Paths(base, items) == Paths(base, items[..n]) + Paths(base, items[n..])
  {
    assert items == items[..n] + items[n..];
    assert forall item :: item in items <==> item in items[..n] || item in items[n..];
  }

  lemma {:induction false} ChunksDelete(
    cfg: Config, st: Storage<Bucket>, fs: Rustfs, other: string -> Option<string>, base: string, group: set<Id>,
    items: seq<Item>, s: State<Bucket>)
    requires IsAws(st, fs, other)
    ensures var s' := Chunks(cfg, st, base, group, items, s);
            s'.store == s.store - IdsOf(items) && s'.world == s.world - Paths(base, items)
    decreases |items|
  {
    if items != [] {
      var n := Min(st.chunkSize, |items|);
      var s1 := Chunk(cfg, st, base, group, items[..n], s);
      ChunkDeletes(cfg, st, fs, other, base, group, items[..n], s);
      ChunksDelete(cfg, st, fs, other, base, group, items[n..], s1);
      SplitItems(base, items, n);
      assert s.store - IdsOf(items[..n]) - IdsOf(items[n..]) == s.store - IdsOf(items);
    }
  }

  // ---- A batch of migrated records ----

  /** Each record of the batch has the URI of its migration key. */
  ghost predicate Migrated(fs: Rustfs, utf8: Encoding, store: Store, batch: seq<Id>, keys: map<Id, string>) {
    forall id :: id in batch ==>
      && id in store && id in keys && store[id].url == MigratedUri(fs, utf8, keys[id])
      && keys[id] != [] && Kept(keys[id][0]) && keys[id][0] != '/'
  }

  /** The keys the bucket is asked to delete for the batch. */
  function Encoded(utf8: Encoding, batch: seq<Id>, keys: map<Id, string>): set<string>
    requires forall id :: id in batch ==> id in keys
  {
    set id | id in batch :: Quote(utf8, keys[id])
  }

  lemma {:induction false} OneBucketOnly(st: Storage<Bucket>, store: Store, batch: seq<Id>, key: Option<string>)
    requires forall id :: id in batch ==> id in store && st.resolve(store[id].url).0 == key
    ensures Bucketize(st, store, batch) == if batch == [] then [] else [(key, GroupOf(st, store, batch, key))]
  {
    if batch != [] {
      var n := |batch| - 1;
      OneBucketOnly(st, store, batch[..n], key);
      var less := GroupOf(st, store, batch[..n], key);
      var item := Item(batch[n], st.resolve(store[batch[n]].url).1);
      if n > 0 {
        assert [(key, less)][1..] == [];
      } else {
        assert batch[..n] == [] && less == [] && less + [item] == [item];
      }
    }
  }

  /** The items of the batch, in order, when all of it is one group. */
  function ItemsOf(store: Store, batch: seq<Id>): seq<Item>
    requires forall id :: id in batch ==> id in store
  {
    if batch == [] then []
    else ItemsOf(store, batch[..|batch| - 1]) + [Item(batch[|batch| - 1], store[batch[|batch| - 1]].url)]
  }

  lemma {:induction false} OneGroupIs(st: Storage<Bucket>, store: Store, batch: seq<Id>, key: Option<string>)
    requires forall id :: id in batch ==> id in store && st.resolve(store[id].url) == (key, store[id].url)
    ensures GroupOf(st, store, batch, key) == ItemsOf(store, batch)
  {
    if batch != [] {
      OneGroupIs(st, store, batch[..|batch| - 1], key);
    }
  }

  lemma {:induction false} ItemsAre(store: Store, batch: seq<Id>)
    requires forall id :: id in batch ==> id in store
    ensures forall item :: item in ItemsOf(store, batch) <==> item.id in batch && item.url == store[item.id].url
  {
    if batch != [] {
      var n := |batch| - 1;
      ItemsAre(store, batch[..n]);
      assert batch == batch[..n] + [batch[n]];
    }
  }

  lemma ItemsCover(base: string, utf8: Encoding, store: Store, batch: seq<Id>, keys: map<Id, string>)
    requires forall id :: id in batch ==> id in store && id in keys && GetPath(base, store[id].url) == Quote(utf8, keys[id])
    ensures IdsOf(ItemsOf(store, batch)) == set id | id in batch
    ensures Paths(base, ItemsOf(store, batch)) == Encoded(utf8, batch, keys)
  {
    ItemsAre(store, batch);
    forall id | id in batch ensures Item(id, store[id].url) in ItemsOf(store, batch) {
    }
  }

  lemma GroupIs(
    st: Storage<Bucket>, fs: Rustfs, other: string -> Option<string>, utf8: Encoding, store: Store, batch: seq<Id>,
    keys: map<Id, string>)
    requires IsAws(st, fs, other) && Utf8Like(utf8) && Sane(fs) && Migrated(fs, utf8, store, batch, keys)
    ensures var items := GroupOf(st, store, batch, Some(RustfsBase(fs)));
            IdsOf(items) == (set id | id in batch) && Paths(RustfsBase(fs), items) == Encoded(utf8, batch, keys)
  {
    forall id | id in batch
      ensures st.resolve(store[id].url) == (Some(RustfsBase(fs)), store[id].url)
      ensures GetPath(RustfsBase(fs), store[id].url) == Quote(utf8, keys[id])
    {
      MigratedResolves(st, fs, other, utf8, store[id].url, keys[id]);
    }
    OneGroupIs(st, store, batch, Some(RustfsBase(fs)));
    ItemsCover(RustfsBase(fs), utf8, store, batch, keys);
  }

  lemma MigratedResolves(
    st: Storage<Bucket>, fs: Rustfs, other: string -> Option<string>, utf8: Encoding, url: string, key: string)
    requires IsAws(st, fs, other) && Utf8Like(utf8) && Sane(fs) && url == MigratedUri(fs, utf8, key)
    requires key != [] && Kept(key[0]) && key[0] != '/'
    ensures st.resolve(url) == (Some(RustfsBase(fs)), url) && GetPath(RustfsBase(fs), url) == Quote(utf8, key)
  {
    DeletionOfMigrated(fs, other, utf8, key);
  }

  /**
    One call on records of migrated URIs: all of them leave the collection, and what leaves the bucket are exactly the
    percent-encoded keys.
   */
  lemma MigratedBatch(
    cfg: Config, fs: Rustfs, other: string -> Option<string>, utf8: Encoding, batch: seq<Id>, keys: map<Id, string>,
    s: State<Bucket>)
    requires Utf8Like(utf8) && Sane(fs) && Migrated(fs, utf8, s.store, batch, keys)
    ensures var s' := DeleteBatch(cfg, AwsStorage(fs, other), batch, s);
            && s'.store == s.store - (set id | id in batch)
            && s'.world == s.world - Encoded(utf8, batch, keys)
  {
    var st := AwsStorage(fs, other);
    AwsStorageIs(fs, other);
    MigratedBatchOf(cfg, st, fs, other, utf8, batch, keys, s);
  }

  lemma MigratedBatchOf(
    cfg: Config, st: Storage<Bucket>, fs: Rustfs, other: string -> Option<string>, utf8: Encoding, batch: seq<Id>,
    keys: map<Id, string>, s: State<Bucket>)
    requires IsAws(st, fs, other) && Utf8Like(utf8) && Sane(fs) && Migrated(fs, utf8, s.store, batch, keys)
    ensures var s' := DeleteBatch(cfg, st, batch, s);
            && s'.store == s.store - (set id | id in batch)
            && s'.world == s.world - Encoded(utf8, batch, keys)
  {
    var base := RustfsBase(fs);
    assert base[0] == 's';
    forall id | id in batch ensures st.resolve(s.store[id].url).0 == Some(base) {
      MigratedResolves(st, fs, other, utf8, s.store[id].url, keys[id]);
    }
    OneBucketOnly(st, s.store, batch, Some(base));
    GroupIs(st, fs, other, utf8, s.store, batch, keys);
    if batch != [] {
      OneGroupDeletes(cfg, st, fs, other, base, GroupOf(st, s.store, batch, Some(base)), s);
    }
  }

  lemma OneGroupDeletes(
    cfg: Config, st: Storage<Bucket>, fs: Rustfs, other: string -> Option<string>, base: string, items: seq<Item>,
    s: State<Bucket>)
    requires IsAws(st, fs, other) && base != ""
    ensures var s' := Groups(cfg, st, [(Some(base), items)], s);
            s'.store == s.store - IdsOf(items) && s'.world == s.world - Paths(base, items)
  {
    var s1 := s.(log := s.log + [Connected(base, s.world, s.world)]);
    ChunksDelete(cfg, st, fs, other, base, IdsOf(items), items, s1);
    assert [(Some(base), items)][1..] == [];
    assert Group(cfg, st, Some(base), items, s) == Chunks(cfg, st, base, IdsOf(items), items, s1);
  }

  /** Some record of the batch has the key as its encoded key. */
  predicate AskedFor(utf8: Encoding, batch: seq<Id>, keys: map<Id, string>, key: string)
    requires forall id :: id in batch ==> id in keys
  {
    exists x :: x in batch && Quote(utf8, keys[x]) == key
  }

  /**
    Every selected record leaves the collection, and its object stays in the bucket exactly when no selected record has
    the object's key as its encoded key.
   */
  lemma ObjectRemainsIff(
    cfg: Config, fs: Rustfs, other: string -> Option<string>, utf8: Encoding, batch: seq<Id>, keys: map<Id, string>,
    s: State<Bucket>, id: Id)
    requires Utf8Like(utf8) && Sane(fs) && Migrated(fs, utf8, s.store, batch, keys)
    requires id in batch && keys[id] in s.world
    ensures var s' := DeleteBatch(cfg, AwsStorage(fs, other), batch, s);
            && id !in s'.store
            && (keys[id] in s'.world <==> !AskedFor(utf8, batch, keys, keys[id]))
  {
    MigratedBatch(cfg, fs, other, utf8, batch, keys, s);
  }

  /** For a batch of one record that is when quoting changes the key. */
  lemma LoneObjectRemainsIff(
    cfg: Config, fs: Rustfs, other: string -> Option<string>, utf8: Encoding, id: Id, key: string, s: State<Bucket>)
    requires Utf8Like(utf8) && Sane(fs) && id in s.store && s.store[id].url == MigratedUri(fs, utf8, key)
    requires key != [] && Kept(key[0]) && key[0] != '/' && key in s.world
    ensures var s' := DeleteBatch(cfg, AwsStorage(fs, other), [id], s);
            && id !in s'.store
            && (key in s'.world <==> exists c :: c in key && !Kept(c))
  {
    ObjectRemainsIff(cfg, fs, other, utf8, [id], map[id := key], s, id);
    assert id in [id] && map[id := key][id] == key;
    QuoteChanges(utf8, key);
  }

  /** The key is the one of a selected record. */
  predicate KeyOfSelected(batch: seq<Id>, keys: map<Id, string>, key: string)
    requires forall id :: id in batch ==> id in keys
  {
    exists x :: x in batch && keys[x] == key
  }

  /** Only objects of selected records go exactly when every encoded key that is in the bucket is the key of one of them. */
  lemma OnlyTheirObjectsGoIff(
    cfg: Config, fs: Rustfs, other: string -> Option<string>, utf8: Encoding, batch: seq<Id>, keys: map<Id, string>,
    s: State<Bucket>)
    requires Utf8Like(utf8) && Sane(fs) && Migrated(fs, utf8, s.store, batch, keys)
    ensures var s' := DeleteBatch(cfg, AwsStorage(fs, other), batch, s);
            (forall key :: key in s.world && key !in s'.world ==> KeyOfSelected(batch, keys, key))
            <==> (forall x :: x in batch && Quote(utf8, keys[x]) in s.world ==> KeyOfSelected(batch, keys, Quote(utf8, keys[x])))
  {
    MigratedBatch(cfg, fs, other, utf8, batch, keys, s);
    var s' := DeleteBatch(cfg, AwsStorage(fs, other), batch, s);
    forall x | x in batch && Quote(utf8, keys[x]) in s.world ensures Quote(utf8, keys[x]) !in s'.world {
      assert Quote(utf8, keys[x]) in Encoded(utf8, batch, keys);
    }
  }

  /** When quoting changes a key, a call on its record alone deletes the object of the record with the encoded key instead. */
  lemma OtherObjectGoes(
    cfg: Config, fs: Rustfs, other: string -> Option<string>, utf8: Encoding, s: State<Bucket>, due: Id, idle: Id,
    key: string, encoded: string)
    requires Utf8Like(utf8) && Sane(fs) && due != idle && due in s.store && idle in s.store
    requires key != [] && Kept(key[0]) && key[0] != '/' && Quote(utf8, key) == encoded != key
    requires s.store[due].url == MigratedUri(fs, utf8, key) && s.store[idle].url == MigratedUri(fs, utf8, encoded)
    requires s.world == {key, encoded}
    ensures var s' := DeleteBatch(cfg, AwsStorage(fs, other), [due], s);
            due !in s'.store && idle in s'.store && s'.world == {key}
  {
    var keys := map[due := key];
    MigratedBatch(cfg, fs, other, utf8, [due], keys, s);
    assert due in [due] && Encoded(utf8, [due], keys) == {encoded};
  }

  /** The keys `migrated/a b` and `migrated/a%20b`: the object of a record that was not selected goes. */
  lemma SpaceDeletesOther(
    cfg: Config, fs: Rustfs, other: string -> Option<string>, utf8: Encoding, s: State<Bucket>, due: Id, idle: Id)
    requires Utf8Like(utf8) && Sane(fs) && utf8(' ') == [0x20] && due != idle && due in s.store && idle in s.store
    requires s.store[due].url == MigratedUri(fs, utf8, "migrated/a b")
    requires s.store[idle].url == MigratedUri(fs, utf8, "migrated/a%20b")
    requires s.world == {"migrated/a b", "migrated/a%20b"}
    ensures var s' := DeleteBatch(cfg, AwsStorage(fs, other), [due], s);
            due !in s'.store && idle in s'.store && s'.world == {"migrated/a b"}
  {
    SpaceEncoded(utf8);
    var key, encoded := "migrated/a b", "migrated/a%20b";
    assert key[10] != encoded[10];
    OtherObjectGoes(cfg, fs, other, utf8, s, due, idle, key, encoded);
  }
}
