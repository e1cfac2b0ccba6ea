/**
  How many exceptions one call can count against a record: one for every chunk of its group that has a path to ask for.

  The chunks are known before the call; what the clients do in it is left open.
 */
module UrlDeletionBounds {
  import opened Common
  import opened UrlDeletion
  import opened UrlDeletionLaws

  // ---- What is known before the call ----

  /** The paths a chunk asks for. */
  function PairsOf<W>(st: Storage<W>, base: string, chunk: seq<Item>): seq<(Id, string)> {
    if chunk == [] then []
    else match st.path(base, chunk[0].url)
      case Ok(path) => [(chunk[0].id, path)] + PairsOf(st, base, chunk[1..])
      case Err(_) => PairsOf(st, base, chunk[1..])
  }

  /** How many chunks of a group have a path to ask for. */
  function AskingChunks<W>(st: Storage<W>, base: string, items: seq<Item>): nat
    requires st.chunkSize > 0
    decreases |items|
  {
    if items == [] then 0
    else
      var n := Min(st.chunkSize, |items|);
      (if PairsOf(st, base, items[..n]) == [] then 0 else 1) + AskingChunks(st, base, items[n..])
  }

  /** The records of a batch that resolve to a base, in order. */
  function GroupOf<W>(st: Storage<W>, store: Store, batch: seq<Id>, key: Option<string>): seq<Item>
    requires forall id :: id in batch ==> id in store
  {
    if batch == [] then []
    else
      var id := batch[|batch| - 1];
      var (base, url) := st.resolve(store[id].url);
      GroupOf(st, store, batch[..|batch| - 1], key) + if base == key then [Item(id, url)] else []
  }

  /** The chunks with a path in the record's own group. */
  function Asking<W>(st: Storage<W>, store: Store, batch: seq<Id>, id: Id): nat
    requires st.chunkSize > 0
    requires (forall x :: x in batch ==> x in store) && id in store
  {
    var key := st.resolve(store[id].url).0;
    if key.None? || key.value == "" then 0 else AskingChunks(st, key.value, GroupOf(st, store, batch, key))
  }

  // ---- The remote side of one call ----

  function ChunkEvents<W>(st: Storage<W>, base: string, group: set<Id>, items: seq<Item>, w: W): seq<Event<W>>
    requires st.chunkSize > 0
    decreases |items|
  {
    if items == [] then []
    else
      var n := Min(st.chunkSize, |items|);
      var pairs := PairsOf(st, base, items[..n]);
      if pairs == [] then ChunkEvents(st, base, group, items[n..], w)
      else
        var event := AskedOf(st, base, group, pairs, w);
        [event] + ChunkEvents(st, base, group, items[n..], event.after)
  }

  function Last<W>(events: seq<Event<W>>, w: W): W {
    if events == [] then w else events[|events| - 1].after
  }

  function GroupEvents<W>(st: Storage<W>, base: Option<string>, items: seq<Item>, w: W): seq<Event<W>>
    requires st.chunkSize > 0
  {
    if base.None? || base.value == "" then []
    else
      var (after, failure) := st.connect(w, base.value);
      if failure.Some? then [Refused(IdsOf(items), base.value, w, after)]
      else [Connected(base.value, w, after)] + ChunkEvents(st, base.value, IdsOf(items), items, after)
  }

  function GroupsEvents<W>(st: Storage<W>, groups: Buckets, w: W): seq<Event<W>>
    requires st.chunkSize > 0
  {
    if groups == [] then []
    else
      var first := GroupEvents(st, groups[0].0, groups[0].1, w);
      first + GroupsEvents(st, groups[1..], Last(first, w))
  }

  lemma {:induction false} PreparePairs<W>(
    cfg: Config, st: Storage<W>, base: string, chunk: seq<Item>, s: State<W>, pairs: seq<(Id, string)>)
    ensures var (s', pairs') := Prepare(cfg, st, base, chunk, s, pairs);
            pairs' == pairs + PairsOf(st, base, chunk) && s'.log == s.log && s'.world == s.world
  {
    if chunk == [] {
      assert pairs + [] == pairs;
    } else {
      match st.path(base, chunk[0].url) {
        case Ok(path) =>
          PreparePairs(cfg, st, base, chunk[1..], s, pairs + [(chunk[0].id, path)]);
          assert pairs + [(chunk[0].id, path)] + PairsOf(st, base, chunk[1..]) == pairs + PairsOf(st, base, chunk);
        case Err(err) =>
          PreparePairs(cfg, st, base, chunk[1..], GiveUp(cfg, s, {chunk[0].id}, err), pairs);
      }
    }
  }

  lemma ChunkTrace<W>(cfg: Config, st: Storage<W>, base: string, group: set<Id>, chunk: seq<Item>, s: State<W>)
    ensures var s' := Chunk(cfg, st, base, group, chunk, s);
            var pairs := PairsOf(st, base, chunk);
            if pairs == [] then s'.log == s.log && s'.world == s.world
            else
              var event := AskedOf(st, base, group, pairs, s.world);
              s'.log == s.log + [event] && s'.world == event.after
  {
    PreparePairs(cfg, st, base, chunk, s, []);
    var (prepared, pairs) := Prepare(cfg, st, base, chunk, s, []);
    assert [] + PairsOf(st, base, chunk) == PairsOf(st, base, chunk);
    if pairs != [] {
      AskShape(cfg, st, base, group, pairs, prepared);
    }
  }

  /** The remote side saw exactly these events. */
  ghost predicate Traced<W>(s: State<W>, s': State<W>, events: seq<Event<W>>) {
    s'.log == s.log + events && s'.world == Last(events, s.world)
  }

  lemma TracedNone<W>(s: State<W>, s': State<W>)
    requires s'.log == s.log && s'.world == s.world
    ensures Traced(s, s', [])
  {
    assert s.log + [] == s.log;
  }

  lemma TracedThen<W>(s: State<W>, s1: State<W>, s2: State<W>, a: seq<Event<W>>, b: seq<Event<W>>)
    requires Traced(s, s1, a) && Traced(s1, s2, b)
    ensures Traced(s, s2, a + b)
  {
    assert s.log + a + b == s.log + (a + b);
    if b == [] {
      assert a + b == a;
    }
  }

  lemma {:induction false} ChunksTrace<W>(
    cfg: Config, st: Storage<W>, base: string, group: set<Id>, items: seq<Item>, s: State<W>)
    requires st.chunkSize > 0
    ensures Traced(s, Chunks(cfg, st, base, group, items, s), ChunkEvents(st, base, group, items, s.world))
    decreases |items|
  {
    if items == [] {
      TracedNone(s, s);
    } else {
      var n := Min(st.chunkSize, |items|);
      var s1 := Chunk(cfg, st, base, group, items[..n], s);
      ChunkTrace(cfg, st, base, group, items[..n], s);
      ChunksTrace(cfg, st, base, group, items[n..], s1);
      var pairs := PairsOf(st, base, items[..n]);
      var rest := ChunkEvents(st, base, group, items[n..], s1.world);
      if pairs == [] {
        TracedNone(s, s1);
        TracedThen(s, s1, Chunks(cfg, st, base, group, items, s), [], rest);
        assert [] + rest == rest;
      } else {
        TracedThen(s, s1, Chunks(cfg, st, base, group, items, s), [AskedOf(st, base, group, pairs, s.world)], rest);
      }
    }
  }

  lemma GroupTrace<W>(cfg: Config, st: Storage<W>, base: Option<string>, items: seq<Item>, s: State<W>)
    requires st.chunkSize > 0
    ensures Traced(s, Group(cfg, st, base, items, s), GroupEvents(st, base, items, s.world))
  {
    if base.None? || base.value == "" {
      TracedNone(s, Group(cfg, st, base, items, s));
    } else {
      var (after, failure) := st.connect(s.world, base.value);
      if failure.None? {
        var connected := Connected(base.value, s.world, after);
        var s1 := s.(world := after, log := s.log + [connected]);
        ChunksTrace(cfg, st, base.value, IdsOf(items), items, s1);
        TracedThen(s, s1, Group(cfg, st, base, items, s), [connected],
          ChunkEvents(st, base.value, IdsOf(items), items, after));
      }
    }
  }

  lemma {:induction false} GroupsTrace<W>(cfg: Config, st: Storage<W>, groups: Buckets, s: State<W>)
    requires st.chunkSize > 0
    ensures Traced(s, Groups(cfg, st, groups, s), GroupsEvents(st, groups, s.world))
    decreases |groups|
  {
    if groups == [] {
      TracedNone(s, s);
    } else {
      var s1 := Group(cfg, st, groups[0].0, groups[0].1, s);
      GroupTrace(cfg, st, groups[0].0, groups[0].1, s);
      GroupsTrace(cfg, st, groups[1..], s1);
      TracedThen(s, s1, Groups(cfg, st, groups, s), GroupEvents(st, groups[0].0, groups[0].1, s.world),
        GroupsEvents(st, groups[1..], s1.world));
    }
  }

  // ---- Counting what can be charged to one record ----

  /** The event is one that a record of its group can be charged for. */
  function Asks<W>(event: Event<W>, id: Id): nat {
    match event
    case Connected(_, _, _) => 0
    case Refused(group, _, _, _) => if id in group then 1 else 0
    case Asked(group, _, _, _, _, _) => if id in group then 1 else 0
  }

  function AllAsks<W>(events: seq<Event<W>>, id: Id): nat {
    if events == [] then 0 else Asks(events[0], id) + AllAsks(events[1..], id)
  }

  lemma {:induction false} AllAsksConcat<W>(a: seq<Event<W>>, b: seq<Event<W>>, id: Id)
    ensures AllAsks(a + b, id) == AllAsks(a, id) + AllAsks(b, id)
  {
    if a == [] {
      assert a + b == b;
    } else {
      assert (a + b)[1..] == a[1..] + b;
      AllAsksConcat(a[1..], b, id);
    }
  }

  /** One event for each chunk that has a path, whatever the client answers. */
  lemma {:induction false} ChunkAsks<W>(st: Storage<W>, base: string, group: set<Id>, items: seq<Item>, w: W, id: Id)
    requires st.chunkSize > 0
    ensures AllAsks(ChunkEvents(st, base, group, items, w), id) == if id in group then AskingChunks(st, base, items) else 0
    decreases |items|
  {
    if items != [] {
      var n := Min(st.chunkSize, |items|);
      var pairs := PairsOf(st, base, items[..n]);
      if pairs == [] {
        ChunkAsks(st, base, group, items[n..], w, id);
      } else {
        var event := AskedOf(st, base, group, pairs, w);
        var rest := ChunkEvents(st, base, group, items[n..], event.after);
        ChunkAsks(st, base, group, items[n..], event.after, id);
        assert ([event] + rest)[1..] == rest;
      }
    }
  }

  /** The most a group can be asked about: its chunks, or the one refused connection. */
  function Worst<W>(st: Storage<W>, base: Option<string>, items: seq<Item>): nat
    requires st.chunkSize > 0
  {
    if base.None? || base.value == "" then 0
    else if AskingChunks(st, base.value, items) == 0 then 1 else AskingChunks(st, base.value, items)
  }

  lemma GroupAsks<W>(st: Storage<W>, base: Option<string>, items: seq<Item>, w: W, id: Id)
    requires st.chunkSize > 0
    ensures AllAsks(GroupEvents(st, base, items, w), id) <= Worst(st, base, items)
    ensures id !in IdsOf(items) ==> AllAsks(GroupEvents(st, base, items, w), id) == 0
    ensures id in IdsOf(items) && base.Some? && base.value != "" && st.connect(w, base.value).1.None? ==>
              AllAsks(GroupEvents(st, base, items, w), id) == AskingChunks(st, base.value, items)
  {
    if base.Some? && base.value != "" {
      var (after, failure) := st.connect(w, base.value);
      if failure.Some? {
        assert [Refused(IdsOf(items), base.value, w, after)][1..] == [];
      } else {
        var rest := ChunkEvents(st, base.value, IdsOf(items), items, after);
        ChunkAsks(st, base.value, IdsOf(items), items, after, id);
        assert ([Connected(base.value, w, after)] + rest)[1..] == rest;
      }
    }
  }

  // ---- The record's own group ----

  function BucketOf(buckets: Buckets, key: Option<string>): seq<Item> {
    if buckets == [] then [] else if buckets[0].0 == key then buckets[0].1 else BucketOf(buckets[1..], key)
  }

  /** Each key has one bucket, and its items are those of the batch that resolve to it. */
  ghost predicate WellBucketed(buckets: Buckets) {
    forall i, j :: 0 <= i < j < |buckets| ==> buckets[i].0 != buckets[j].0
  }

  predicate HasKey(buckets: Buckets, key: Option<string>) {
    exists i :: 0 <= i < |buckets| && buckets[i].0 == key
  }

  lemma {:induction false} AddedToBucket(buckets: Buckets, key: Option<string>, item: Item, other: Option<string>)
    requires WellBucketed(buckets)
    ensures WellBucketed(AddToBucket(buckets, key, item))
    ensures HasKey(AddToBucket(buckets, key, item), other) <==> HasKey(buckets, other) || other == key
    ensures BucketOf(AddToBucket(buckets, key, item), other) == BucketOf(buckets, other) + if other == key then [item] else []
  {
    var added := AddToBucket(buckets, key, item);
    if buckets == [] {
      assert [(key, [item])][1..] == [];
      assert added[0].0 == key;
    } else if buckets[0].0 == key {
      assert added[0].0 == key && added[1..] == buckets[1..];
      assert forall i :: 0 <= i < |buckets| ==> added[i].0 == buckets[i].0;
    } else {
      var rest := AddToBucket(buckets[1..], key, item);
      assert added[1..] == rest && added[0] == buckets[0];
      assert forall i :: 0 < i < |buckets| ==> buckets[i] == buckets[1..][i - 1];
      AddedToBucket(buckets[1..], key, item, other);
      AddedToBucket(buckets[1..], key, item, buckets[0].0);
      HasKeyCons(buckets, other);
      HasKeyCons(added, other);
      NewKeyDiffers(buckets, rest);
    }
  }

  lemma HasKeyCons(buckets: Buckets, key: Option<string>)
    requires buckets != []
    ensures HasKey(buckets, key) <==> buckets[0].0 == key || HasKey(buckets[1..], key)
  {
    if HasKey(buckets, key) && buckets[0].0 != key {
      var i :| 0 <= i < |buckets| && buckets[i].0 == key;
      assert buckets[1..][i - 1].0 == key;
    }
    if HasKey(buckets[1..], key) {
      var i :| 0 <= i < |buckets[1..]| && buckets[1..][i].0 == key;
      assert buckets[i + 1].0 == key;
    }
  }

  lemma NewKeyDiffers(buckets: Buckets, rest: Buckets)
    requires buckets != [] && WellBucketed(rest) && !HasKey(rest, buckets[0].0)
    ensures WellBucketed([buckets[0]] + rest)
  {
    var added := [buckets[0]] + rest;
    forall i, j | 0 <= i < j < |added| ensures added[i].0 != added[j].0 {
      assert added[j] == rest[j - 1];
      if i > 0 {
        assert added[i] == rest[i - 1];
      }
    }
  }

  lemma {:induction false} BucketizeGroups<W>(st: Storage<W>, store: Store, batch: seq<Id>, key: Option<string>)
    requires forall id :: id in batch ==> id in store
    ensures WellBucketed(Bucketize(st, store, batch))
    ensures BucketOf(Bucketize(st, store, batch), key) == GroupOf(st, store, batch, key)
  {
    if batch != [] {
      var n := |batch| - 1;
      var (base, url) := st.resolve(store[batch[n]].url);
      BucketizeGroups(st, store, batch[..n], key);
      AddedToBucket(Bucketize(st, store, batch[..n]), base, Item(batch[n], url), key);
      assert GroupOf(st, store, batch[..n], key) + [] == GroupOf(st, store, batch[..n], key);
    }
  }

  lemma {:induction false} GroupHolds<W>(st: Storage<W>, store: Store, batch: seq<Id>, key: Option<string>, id: Id)
    requires (forall x :: x in batch ==> x in store) && id in store
    ensures id in IdsOf(GroupOf(st, store, batch, key)) <==> id in batch && st.resolve(store[id].url).0 == key
    ensures |GroupOf(st, store, batch, key)| <= |batch|
  {
    if batch != [] {
      var n := |batch| - 1;
      GroupHolds(st, store, batch[..n], key, id);
      var (base, url) := st.resolve(store[batch[n]].url);
      assert batch == batch[..n] + [batch[n]];
      var less := GroupOf(st, store, batch[..n], key);
      if base == key {
        IdsOfSnoc(less, Item(batch[n], url));
      } else {
        assert less + [] == less;
      }
    }
  }

  lemma IdsOfSnoc(items: seq<Item>, item: Item)
    ensures IdsOf(items + [item]) == IdsOf(items) + {item.id}
  {
    assert forall x :: x in items + [item] <==> x in items || x == item;
    assert item in items + [item];
  }

  /** The bucket at a position is the one its key finds. */
  lemma {:induction false} BucketAt(buckets: Buckets, i: nat)
    requires WellBucketed(buckets) && i < |buckets|
    ensures BucketOf(buckets, buckets[i].0) == buckets[i].1
  {
    if i > 0 {
      assert forall j :: 0 <= j < |buckets[1..]| ==> buckets[1..][j] == buckets[j + 1];
      BucketAt(buckets[1..], i - 1);
    }
  }

  /** The record is in no bucket but the one its url resolves to. */
  ghost predicate OnlyUnder(groups: Buckets, key: Option<string>, id: Id) {
    forall i :: 0 <= i < |groups| && groups[i].0 != key ==> id !in IdsOf(groups[i].1)
  }

  lemma OwnBucketOnly<W>(st: Storage<W>, store: Store, batch: seq<Id>, id: Id)
    requires (forall x :: x in batch ==> x in store) && id in store
    ensures WellBucketed(Bucketize(st, store, batch))
    ensures OnlyUnder(Bucketize(st, store, batch), st.resolve(store[id].url).0, id)
  {
    var groups := Bucketize(st, store, batch);
    BucketizeGroups(st, store, batch, None);
    forall i | 0 <= i < |groups| && groups[i].0 != st.resolve(store[id].url).0 ensures id !in IdsOf(groups[i].1) {
      BucketAt(groups, i);
      BucketizeGroups(st, store, batch, groups[i].0);
      GroupHolds(st, store, batch, groups[i].0, id);
    }
  }

  lemma TailBuckets(groups: Buckets, key: Option<string>, id: Id)
    requires WellBucketed(groups) && OnlyUnder(groups, key, id) && groups != []
    ensures WellBucketed(groups[1..]) && OnlyUnder(groups[1..], key, id)
    ensures groups[0].0 == key ==> OnlyUnder(groups[1..], groups[0].0, id) && !HasKey(groups[1..], key)
  {
    assert forall j :: 0 <= j < |groups[1..]| ==> groups[1..][j] == groups[j + 1];
  }

  lemma {:induction false} NoAsks<W>(st: Storage<W>, groups: Buckets, w: W, id: Id)
    requires st.chunkSize > 0
    requires forall i :: 0 <= i < |groups| ==> id !in IdsOf(groups[i].1)
    ensures AllAsks(GroupsEvents(st, groups, w), id) == 0
  {
    if groups != [] {
      var first := GroupEvents(st, groups[0].0, groups[0].1, w);
      GroupAsks(st, groups[0].0, groups[0].1, w, id);
      NoAsks(st, groups[1..], Last(first, w), id);
      AllAsksConcat(first, GroupsEvents(st, groups[1..], Last(first, w)), id);
    }
  }

  /** Every connection succeeds. */
  ghost predicate Connects<W(!new)>(st: Storage<W>) {
    forall w, base :: st.connect(w, base).1.None?
  }

  lemma {:induction false} GroupsAsks<W(!new)>(st: Storage<W>, groups: Buckets, w: W, key: Option<string>, id: Id)
    requires st.chunkSize > 0 && WellBucketed(groups) && OnlyUnder(groups, key, id)
    ensures AllAsks(GroupsEvents(st, groups, w), id) <= Worst(st, key, BucketOf(groups, key))
    ensures Connects(st) && key.Some? && key.value != "" && id in IdsOf(BucketOf(groups, key)) ==>
              AllAsks(GroupsEvents(st, groups, w), id) == AskingChunks(st, key.value, BucketOf(groups, key))
  {
    if groups != [] {
      var first := GroupEvents(st, groups[0].0, groups[0].1, w);
      var rest := GroupsEvents(st, groups[1..], Last(first, w));
      TailBuckets(groups, key, id);
      GroupAsks(st, groups[0].0, groups[0].1, w, id);
      AllAsksConcat(first, rest, id);
      if groups[0].0 == key {
        forall i | 0 <= i < |groups[1..]| ensures id !in IdsOf(groups[1..][i].1) {
          assert groups[1..][i].0 != key;
        }
        NoAsks(st, groups[1..], Last(first, w), id);
      } else {
        GroupsAsks(st, groups[1..], Last(first, w), key, id);
      }
    }
  }

  // ---- What clients can do ----

  /** The same storage with another remote side. */
  ghost predicate SameStorage<W(!new), V(!new)>(st: Storage<W>, other: Storage<V>) {
    && (forall url :: other.resolve(url) == st.resolve(url))
    && (forall base, url :: other.path(base, url) == st.path(base, url))
    && other.chunkSize == st.chunkSize && other.invalid == st.invalid
  }

  /** The storage whose connections succeed and whose client always raises. */
  function Raising<W>(st: Storage<W>): Storage<W> {
    st.(connect := (w: W, base) => (w, None), deleteMany := (w: W, base, paths) => (w, Err("raised")))
  }

  /** How many exceptions of one call count against the record. */
  function Raised<W>(event: Event<W>, id: Id): nat {
    match event
    case Connected(_, _, _) => 0
    case Refused(group, _, _, _) => if id in group then 1 else 0
    case Asked(group, _, _, _, _, outcome) => if id in group && outcome.Err? then 1 else 0
  }

  function Exceptions<W>(events: seq<Event<W>>, id: Id): nat {
    if events == [] then 0 else Raised(events[0], id) + Exceptions(events[1..], id)
  }

  lemma {:induction false} ExceptionsAtMost<W>(events: seq<Event<W>>, id: Id)
    ensures Exceptions(events, id) <= AllAsks(events, id)
    ensures (forall k :: 0 <= k < |events| ==> events[k].Asked? ==> events[k].outcome.Err?) ==>
              Exceptions(events, id) == AllAsks(events, id) == Charges(events, id)
  {
    if events != [] {
      ExceptionsAtMost(events[1..], id);
      assert forall k :: 0 <= k < |events[1..]| ==> events[1..][k] == events[k + 1];
    }
  }

  /** The ids an event asks for are of its group. */
  predicate Grouped<W>(event: Event<W>) {
    event.Asked? ==> AllIds(event.pairs) <= event.group
  }

  // ---- All events of a call ask for ids of their group ----

  ghost predicate AllGrouped<W>(events: seq<Event<W>>) {
    forall k :: 0 <= k < |events| ==> Grouped(events[k])
  }

  lemma GroupedConcat<W>(a: seq<Event<W>>, b: seq<Event<W>>)
    requires AllGrouped(a) && AllGrouped(b)
    ensures AllGrouped(a + b)
  {
    forall k | 0 <= k < |a + b| ensures Grouped((a + b)[k]) {
      if k >= |a| {
        assert (a + b)[k] == b[k - |a|];
      }
    }
  }

  lemma {:induction false} PairsAreOf<W>(st: Storage<W>, base: string, chunk: seq<Item>)
    ensures AllIds(PairsOf(st, base, chunk)) <= IdsOf(chunk)
  {
    if chunk != [] {
      PairsAreOf(st, base, chunk[1..]);
      assert forall item :: item in chunk[1..] ==> item in chunk;
      assert forall id :: id in IdsOf(chunk[1..]) ==> id in IdsOf(chunk);
      assert chunk[0] in chunk;
    }
  }

  lemma {:induction false} ChunkEventsGrouped<W>(st: Storage<W>, base: string, group: set<Id>, items: seq<Item>, w: W)
    requires st.chunkSize > 0 && IdsOf(items) <= group
    ensures AllGrouped(ChunkEvents(st, base, group, items, w))
    decreases |items|
  {
    if items != [] {
      var n := Min(st.chunkSize, |items|);
      PairsAreOf(st, base, items[..n]);
      assert forall item :: item in items[..n] || item in items[n..] ==> item in items;
      assert IdsOf(items[..n]) <= IdsOf(items) && IdsOf(items[n..]) <= IdsOf(items);
      var pairs := PairsOf(st, base, items[..n]);
      if pairs == [] {
        ChunkEventsGrouped(st, base, group, items[n..], w);
      } else {
        var event := AskedOf(st, base, group, pairs, w);
        ChunkEventsGrouped(st, base, group, items[n..], event.after);
        GroupedConcat([event], ChunkEvents(st, base, group, items[n..], event.after));
      }
    }
  }

  lemma {:induction false} GroupsEventsGrouped<W>(st: Storage<W>, groups: Buckets, w: W)
    requires st.chunkSize > 0
    ensures AllGrouped(GroupsEvents(st, groups, w))
  {
    if groups != [] {
      var base, items := groups[0].0, groups[0].1;
      var first := GroupEvents(st, base, items, w);
      if base.Some? && base.value != "" && st.connect(w, base.value).1.None? {
        var after := st.connect(w, base.value).0;
        ChunkEventsGrouped(st, base.value, IdsOf(items), items, after);
        GroupedConcat([Connected(base.value, w, after)], ChunkEvents(st, base.value, IdsOf(items), items, after));
      }
      GroupsEventsGrouped(st, groups[1..], Last(first, w));
      GroupedConcat(first, GroupsEvents(st, groups[1..], Last(first, w)));
    }
  }

  // ---- One call ----

  /** What the remote side sees in one call. */
  function BatchEvents<W>(st: Storage<W>, batch: seq<Id>, s: State<W>): seq<Event<W>>
    requires st.chunkSize > 0 && forall x :: x in batch ==> x in s.store
  {
    GroupsEvents(st, Bucketize(st, s.store, batch), s.world)
  }

  lemma BatchNews<W>(cfg: Config, st: Storage<W>, batch: seq<Id>, s: State<W>)
    requires st.chunkSize > 0 && forall x :: x in batch ==> x in s.store
    ensures var s' := DeleteBatch(cfg, st, batch, s);
            s.log <= s'.log && s'.log[|s.log|..] == BatchEvents(st, batch, s)
  {
    GroupsTrace(cfg, st, Bucketize(st, s.store, batch), s);
    assert (s.log + BatchEvents(st, batch, s))[|s.log|..] == BatchEvents(st, batch, s);
  }

  /** The most that one call can charge to the record, and what a client that always raises does charge. */
  lemma BatchAsks<W(!new)>(st: Storage<W>, batch: seq<Id>, s: State<W>, id: Id)
    requires st.chunkSize > 0 && (forall x :: x in batch ==> x in s.store) && id in batch
    ensures AllAsks(BatchEvents(st, batch, s), id) <= Asking(st, s.store, batch, id)
         || AllAsks(BatchEvents(st, batch, s), id) <= 1
    ensures Connects(st) ==> AllAsks(BatchEvents(st, batch, s), id) == Asking(st, s.store, batch, id)
  {
    var key := st.resolve(s.store[id].url).0;
    var groups := Bucketize(st, s.store, batch);
    OwnBucketOnly(st, s.store, batch, id);
    BucketizeGroups(st, s.store, batch, key);
    GroupHolds(st, s.store, batch, key, id);
    GroupsAsks(st, groups, s.world, key, id);
  }

  lemma {:induction false} PairsSame<W(!new), V(!new)>(st: Storage<W>, other: Storage<V>, base: string, chunk: seq<Item>)
    requires SameStorage(st, other)
    ensures PairsOf(other, base, chunk) == PairsOf(st, base, chunk)
  {
    if chunk != [] {
      PairsSame(st, other, base, chunk[1..]);
    }
  }

  lemma {:induction false} ChunksSame<W(!new), V(!new)>(st: Storage<W>, other: Storage<V>, base: string, items: seq<Item>)
    requires SameStorage(st, other) && st.chunkSize > 0
    ensures AskingChunks(other, base, items) == AskingChunks(st, base, items)
    decreases |items|
  {
    if items != [] {
      var n := Min(st.chunkSize, |items|);
      PairsSame(st, other, base, items[..n]);
      ChunksSame(st, other, base, items[n..]);
    }
  }

  lemma {:induction false} GroupSame<W(!new), V(!new)>(st: Storage<W>, other: Storage<V>, store: Store, batch: seq<Id>, key: Option<string>)
    requires SameStorage(st, other) && forall x :: x in batch ==> x in store
    ensures GroupOf(other, store, batch, key) == GroupOf(st, store, batch, key)
  {
    if batch != [] {
      GroupSame(st, other, store, batch[..|batch| - 1], key);
    }
  }

  lemma AskingSame<W(!new), V(!new)>(st: Storage<W>, other: Storage<V>, store: Store, batch: seq<Id>, id: Id)
    requires SameStorage(st, other) && st.chunkSize > 0
    requires (forall x :: x in batch ==> x in store) && id in store
    ensures Asking(other, store, batch, id) == Asking(st, store, batch, id)
  {
    var key := st.resolve(store[id].url).0;
    GroupSame(st, other, store, batch, key);
    if key.Some? && key.value != "" {
      ChunksSame(st, other, key.value, GroupOf(st, store, batch, key));
    }
  }

  // ---- The exact bounds ----

  /** In this call at most `n` exceptions count against the record. */
  ghost predicate RaisedAtMost<W(!new)>(cfg: Config, st: Storage<W>, batch: seq<Id>, s: State<W>, id: Id, n: nat)
    requires st.chunkSize > 0 && forall x :: x in batch ==> x in s.store
  {
    var s' := DeleteBatch(cfg, st, batch, s);
    s.log <= s'.log && Exceptions(s'.log[|s.log|..], id) <= n
  }

  lemma RaisingStorage<W(!new)>(st: Storage<W>)
    ensures SameStorage(st, Raising(st)) && AlwaysRaises(Raising(st))
  {
  }

  ghost predicate AlwaysRaises<W(!new)>(st: Storage<W>) {
    Connects(st) && forall w, base, paths :: st.deleteMany(w, base, paths).1.Err?
  }

  /** Always raising: every chunk with a path is one exception and one count, and nothing is removed. */
  lemma RaisingCounts<W(!new)>(cfg: Config, st: Storage<W>, batch: seq<Id>, s: State<W>, id: Id)
    requires st.chunkSize > 0 && (forall x :: x in batch ==> x in s.store) && id in batch && AlwaysRaises(st)
    ensures var s' := DeleteBatch(cfg, st, batch, s);
            && s.log <= s'.log && Exceptions(s'.log[|s.log|..], id) == Asking(st, s.store, batch, id)
            && id in s'.store && s'.store[id].retryCount == s.store[id].retryCount + Asking(st, s.store, batch, id)
  {
    var events := BatchEvents(st, batch, s);
    BatchNews(cfg, st, batch, s);
    BatchAsks(st, batch, s, id);
    BatchEvolves(cfg, st, batch, s);
    forall k | 0 <= k < |events| && events[k].Asked? ensures events[k].outcome.Err? {
      assert Genuine(st, Loaded(st, s.store, batch), events[k]);
    }
    ExceptionsAtMost(events, id);
    RemovedIffReported(cfg, st, batch, s, id);
    RetryCountExact(cfg, st, batch, s, id);
  }

  /**
    Over all clients of a storage, at most `n` exceptions of one call count against a record exactly when at most `n`
    chunks of its group have a path to ask for.
   */
  lemma ExceptionsIff<W(!new)>(cfg: Config, st: Storage<W>, batch: seq<Id>, s: State<W>, id: Id, n: nat)
    requires st.chunkSize > 0 && (forall x :: x in batch ==> x in s.store) && id in batch && n >= 1
    ensures (forall other: Storage<W> :: SameStorage(st, other) ==> RaisedAtMost(cfg, other, batch, s, id, n))
       <==> Asking(st, s.store, batch, id) <= n
  {
    if Asking(st, s.store, batch, id) <= n {
      forall other: Storage<W> | SameStorage(st, other) ensures RaisedAtMost(cfg, other, batch, s, id, n) {
        BatchNews(cfg, other, batch, s);
        BatchAsks(other, batch, s, id);
        AskingSame(st, other, s.store, batch, id);
        ExceptionsAtMost(BatchEvents(other, batch, s), id);
      }
    } else {
      RaisingStorage(st);
      AskingSame(st, Raising(st), s.store, batch, id);
      RaisingCounts(cfg, Raising(st), batch, s, id);
      assert !RaisedAtMost(cfg, Raising(st), batch, s, id, n);
    }
  }

  // ---- Group and chunk sizes ----

  lemma OneChunkAsks<W>(st: Storage<W>, base: string, items: seq<Item>)
    requires st.chunkSize > 0 && |items| <= st.chunkSize
    ensures AskingChunks(st, base, items) <= 1
  {
    if items != [] {
      assert items[|items|..] == [] && AskingChunks(st, base, []) == 0;
    }
  }

  /** A group that fits one chunk asks once. */
  lemma SmallGroupAsksOnce<W>(st: Storage<W>, store: Store, batch: seq<Id>, id: Id)
    requires st.chunkSize > 0 && (forall x :: x in batch ==> x in store) && id in store
    requires |GroupOf(st, store, batch, st.resolve(store[id].url).0)| <= st.chunkSize
    ensures Asking(st, store, batch, id) <= 1
  {
    var key := st.resolve(store[id].url).0;
    if key.Some? && key.value != "" {
      OneChunkAsks(st, key.value, GroupOf(st, store, batch, key));
    }
  }

  /** So a storage whose chunks are as large as a batch counts one exception at most. */
  lemma WholeBatchChunks<W(!new)>(cfg: Config, st: Storage<W>, batch: seq<Id>, s: State<W>, id: Id)
    requires (forall x :: x in batch ==> x in s.store) && id in batch
    requires |batch| <= BATCH_LIMIT <= st.chunkSize
    ensures RaisedAtMost(cfg, st, batch, s, id, 1)
  {
    GroupHolds(st, s.store, batch, st.resolve(s.store[id].url).0, id);
    SmallGroupAsksOnce(st, s.store, batch, id);
    assert SameStorage(st, st);
    ExceptionsIff(cfg, st, batch, s, id, 1);
  }

  predicate AllHavePaths<W>(st: Storage<W>, base: string, items: seq<Item>) {
    forall item :: item in items ==> st.path(base, item.url).Ok?
  }

  lemma FullChunkAsks<W>(st: Storage<W>, base: string, items: seq<Item>)
    requires st.chunkSize > 0 && AllHavePaths(st, base, items) && items != []
    ensures var n := Min(st.chunkSize, |items|);
            && AskingChunks(st, base, items) == 1 + AskingChunks(st, base, items[n..])
            && AllHavePaths(st, base, items[n..])
  {
    var n := Min(st.chunkSize, |items|);
    assert items[..n][0] == items[0] && items[0] in items;
  }

  /** When all items of a group have paths, it asks once exactly when it fits one chunk. */
  lemma FullGroupAsksOnceIff<W>(st: Storage<W>, base: string, items: seq<Item>)
    requires st.chunkSize > 0 && AllHavePaths(st, base, items)
    ensures AskingChunks(st, base, items) <= 1 <==> |items| <= st.chunkSize
    ensures |items| == st.chunkSize + 1 ==> AskingChunks(st, base, items) == 2
  {
    if |items| <= st.chunkSize {
      OneChunkAsks(st, base, items);
    } else {
      var rest := items[st.chunkSize..];
      FullChunkAsks(st, base, items);
      FullChunkAsks(st, base, rest);
      if |rest| == 1 {
        OneChunkAsks(st, base, rest);
      }
    }
  }

  // ---- The maximum passed, at any chunk size ----

  /** A storage with one base that takes every url as its path. */
  function OneBase(chunkSize: nat): Storage<()> {
    Storage("", url => (Some("host"), url), (w, base) => (w, None), chunkSize,
            (base, url) => Ok(url), (w, base, paths) => (w, Err("raised")))
  }

  function Unary(n: nat): Id {
    if n == 0 then "" else Unary(n - 1) + "1"
  }

  lemma UnaryLength(n: nat)
    ensures |Unary(n)| == n
  {
  }

  function Numbered(n: nat): seq<Id> {
    if n == 0 then [] else Numbered(n - 1) + [Unary(n - 1)]
  }

  /** The records numbered below `n`, each with one retry left. */
  function AlmostSpent(cfg: Config, n: nat): Store {
    map id | id in Numbered(n) :: Record("c", "/" + id, Gs, cfg.maxRetries - 1, None, None, Retrying)
  }

  lemma {:induction false} NumberedDiffer(n: nat)
    ensures |Numbered(n)| == n
    ensures forall i :: 0 <= i < n ==> |Numbered(n)[i]| == i
  {
    if n > 0 {
      NumberedDiffer(n - 1);
      UnaryLength(n - 1);
    }
  }

  lemma {:induction false} AllInOneGroup(store: Store, chunkSize: nat, batch: seq<Id>)
    requires forall id :: id in batch ==> id in store
    ensures |GroupOf(OneBase(chunkSize), store, batch, Some("host"))| == |batch|
  {
    if batch != [] {
      AllInOneGroup(store, chunkSize, batch[..|batch| - 1]);
    }
  }

  /**
    For every chunk size `c` there is a batch of `c + 1` records, of one group and each with one retry left, that two
    raising chunks push past the maximum: for Google's 100, a batch of 101 records.
   */
  lemma RetriesCanOvershoot(cfg: Config, c: nat, world: (), ticks: nat)
    requires c > 0
    ensures var batch, s := Numbered(c + 1), State(AlmostSpent(cfg, c + 1), world, ticks, []);
            && |batch| == c + 1 && (forall i, j :: 0 <= i < j < |batch| ==> batch[i] != batch[j])
            && (forall id :: id in batch ==> id in s.store)
            && var s' := DeleteBatch(cfg, OneBase(c), batch, s);
               forall id :: id in batch ==> id in s'.store && s'.store[id].retryCount == cfg.maxRetries + 1
  {
    var batch, s := Numbered(c + 1), State(AlmostSpent(cfg, c + 1), world, ticks, []);
    var st := OneBase(c);
    NumberedDiffer(c + 1);
    forall i, j | 0 <= i < j < |batch| ensures batch[i] != batch[j] {
      assert |batch[i]| == i && |batch[j]| == j;
    }
    AllInOneGroup(s.store, c, batch);
    var items := GroupOf(st, s.store, batch, Some("host"));
    FullGroupAsksOnceIff(st, "host", items);
    forall id | id in batch
      ensures var s' := DeleteBatch(cfg, st, batch, s); id in s'.store && s'.store[id].retryCount == cfg.maxRetries + 1
    {
      assert Asking(st, s.store, batch, id) == 2;
      RaisingCounts(cfg, st, batch, s, id);
    }
  }
}
