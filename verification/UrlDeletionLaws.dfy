/**
  What one call of `delete_urls` does to the records, for every storage behaviour, grouping and chunking.
 */
module UrlDeletionLaws {
  import opened Common
  import opened UrlDeletion

  // ---- Vocabulary ----

  /** The failure time is a clock reading taken in the given window. */
  ghost predicate Stamped(cfg: Config, r: Record, from: nat, to: nat) {
    exists n: nat :: from <= n < to && r.lastFailureTime == Some(cfg.clock(n))
  }

  predicate Bounded(cfg: Config, r: Record) {
    r.retryCount >= cfg.maxRetries ==> r.status == Failed
  }

  /** `r` became `r'` in the window, and its failures were counted `n` times. */
  ghost predicate LaterBy(cfg: Config, r: Record, r': Record, from: nat, to: nat, n: nat) {
    && r'.company == r.company && r'.url == r.url && r'.storageType == r.storageType
    && r'.retryCount == r.retryCount + n
    && (r'.status == r.status || r'.status == Failed)
    && (Bounded(cfg, r) ==> Bounded(cfg, r'))
    && (r' == r || Stamped(cfg, r', from, to))
  }

  /** How many of the error reports name the id's path: `mark_retry_failed` runs once for each. */
  function NamedIn(pairs: seq<(Id, string)>, errors: seq<(string, seq<string>)>, id: Id): nat {
    if errors == [] then 0
    else (if id in IdsAt(pairs, errors[0].1) then 1 else 0) + NamedIn(pairs, errors[1..], id)
  }

  predicate Missing(pairs: seq<(Id, string)>, reply: Reply, id: Id) {
    id in AllIds(pairs) - IdsAt(pairs, reply.deleted) - FailedIds(pairs, reply.errors)
  }

  /** How often one event counts a failure of the id. An exception counts for the whole group. */
  function Charge<W>(event: Event<W>, id: Id): nat {
    match event
    case Connected(_, _, _) => 0
    case Refused(group, _, _, _) => if id in group then 1 else 0
    case Asked(group, _, pairs, _, _, Err(_)) => if id in group then 1 else 0
    case Asked(_, _, pairs, _, _, Ok(reply)) =>
      NamedIn(pairs, reply.errors, id) + if Missing(pairs, reply, id) then 1 else 0
  }

  function Charges<W>(events: seq<Event<W>>, id: Id): nat {
    if events == [] then 0 else Charge(events[0], id) + Charges(events[1..], id)
  }

  /** The client of the id's own chunk reported its path deleted. */
  predicate Deletes<W>(event: Event<W>, id: Id) {
    event.Asked? && event.outcome.Ok? && id in IdsAt(event.pairs, event.outcome.value.deleted)
  }

  predicate Reported<W>(events: seq<Event<W>>, id: Id) {
    exists k :: 0 <= k < |events| && Deletes(events[k], id)
  }

  /** The event is what the remote side did; what it was asked are paths of the given items. */
  ghost predicate Genuine<W>(st: Storage<W>, items: set<Item>, event: Event<W>) {
    match event
    case Connected(base, before, after) => st.connect(before, base) == (after, None)
    case Refused(_, base, before, after) => st.connect(before, base).0 == after && st.connect(before, base).1.Some?
    case Asked(_, base, pairs, before, after, outcome) =>
      && st.deleteMany(before, base, PathsOf(pairs)) == (after, outcome)
      && PairsFrom(st, base, items, pairs)
  }

  ghost predicate PairsFrom<W>(st: Storage<W>, base: string, items: set<Item>, pairs: seq<(Id, string)>) {
    forall pair :: pair in pairs ==>
      exists item :: item in items && item.id == pair.0 && st.path(base, item.url) == Ok(pair.1)
  }

  /** Nothing but the logged events touches the remote side. */
  ghost predicate Linked<W>(events: seq<Event<W>>, first: W, last: W) {
    if events == [] then first == last
    else events[0].before == first && Linked(events[1..], events[0].after, last)
  }

  function News<W>(s: State<W>, s': State<W>): seq<Event<W>>
    requires s.log <= s'.log
  {
    s'.log[|s.log|..]
  }

  function Names(items: set<Item>): set<Id> {
    set item | item in items :: item.id
  }

  /** All that is promised of any stretch of the job that works on the given items. */
  ghost predicate Evolves<W>(
    cfg: Config, st: Storage<W>, items: set<Item>, s: State<W>, s': State<W>)
  {
    && s.ticks <= s'.ticks
    && s.log <= s'.log
    && Linked(News(s, s'), s.world, s'.world)
    && s'.store.Keys <= s.store.Keys
    && (forall id :: id in s.store && id !in Names(items) ==> id in s'.store && s'.store[id] == s.store[id])
    && (forall id :: id in s'.store ==>
          LaterBy(cfg, s.store[id], s'.store[id], s.ticks, s'.ticks, Charges(News(s, s'), id)))
    && (forall id :: id in s.store ==> (id !in s'.store <==> Reported(News(s, s'), id)))
    && (forall k :: 0 <= k < |News(s, s')| ==> Genuine(st, items, News(s, s')[k]))
  }

  /** The record is gone, or has failed for good or counted a failure, with a fresh failure time. */
  ghost predicate Accounted<W>(cfg: Config, s: State<W>, s': State<W>, id: Id)
    requires s'.store.Keys <= s.store.Keys
  {
    id in s'.store ==>
      && (s'.store[id].status == Failed || s'.store[id].retryCount > s.store[id].retryCount)
      && Stamped(cfg, s'.store[id], s.ticks, s'.ticks)
  }

  // ---- Composition ----

  lemma {:induction false} ChargesConcat<W>(a: seq<Event<W>>, b: seq<Event<W>>, id: Id)
    ensures Charges(a + b, id) == Charges(a, id) + Charges(b, id)
  {
    if a == [] {
      assert a + b == b;
    } else {
      assert (a + b)[1..] == a[1..] + b;
      ChargesConcat(a[1..], b, id);
    }
  }

  lemma ReportedConcat<W>(a: seq<Event<W>>, b: seq<Event<W>>, id: Id)
    ensures Reported(a + b, id) <==> Reported(a, id) || Reported(b, id)
  {
    if Reported(a, id) {
      var k :| 0 <= k < |a| && Deletes(a[k], id);
      assert Deletes((a + b)[k], id);
    }
    if Reported(b, id) {
      var k :| 0 <= k < |b| && Deletes(b[k], id);
      assert Deletes((a + b)[|a| + k], id);
    }
  }

  lemma LaterByTransitive(cfg: Config, r: Record, r1: Record, r2: Record, a: nat, b: nat, c: nat, n: nat, m: nat)
    requires a <= b <= c
    requires LaterBy(cfg, r, r1, a, b, n) && LaterBy(cfg, r1, r2, b, c, m)
    ensures LaterBy(cfg, r, r2, a, c, n + m)
  {
  }

  lemma NewsConcat<W>(s: State<W>, s1: State<W>, s2: State<W>)
    requires s.log <= s1.log <= s2.log
    ensures News(s, s2) == News(s, s1) + News(s1, s2)
  {
  }

  lemma {:induction false} LinkedConcat<W>(a: seq<Event<W>>, b: seq<Event<W>>, first: W, mid: W, last: W)
    requires Linked(a, first, mid) && Linked(b, mid, last)
    ensures Linked(a + b, first, last)
  {
    if a == [] {
      assert a + b == b;
    } else {
      assert (a + b)[1..] == a[1..] + b;
      LinkedConcat(a[1..], b, a[0].after, mid, last);
    }
  }

  lemma RecordsTransitive<W>(
    cfg: Config, st: Storage<W>, items: set<Item>, items': set<Item>, s: State<W>, s1: State<W>, s2: State<W>, id: Id)
    requires Evolves(cfg, st, items, s, s1) && Evolves(cfg, st, items', s1, s2)
    requires id in s.store
    ensures s.log <= s2.log
    ensures id !in s2.store <==> Reported(News(s, s2), id)
    ensures id in s2.store ==>
              LaterBy(cfg, s.store[id], s2.store[id], s.ticks, s2.ticks, Charges(News(s, s2), id))
    ensures id !in Names(items + items') ==> id in s2.store && s2.store[id] == s.store[id]
  {
    NewsConcat(s, s1, s2);
    var early, late := News(s, s1), News(s1, s2);
    ReportedConcat(early, late, id);
    ChargesConcat(early, late, id);
    if id in s2.store {
      LaterByTransitive(cfg, s.store[id], s1.store[id], s2.store[id], s.ticks, s1.ticks, s2.ticks,
        Charges(early, id), Charges(late, id));
    }
    assert Names(items + items') == Names(items) + Names(items');
  }

  lemma NewsTransitive<W>(
    cfg: Config, st: Storage<W>, items: set<Item>, items': set<Item>, s: State<W>, s1: State<W>, s2: State<W>)
    requires Evolves(cfg, st, items, s, s1) && Evolves(cfg, st, items', s1, s2)
    ensures Linked(News(s, s2), s.world, s2.world)
    ensures forall k :: 0 <= k < |News(s, s2)| ==> Genuine(st, items + items', News(s, s2)[k])
  {
    NewsConcat(s, s1, s2);
    var early, late := News(s, s1), News(s1, s2);
    LinkedConcat(early, late, s.world, s1.world, s2.world);
    forall k | 0 <= k < |News(s, s2)|
      ensures Genuine(st, items + items', News(s, s2)[k])
    {
      if k < |early| {
        assert Genuine(st, items, early[k]);
      } else {
        assert Genuine(st, items', late[k - |early|]);
      }
    }
  }

  lemma EvolvesTransitive<W>(
    cfg: Config, st: Storage<W>, items: set<Item>, items': set<Item>, s: State<W>, s1: State<W>, s2: State<W>)
    requires Evolves(cfg, st, items, s, s1) && Evolves(cfg, st, items', s1, s2)
    ensures Evolves(cfg, st, items + items', s, s2)
  {
    NewsTransitive(cfg, st, items, items', s, s1, s2);
    forall id | id in s.store
      ensures id !in s2.store <==> Reported(News(s, s2), id)
      ensures id in s2.store ==>
                LaterBy(cfg, s.store[id], s2.store[id], s.ticks, s2.ticks, Charges(News(s, s2), id))
      ensures id !in Names(items + items') ==> id in s2.store && s2.store[id] == s.store[id]
    {
      RecordsTransitive(cfg, st, items, items', s, s1, s2, id);
    }
  }

  lemma AccountedLater<W>(
    cfg: Config, st: Storage<W>, items: set<Item>, s: State<W>, s1: State<W>, s2: State<W>, id: Id)
    requires s1.store.Keys <= s.store.Keys && s.ticks <= s1.ticks
    requires Evolves(cfg, st, items, s1, s2)
    requires Accounted(cfg, s, s1, id)
    ensures Accounted(cfg, s, s2, id)
  {
  }

  lemma AccountedEarlier<W>(
    cfg: Config, st: Storage<W>, items: set<Item>, s: State<W>, s1: State<W>, s2: State<W>, id: Id)
    requires s2.store.Keys <= s1.store.Keys && s1.ticks <= s2.ticks
    requires Evolves(cfg, st, items, s, s1)
    requires Accounted(cfg, s1, s2, id)
    ensures Accounted(cfg, s, s2, id)
  {
  }

  // ---- The path loop ----

  function Elements(items: seq<Item>): set<Item> {
    set item | item in items
  }

  lemma EvolvesRefl<W>(cfg: Config, st: Storage<W>, items: set<Item>, s: State<W>)
    ensures Evolves(cfg, st, items, s, s)
  {
  }

  lemma GiveUpEvolves<W>(
    cfg: Config, st: Storage<W>, items: set<Item>, s: State<W>, reason: string)
    ensures var s' := GiveUp(cfg, s, Names(items), reason);
            Evolves(cfg, st, items, s, s') && forall item :: item in items ==> Accounted(cfg, s, s', item.id)
  {
    var s' := GiveUp(cfg, s, Names(items), reason);
    assert News(s, s') == [];
    forall id | id in s'.store && id in Names(items)
      ensures Stamped(cfg, s'.store[id], s.ticks, s'.ticks)
    {
      assert s'.store[id].lastFailureTime == Some(cfg.clock(s.ticks));
    }
  }

  lemma {:induction false} PrepareEvolves<W>(
    cfg: Config, st: Storage<W>, base: string, items: set<Item>, chunk: seq<Item>, s: State<W>, pairs: seq<(Id, string)>)
    requires Elements(chunk) <= items
    requires PairsFrom(st, base, items, pairs)
    ensures var (s', pairs') := Prepare(cfg, st, base, chunk, s, pairs);
            && Evolves(cfg, st, items, s, s')
            && s'.log == s.log && s'.world == s.world
            && PairsFrom(st, base, items, pairs')
            && AllIds(pairs) <= AllIds(pairs')
            && (forall item :: item in chunk ==> item.id in AllIds(pairs') || Accounted(cfg, s, s', item.id))
  {
    if chunk == [] {
      EvolvesRefl(cfg, st, items, s);
    } else {
      var item := chunk[0];
      var (s', pairs') := Prepare(cfg, st, base, chunk, s, pairs);
      match st.path(base, item.url) {
        case Ok(path) =>
          assert AllIds(pairs + [(item.id, path)]) == AllIds(pairs) + {item.id} by {
            forall id | id in AllIds(pairs) + {item.id}
              ensures id in AllIds(pairs + [(item.id, path)])
            {
              if id in AllIds(pairs) {
                var pair :| pair in pairs && pair.0 == id;
                assert pair in pairs + [(item.id, path)];
              } else {
                assert (item.id, path) in pairs + [(item.id, path)];
              }
            }
          }
          PrepareEvolves(cfg, st, base, items, chunk[1..], s, pairs + [(item.id, path)]);
        case Err(err) =>
          var s1 := GiveUp(cfg, s, {item.id}, err);
          assert Names({item}) == {item.id};
          GiveUpEvolves(cfg, st, {item}, s, err);
          PrepareEvolves(cfg, st, base, items, chunk[1..], s1, pairs);
          EvolvesTransitive(cfg, st, {item}, items, s, s1, s');
          assert {item} + items == items;
          AccountedLater(cfg, st, items, s, s1, s', item.id);
          forall other | other in chunk[1..] && other.id !in AllIds(pairs')
            ensures Accounted(cfg, s, s', other.id)
          {
            AccountedEarlier(cfg, st, {item}, s, s1, s', other.id);
          }
      }
    }
  }

  // ---- The reply of the client ----

  lemma RetryLater(cfg: Config, store: Store, ids: set<Id>, tick: nat, reason: string, id: Id)
    requires id in store
    ensures LaterBy(cfg, store[id], Retried(store, ids, cfg.clock(tick), reason, cfg.maxRetries)[id], tick, tick + 1,
                    if id in ids then 1 else 0)
    ensures id in ids ==> Stamped(cfg, Retried(store, ids, cfg.clock(tick), reason, cfg.maxRetries)[id], tick, tick + 1)
  {
    var r' := Retried(store, ids, cfg.clock(tick), reason, cfg.maxRetries)[id];
    if id in ids {
      assert r'.lastFailureTime == Some(cfg.clock(tick));
    }
  }

  lemma {:induction false} MarkErrorsLater<W>(
    cfg: Config, pairs: seq<(Id, string)>, errors: seq<(string, seq<string>)>, s: State<W>, id: Id)
    requires id in s.store
    ensures var s' := MarkErrors(cfg, pairs, errors, s);
            && s'.store.Keys == s.store.Keys && s'.world == s.world && s'.log == s.log && s.ticks <= s'.ticks
            && LaterBy(cfg, s.store[id], s'.store[id], s.ticks, s'.ticks, NamedIn(pairs, errors, id))
            && (NamedIn(pairs, errors, id) == 0 <==> id !in FailedIds(pairs, errors))
            && (NamedIn(pairs, errors, id) == 0 ==> s'.store[id] == s.store[id])
            && (NamedIn(pairs, errors, id) > 0 ==> Stamped(cfg, s'.store[id], s.ticks, s'.ticks))
  {
    if errors != [] {
      var ids := IdsAt(pairs, errors[0].1);
      var s1 := Retry(cfg, s, ids, errors[0].0);
      var s' := MarkErrors(cfg, pairs, errors, s);
      RetryLater(cfg, s.store, ids, s.ticks, errors[0].0, id);
      MarkErrorsLater(cfg, pairs, errors[1..], s1, id);
      LaterByTransitive(cfg, s.store[id], s1.store[id], s'.store[id], s.ticks, s1.ticks, s'.ticks,
        if id in ids then 1 else 0, NamedIn(pairs, errors[1..], id));
      FailedIdsCons(pairs, errors, id);
    }
  }

  lemma FailedIdsCons(pairs: seq<(Id, string)>, errors: seq<(string, seq<string>)>, id: Id)
    requires errors != []
    ensures id in FailedIds(pairs, errors) <==> id in IdsAt(pairs, errors[0].1) || id in FailedIds(pairs, errors[1..])
  {
    if id in IdsAt(pairs, errors[0].1) {
      var pair :| pair in pairs && pair.1 in errors[0].1 && pair.0 == id;
      assert errors[0] in errors;
    }
    if id in FailedIds(pairs, errors) {
      var pair, err :| pair in pairs && err in errors && pair.1 in err.1 && pair.0 == id;
      assert err == errors[0] || err in errors[1..];
    }
  }

  lemma SettleLater<W>(cfg: Config, pairs: seq<(Id, string)>, reply: Reply, s: State<W>, id: Id)
    requires id in s.store
    ensures var s' := Settle(cfg, pairs, reply, s);
            && s'.store.Keys <= s.store.Keys && s'.world == s.world && s'.log == s.log && s.ticks <= s'.ticks
            && (id !in s'.store <==> id in IdsAt(pairs, reply.deleted))
            && (id in s'.store ==>
                 var n := NamedIn(pairs, reply.errors, id) + if Missing(pairs, reply, id) then 1 else 0;
                 && LaterBy(cfg, s.store[id], s'.store[id], s.ticks, s'.ticks, n)
                 && (n == 0 ==> s'.store[id] == s.store[id])
                 && (id in AllIds(pairs) ==> n > 0)
                 && (n > 0 ==> Stamped(cfg, s'.store[id], s.ticks, s'.ticks)))
  {
    var marked := MarkErrors(cfg, pairs, reply.errors, s);
    MarkErrorsLater(cfg, pairs, reply.errors, s, id);
    var gone := IdsAt(pairs, reply.deleted);
    var cleaned := marked.(store := marked.store - gone);
    var missing := AllIds(pairs) - gone - FailedIds(pairs, reply.errors);
    var s' := Settle(cfg, pairs, reply, s);
    if id in cleaned.store && missing != {} {
      RetryLater(cfg, cleaned.store, missing, cleaned.ticks, "Not succeeded", id);
      LaterByTransitive(cfg, s.store[id], cleaned.store[id], s'.store[id], s.ticks, cleaned.ticks, s'.ticks,
        NamedIn(pairs, reply.errors, id), if id in missing then 1 else 0);
    }
  }

  // ---- Chunks, groups, batches ----

  lemma ChargesOne<W>(event: Event<W>, id: Id)
    ensures Charges([event], id) == Charge(event, id)
    ensures Reported([event], id) <==> Deletes(event, id)
  {
    assert [event][1..] == [];
    if Deletes(event, id) {
      assert Deletes([event][0], id);
    }
  }

  function AskedOf<W>(st: Storage<W>, base: string, group: set<Id>, pairs: seq<(Id, string)>, world: W): Event<W> {
    var (after, outcome) := st.deleteMany(world, base, PathsOf(pairs));
    Asked(group, base, pairs, world, after, outcome)
  }

  lemma AskLater<W>(
    cfg: Config, st: Storage<W>, base: string, group: set<Id>, pairs: seq<(Id, string)>, s: State<W>, id: Id)
    requires AllIds(pairs) <= group
    requires id in s.store
    ensures var s' := Ask(cfg, st, base, group, pairs, s);
            var event := AskedOf(st, base, group, pairs, s.world);
            && (id !in s'.store <==> Deletes(event, id))
            && (id in s'.store ==>
                 && LaterBy(cfg, s.store[id], s'.store[id], s.ticks, s'.ticks, Charge(event, id))
                 && (id !in group ==> s'.store[id] == s.store[id])
                 && (id in AllIds(pairs) ==>
                      s'.store[id].retryCount > s.store[id].retryCount && Stamped(cfg, s'.store[id], s.ticks, s'.ticks)))
  {
    var event := AskedOf(st, base, group, pairs, s.world);
    var asked := s.(world := event.after, log := s.log + [event]);
    match event.outcome {
      case Err(err) =>
        RetryLater(cfg, asked.store, group, asked.ticks, err, id);
      case Ok(reply) =>
        SettleLater(cfg, pairs, reply, asked, id);
        if NamedIn(pairs, reply.errors, id) > 0 {
          MarkErrorsLater(cfg, pairs, reply.errors, asked, id);
          assert id in AllIds(pairs);
        }
    }
  }

  lemma {:induction false} MarkErrorsShape<W>(
    cfg: Config, pairs: seq<(Id, string)>, errors: seq<(string, seq<string>)>, s: State<W>)
    ensures var s' := MarkErrors(cfg, pairs, errors, s);
            s'.store.Keys == s.store.Keys && s'.world == s.world && s'.log == s.log && s.ticks <= s'.ticks
  {
    if errors != [] {
      MarkErrorsShape(cfg, pairs, errors[1..], Retry(cfg, s, IdsAt(pairs, errors[0].1), errors[0].0));
    }
  }

  lemma AskShape<W>(cfg: Config, st: Storage<W>, base: string, group: set<Id>, pairs: seq<(Id, string)>, s: State<W>)
    ensures var s' := Ask(cfg, st, base, group, pairs, s);
            var event := AskedOf(st, base, group, pairs, s.world);
            && s'.store.Keys <= s.store.Keys && s'.world == event.after && s.ticks <= s'.ticks
            && s'.log == s.log + [event]
  {
    var event := AskedOf(st, base, group, pairs, s.world);
    var asked := s.(world := event.after, log := s.log + [event]);
    if event.outcome.Ok? {
      MarkErrorsShape(cfg, pairs, event.outcome.value.errors, asked);
    }
  }

  lemma AskEvolves<W>(
    cfg: Config, st: Storage<W>, base: string, items: set<Item>, pairs: seq<(Id, string)>, s: State<W>)
    requires PairsFrom(st, base, items, pairs)
    ensures var s' := Ask(cfg, st, base, Names(items), pairs, s);
            && Evolves(cfg, st, items, s, s')
            && (forall id :: id in AllIds(pairs) && id in s.store ==> Accounted(cfg, s, s', id))
  {
    var s' := Ask(cfg, st, base, Names(items), pairs, s);
    var event := AskedOf(st, base, Names(items), pairs, s.world);
    AskShape(cfg, st, base, Names(items), pairs, s);
    assert News(s, s') == [event];
    assert [event][1..] == [];
    forall id | id in s.store
      ensures id !in s'.store <==> Reported([event], id)
      ensures id in s'.store ==> LaterBy(cfg, s.store[id], s'.store[id], s.ticks, s'.ticks, Charges([event], id))
      ensures id in s'.store && id !in Names(items) ==> s'.store[id] == s.store[id]
      ensures id !in Names(items) ==> id in s'.store
      ensures id in AllIds(pairs) ==> Accounted(cfg, s, s', id)
    {
      ChargesOne(event, id);
      AskLater(cfg, st, base, Names(items), pairs, s, id);
    }
  }

  lemma ChunkEvolves<W>(
    cfg: Config, st: Storage<W>, base: string, items: set<Item>, chunk: seq<Item>, s: State<W>)
    requires Elements(chunk) <= items
    ensures var s' := Chunk(cfg, st, base, Names(items), chunk, s);
            && Evolves(cfg, st, items, s, s')
            && (forall item :: item in chunk ==> Accounted(cfg, s, s', item.id))
  {
    var (prepared, pairs) := Prepare(cfg, st, base, chunk, s, []);
    PrepareEvolves(cfg, st, base, items, chunk, s, []);
    if pairs != [] {
      var s' := Ask(cfg, st, base, Names(items), pairs, prepared);
      AskEvolves(cfg, st, base, items, pairs, prepared);
      EvolvesTransitive(cfg, st, items, items, s, prepared, s');
      assert items + items == items;
      forall item | item in chunk
        ensures Accounted(cfg, s, s', item.id)
      {
        if item.id in AllIds(pairs) {
          AccountedEarlier(cfg, st, items, s, prepared, s', item.id);
        } else {
          AccountedLater(cfg, st, items, s, prepared, s', item.id);
        }
      }
    }
  }

  lemma {:induction false} ChunksEvolve<W>(
    cfg: Config, st: Storage<W>, base: string, items: set<Item>, urls: seq<Item>, s: State<W>)
    requires st.chunkSize > 0
    requires Elements(urls) <= items
    ensures var s' := Chunks(cfg, st, base, Names(items), urls, s);
            && Evolves(cfg, st, items, s, s')
            && (forall item :: item in urls ==> Accounted(cfg, s, s', item.id))
    decreases |urls|
  {
    if urls == [] {
      EvolvesRefl(cfg, st, items, s);
    } else {
      var n := Min(st.chunkSize, |urls|);
      var s1 := Chunk(cfg, st, base, Names(items), urls[..n], s);
      var s' := Chunks(cfg, st, base, Names(items), urls, s);
      ChunkEvolves(cfg, st, base, items, urls[..n], s);
      ChunksEvolve(cfg, st, base, items, urls[n..], s1);
      EvolvesTransitive(cfg, st, items, items, s, s1, s');
      assert items + items == items;
      forall item | item in urls
        ensures Accounted(cfg, s, s', item.id)
      {
        if item in urls[..n] {
          AccountedLater(cfg, st, items, s, s1, s', item.id);
        } else {
          assert urls == urls[..n] + urls[n..];
          AccountedEarlier(cfg, st, items, s, s1, s', item.id);
        }
      }
    }
  }

  lemma GroupEvolves<W>(
    cfg: Config, st: Storage<W>, base: Option<string>, urls: seq<Item>, s: State<W>)
    requires st.chunkSize > 0
    ensures var s' := Group(cfg, st, base, urls, s);
            && Evolves(cfg, st, Elements(urls), s, s')
            && (forall item :: item in urls ==> Accounted(cfg, s, s', item.id))
  {
    var items := Elements(urls);
    assert Names(items) == IdsOf(urls);
    if base.None? || base.value == "" {
      GiveUpEvolves(cfg, st, items, s, st.invalid);
    } else {
      var (world, failure) := st.connect(s.world, base.value);
      var s' := Group(cfg, st, base, urls, s);
      match failure {
        case Some(err) =>
          var event := Refused(IdsOf(urls), base.value, s.world, world);
          assert [event][1..] == [];
          forall id | id in s.store
            ensures LaterBy(cfg, s.store[id], s'.store[id], s.ticks, s'.ticks, Charges([event], id))
            ensures id in IdsOf(urls) ==> Accounted(cfg, s, s', id)
            ensures !Reported([event], id)
          {
            ChargesOne<W>(event, id);
            RetryLater(cfg, s.store, IdsOf(urls), s.ticks, err, id);
          }
          assert News(s, s') == [event];
        case None =>
          var s1 := s.(world := world, log := s.log + [Connected(base.value, s.world, world)]);
          ConnectEvolves(cfg, st, items, s, base.value);
          ChunksEvolve(cfg, st, base.value, items, urls, s1);
          EvolvesTransitive(cfg, st, items, items, s, s1, s');
          assert items + items == items;
          forall item | item in urls
            ensures Accounted(cfg, s, s', item.id)
          {
            AccountedEarlier(cfg, st, items, s, s1, s', item.id);
          }
      }
    }
  }

  lemma ConnectEvolves<W>(
    cfg: Config, st: Storage<W>, items: set<Item>, s: State<W>, base: string)
    requires st.connect(s.world, base).1.None?
    ensures var after := st.connect(s.world, base).0;
            Evolves(cfg, st, items, s, s.(world := after, log := s.log + [Connected(base, s.world, after)]))
  {
    var after := st.connect(s.world, base).0;
    var event := Connected(base, s.world, after);
    var s' := s.(world := after, log := s.log + [event]);
    assert News(s, s') == [event] && [event][1..] == [];
    forall id
      ensures Charges([event], id) == 0 && !Reported([event], id)
    {
      ChargesOne<W>(event, id);
    }
  }

  function Contents(groups: Buckets): set<Item> {
    set group, item | group in groups && item in group.1 :: item
  }

  lemma {:induction false} GroupsEvolve<W>(
    cfg: Config, st: Storage<W>, groups: Buckets, s: State<W>)
    requires st.chunkSize > 0
    ensures var s' := Groups(cfg, st, groups, s);
            && Evolves(cfg, st, Contents(groups), s, s')
            && (forall item :: item in Contents(groups) ==> Accounted(cfg, s, s', item.id))
  {
    if groups == [] {
      EvolvesRefl(cfg, st, {}, s);
    } else {
      var s1 := Group(cfg, st, groups[0].0, groups[0].1, s);
      var s' := Groups(cfg, st, groups, s);
      GroupEvolves(cfg, st, groups[0].0, groups[0].1, s);
      GroupsEvolve(cfg, st, groups[1..], s1);
      EvolvesTransitive(cfg, st, Elements(groups[0].1), Contents(groups[1..]), s, s1, s');
      ContentsCons(groups);
      forall item | item in Contents(groups)
        ensures Accounted(cfg, s, s', item.id)
      {
        if item in Elements(groups[0].1) {
          AccountedLater(cfg, st, Contents(groups[1..]), s, s1, s', item.id);
        } else {
          AccountedEarlier(cfg, st, Elements(groups[0].1), s, s1, s', item.id);
        }
      }
    }
  }

  lemma ContentsCons(groups: Buckets)
    requires groups != []
    ensures Contents(groups) == Elements(groups[0].1) + Contents(groups[1..])
  {
    forall item
      ensures item in Contents(groups) <==> item in Elements(groups[0].1) + Contents(groups[1..])
    {
      if item in Contents(groups) {
        var group :| group in groups && item in group.1;
        assert group == groups[0] || group in groups[1..];
      }
      if item in Elements(groups[0].1) {
        assert groups[0] in groups;
      }
    }
  }

  lemma {:induction false} AddToBucketContents(buckets: Buckets, key: Option<string>, item: Item)
    ensures Contents(AddToBucket(buckets, key, item)) == Contents(buckets) + {item}
  {
    var added := AddToBucket(buckets, key, item);
    ContentsCons(added);
    if buckets == [] {
    } else {
      ContentsCons(buckets);
      if buckets[0].0 == key {
        assert added[1..] == buckets[1..];
        assert Elements(added[0].1) == Elements(buckets[0].1) + {item};
      } else {
        assert added[1..] == AddToBucket(buckets[1..], key, item);
        AddToBucketContents(buckets[1..], key, item);
      }
    }
  }

  /** The in-memory documents of a batch, whatever group they land in. */
  function Loaded<W>(st: Storage<W>, store: Store, batch: seq<Id>): set<Item>
    requires forall id :: id in batch ==> id in store
  {
    set id | id in batch :: Item(id, st.resolve(store[id].url).1)
  }

  /** Grouping loses no record and invents none. */
  lemma {:induction false} BucketizeContents<W>(st: Storage<W>, store: Store, batch: seq<Id>)
    requires forall id :: id in batch ==> id in store
    ensures Contents(Bucketize(st, store, batch)) == Loaded(st, store, batch)
  {
    if batch != [] {
      var rest := batch[..|batch| - 1];
      var id := batch[|batch| - 1];
      assert batch == rest + [id];
      BucketizeContents(st, store, rest);
      var (key, url) := st.resolve(store[id].url);
      AddToBucketContents(Bucketize(st, store, rest), key, Item(id, url));
    }
  }

  // ---- The call as a whole ----

  lemma BatchEvolves<W>(cfg: Config, st: Storage<W>, batch: seq<Id>, s: State<W>)
    requires st.chunkSize > 0
    requires forall id :: id in batch ==> id in s.store
    ensures Evolves(cfg, st, Loaded(st, s.store, batch), s, DeleteBatch(cfg, st, batch, s))
    ensures forall id :: id in batch ==> Accounted(cfg, s, DeleteBatch(cfg, st, batch, s), id)
  {
    BucketizeContents(st, s.store, batch);
    GroupsEvolve(cfg, st, Bucketize(st, s.store, batch), s);
    forall id | id in batch
      ensures Accounted(cfg, s, DeleteBatch(cfg, st, batch, s), id)
    {
      assert Item(id, st.resolve(s.store[id].url).1) in Loaded(st, s.store, batch);
    }
  }

  /**
    No selected record is unaccounted for. Whatever the storage does, a record that is still there has
    failed for good or counted a new failure, and its failure time was read during the call.
   */
  lemma EveryRecordAccounted<W>(cfg: Config, st: Storage<W>, batch: seq<Id>, s: State<W>, id: Id)
    requires st.chunkSize > 0
    requires forall x :: x in batch ==> x in s.store
    requires id in batch
    ensures var s' := DeleteBatch(cfg, st, batch, s);
            id in s'.store ==>
              && (s'.store[id].status == Failed || s'.store[id].retryCount > s.store[id].retryCount)
              && Stamped(cfg, s'.store[id], s.ticks, s'.ticks)
              && s'.store[id].url == s.store[id].url && s'.store[id].company == s.store[id].company
  {
    BatchEvolves(cfg, st, batch, s);
  }

  /** A record is removed exactly when the client answering for its own chunk reported its path deleted. */
  lemma RemovedIffReported<W>(cfg: Config, st: Storage<W>, batch: seq<Id>, s: State<W>, id: Id)
    requires st.chunkSize > 0
    requires forall x :: x in batch ==> x in s.store
    requires id in s.store
    ensures var s' := DeleteBatch(cfg, st, batch, s);
            s.log <= s'.log && (id !in s'.store <==> Reported(s'.log[|s.log|..], id))
  {
    BatchEvolves(cfg, st, batch, s);
  }

  /** Records outside the batch keep every field, and none is added. */
  lemma OthersUntouched<W>(cfg: Config, st: Storage<W>, batch: seq<Id>, s: State<W>)
    requires st.chunkSize > 0
    requires forall x :: x in batch ==> x in s.store
    ensures var s' := DeleteBatch(cfg, st, batch, s);
            && s'.store.Keys <= s.store.Keys
            && forall id :: id in s.store && id !in batch ==> id in s'.store && s'.store[id] == s.store[id]
  {
    BatchEvolves(cfg, st, batch, s);
    assert forall id :: id in Names(Loaded(st, s.store, batch)) ==> id in batch;
  }

  /**
    The exact retry count: one for a refused connection, one for every client exception anywhere in
    the record's group, one for each error report naming its path, one if its chunk's reply forgot it.
   */
  lemma RetryCountExact<W>(cfg: Config, st: Storage<W>, batch: seq<Id>, s: State<W>, id: Id)
    requires st.chunkSize > 0
    requires forall x :: x in batch ==> x in s.store
    ensures var s' := DeleteBatch(cfg, st, batch, s);
            s.log <= s'.log && (id in s'.store ==>
              && id in s.store
              && s'.store[id].retryCount == s.store[id].retryCount + Charges(s'.log[|s.log|..], id))
  {
    BatchEvolves(cfg, st, batch, s);
  }

  /** What every stretch of the job keeps: identity, the retry bound, failure, and the removal rule. */
  ghost predicate Onward<W>(cfg: Config, s: State<W>, s': State<W>) {
    && s.log <= s'.log
    && s'.store.Keys <= s.store.Keys
    && (forall id :: id in s'.store ==>
          && s'.store[id].retryCount >= s.store[id].retryCount
          && s'.store[id].company == s.store[id].company
          && s'.store[id].url == s.store[id].url
          && s'.store[id].storageType == s.store[id].storageType
          && (s.store[id].status == Failed ==> s'.store[id].status == Failed)
          && (Bounded(cfg, s.store[id]) ==> Bounded(cfg, s'.store[id])))
    && (forall id :: id in s.store ==> (id !in s'.store <==> Reported(News(s, s'), id)))
  }

  /**
    `retry_count >= max_retries` implies failed: kept by every call. Failed is never left, counts never
    drop, and a record disappears only when its deletion was reported.
   */
  lemma InvariantsKept<W>(cfg: Config, st: Storage<W>, batch: seq<Id>, s: State<W>)
    requires st.chunkSize > 0
    requires forall x :: x in batch ==> x in s.store
    ensures Onward(cfg, s, DeleteBatch(cfg, st, batch, s))
  {
    BatchEvolves(cfg, st, batch, s);
  }
}
