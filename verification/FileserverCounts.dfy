/**
  How high one call can count a record of the fileserver, over all servers and networks.

  Two urls that differ in slashes at their ends ask for one path, and then the server's reply names that path under a
  reason for each of them.
 */
module FileserverCounts {
  import opened Common
  import opened UrlDeletion
  import opened UrlDeletionLaws
  import opened UrlDeletionBounds
  import opened UrlDeletionCounts
  import opened FileserverJob
  import Files = BatchDelete

  // ---- How many reasons a reply gives for a path ----

  lemma {:induction false} RecordNames(errors: Files.Errors, msg: string, file: string, path: string)
    ensures Naming(Files.Record(errors, msg, file), path) <= Naming(errors, path) + if file == path then 1 else 0
    ensures file != path ==> Naming(Files.Record(errors, msg, file), path) == Naming(errors, path)
  {
    if errors != [] {
      var recorded := Files.Record(errors, msg, file);
      if errors[0].0 == msg {
        assert recorded[1..] == errors[1..];
      } else {
        RecordNames(errors[1..], msg, file, path);
        assert recorded[1..] == Files.Record(errors[1..], msg, file);
      }
    }
  }

  lemma {:induction false} RepliesName(server: Files.Server, files: seq<string>, disk: Files.Disk, answer: Files.Answer, path: string)
    ensures var response := Files.DeleteFiles(server, files, disk, answer).1;
            response.Some? ==> Naming(response.value.errors, path) <= Naming(answer.errors, path) + Occurs(files, path)
  {
    if files != [] {
      var file, rest := files[0], files[1..];
      if Files.EmptyPath(server.decode(file)) {
        RecordNames(answer.errors, "Empty path not allowed", file, path);
        RepliesName(server, rest, disk, Files.Failed(answer, "Empty path not allowed", file), path);
      } else if server.authorized(server.decode(file)) {
        var (disk', failure) := Files.Remove(server, file, disk);
        if failure.Some? {
          RecordNames(answer.errors, failure.value, file, path);
        }
        RepliesName(server, rest, disk', Files.Noted(server, file, failure, answer), path);
      }
    }
  }

  /** The path is named under no reason but the given one, and that reason is there once. */
  predicate NamedUnder(errors: Files.Errors, path: string, msg: string) {
    errors == [] ||
    if errors[0].0 == msg then Naming(errors[1..], path) == 0
    else path !in errors[0].1 && NamedUnder(errors[1..], path, msg)
  }

  lemma {:induction false} RecordUnder(errors: Files.Errors, msg: string, file: string, path: string, only: string)
    requires NamedUnder(errors, path, only) && (file == path ==> msg == only)
    ensures NamedUnder(Files.Record(errors, msg, file), path, only)
  {
    if errors != [] {
      var recorded := Files.Record(errors, msg, file);
      if errors[0].0 == msg {
        assert recorded[1..] == errors[1..];
      } else {
        assert recorded[1..] == Files.Record(errors[1..], msg, file);
        if errors[0].0 == only {
          RecordNames(errors[1..], msg, file, path);
        } else {
          RecordUnder(errors[1..], msg, file, path, only);
        }
      }
    }
  }

  lemma {:induction false} UnderOneReason(errors: Files.Errors, path: string, msg: string)
    requires NamedUnder(errors, path, msg)
    ensures Naming(errors, path) <= 1
  {
    if errors != [] && errors[0].0 != msg {
      UnderOneReason(errors[1..], path, msg);
    }
  }

  lemma {:induction false} EmptyHasOneReason(
    server: Files.Server, files: seq<string>, disk: Files.Disk, answer: Files.Answer, path: string)
    requires Files.EmptyPath(server.decode(path)) && NamedUnder(answer.errors, path, "Empty path not allowed")
    ensures var response := Files.DeleteFiles(server, files, disk, answer).1;
            response.Some? ==> NamedUnder(response.value.errors, path, "Empty path not allowed")
  {
    if files != [] {
      var file, rest := files[0], files[1..];
      if Files.EmptyPath(server.decode(file)) {
        RecordUnder(answer.errors, "Empty path not allowed", file, path, "Empty path not allowed");
        EmptyHasOneReason(server, rest, disk, Files.Failed(answer, "Empty path not allowed", file), path);
      } else if server.authorized(server.decode(file)) {
        var (disk', failure) := Files.Remove(server, file, disk);
        if failure.Some? {
          RecordUnder(answer.errors, failure.value, file, path, "Empty path not allowed");
        }
        EmptyHasOneReason(server, rest, disk', Files.Noted(server, file, failure, answer), path);
      }
    }
  }

  /** What the fileserver keeps: a reason for each time the path is asked for, or one if it decodes to nothing. */
  function Allowed(setup: Setup, paths: seq<string>, path: string): nat {
    if Files.EmptyPath(setup.server.decode(path)) then 1 else Occurs(paths, path)
  }

  function Measure(setup: Setup): Cap {
    (paths, path) => Allowed(setup, paths, path)
  }

  lemma {:induction false} OccursInside(paths: seq<string>, path: string)
    ensures path in paths <==> Occurs(paths, path) >= 1
  {
    if paths != [] {
      OccursInside(paths[1..], path);
    }
  }

  lemma PostMeasured(setup: Setup, site: Site, paths: seq<string>, path: string)
    requires Post(setup, site, paths).1.Ok?
    ensures Naming(Post(setup, site, paths).1.value.errors, path) <= Allowed(setup, paths, path)
  {
    var answer := Files.Answer([], []);
    RepliesName(setup.server, paths, site.disk, answer, path);
    if Files.EmptyPath(setup.server.decode(path)) {
      EmptyHasOneReason(setup.server, paths, site.disk, answer, path);
      UnderOneReason(Post(setup, site, paths).1.value.errors, path, "Empty path not allowed");
    }
  }

  lemma FileserverWithin(setup: Setup)
    ensures Within(FileserverStorage(setup), Measure(setup))
  {
    forall site, paths, path | Post(setup, site, paths).1.Ok?
      ensures Naming(Post(setup, site, paths).1.value.errors, path) <= Allowed(setup, paths, path)
    {
      PostMeasured(setup, site, paths, path);
    }
  }

  predicate Distinct(paths: seq<string>) {
    forall i, j :: 0 <= i < j < |paths| ==> paths[i] != paths[j]
  }

  lemma {:induction false} DistinctOccurs(paths: seq<string>, path: string)
    requires Distinct(paths)
    ensures Occurs(paths, path) <= 1
  {
    if paths != [] {
      assert forall i :: 0 <= i < |paths[1..]| ==> paths[1..][i] == paths[i + 1];
      DistinctOccurs(paths[1..], path);
      OccursInside(paths[1..], path);
    }
  }

  /** A request for distinct paths is answered with one reason for each path at most. */
  lemma DistinctIsTidy(setup: Setup, site: Site, paths: seq<string>)
    requires Distinct(paths) && Post(setup, site, paths).1.Ok?
    ensures Tidy(Post(setup, site, paths).1.value)
  {
    forall path ensures Naming(Post(setup, site, paths).1.value.errors, path) <= 1 {
      PostMeasured(setup, site, paths, path);
      DistinctOccurs(paths, path);
    }
  }

  // ---- What is known before the call ----

  /** The path that is asked for a url, if there is one. */
  function AskedPath(setup: Setup, url: string): Option<string> {
    var (key, rest) := Resolve(setup, url);
    if key.None? || key.value == "" then None
    else match ClientPath(rest) case Ok(path) => Some(path) case Err(_) => None
  }

  /** How many records of the batch ask for the path. */
  function Sharers(setup: Setup, store: Store, batch: seq<Id>, path: string): nat
    requires forall id :: id in batch ==> id in store
  {
    if batch == [] then 0
    else
      var last := |batch| - 1;
      Sharers(setup, store, batch[..last], path) + if AskedPath(setup, store[batch[last]].url) == Some(path) then 1 else 0
  }

  /** The record asks for nothing, or for a path that decodes to nothing, or shares its path with at most `n - 1` others. */
  predicate CountsUpTo(setup: Setup, store: Store, batch: seq<Id>, id: Id, n: nat)
    requires (forall x :: x in batch ==> x in store) && id in store
  {
    match AskedPath(setup, store[id].url)
    case None => true
    case Some(path) => Files.OnlySlashes(setup.server.decode(path)) || Sharers(setup, store, batch, path) <= n
  }

  lemma {:induction false} OccursConcat(a: seq<string>, b: seq<string>, path: string)
    ensures Occurs(a + b, path) == Occurs(a, path) + Occurs(b, path)
  {
    if a == [] {
      assert a + b == b;
    } else {
      assert (a + b)[1..] == a[1..] + b;
      OccursConcat(a[1..], b, path);
    }
  }

  lemma {:induction false} PairsConcat<W>(st: Storage<W>, base: string, a: seq<Item>, b: seq<Item>)
    ensures PairsOf(st, base, a + b) == PairsOf(st, base, a) + PairsOf(st, base, b)
  {
    if a == [] {
      assert a + b == b;
    } else {
      assert (a + b)[1..] == a[1..] + b;
      PairsConcat(st, base, a[1..], b);
    }
  }

  /** How often the items ask for the path. */
  function Wanted(st: Storage<Site>, base: string, items: seq<Item>, path: string): nat {
    Occurs(PathsOf(PairsOf(st, base, items)), path)
  }

  lemma WantedConcat(st: Storage<Site>, base: string, a: seq<Item>, b: seq<Item>, path: string)
    ensures Wanted(st, base, a + b, path) == Wanted(st, base, a, path) + Wanted(st, base, b, path)
  {
    PairsConcat(st, base, a, b);
    var one, two := PairsOf(st, base, a), PairsOf(st, base, b);
    assert PathsOf(one + two) == PathsOf(one) + PathsOf(two);
    OccursConcat(PathsOf(one), PathsOf(two), path);
  }

  lemma OccursOne(own: string, path: string)
    ensures Occurs([own], path) == if own == path then 1 else 0
  {
    assert Occurs([own][1..], path) == 0;
  }

  lemma PairsOne<W>(st: Storage<W>, base: string, item: Item)
    ensures PairsOf(st, base, [item])
         == if st.path(base, item.url).Ok? then [(item.id, st.path(base, item.url).value)] else []
  {
    assert [item][1..] == [];
  }

  lemma WantedOne(setup: Setup, st: Storage<Site>, base: string, item: Item, path: string)
    requires IsFileserver(st, setup)
    ensures Wanted(st, base, [item], path) == if ClientPath(item.url) == Ok(path) then 1 else 0
  {
    PairsOne(st, base, item);
    var pairs := PairsOf(st, base, [item]);
    match ClientPath(item.url) {
      case Ok(own) =>
        assert PathsOf(pairs) == [own];
        OccursOne(own, path);
      case Err(_) =>
        assert PathsOf(pairs) == [];
    }
  }

  lemma {:induction false} SharersWant(setup: Setup, st: Storage<Site>, store: Store, batch: seq<Id>, path: string)
    requires (forall id :: id in batch ==> id in store) && IsFileserver(st, setup) && setup.host != ""
    ensures Wanted(st, setup.host, GroupOf(st, store, batch, Some(setup.host)), path) == Sharers(setup, store, batch, path)
  {
    if batch != [] {
      var last := |batch| - 1;
      var (key, url) := Resolve(setup, store[batch[last]].url);
      var less := GroupOf(st, store, batch[..last], Some(setup.host));
      SharersWant(setup, st, store, batch[..last], path);
      if key == Some(setup.host) {
        WantedConcat(st, setup.host, less, [Item(batch[last], url)], path);
        WantedOne(setup, st, setup.host, Item(batch[last], url), path);
      } else {
        assert less + [] == less;
      }
    }
  }

  lemma {:induction false} PairsHold<W>(st: Storage<W>, base: string, items: seq<Item>, item: Item)
    requires item in items && st.path(base, item.url).Ok?
    ensures item.id in AllIds(PairsOf(st, base, items))
  {
    var pairs := PairsOf(st, base, items);
    if items[0] == item {
      assert pairs[0] == (item.id, st.path(base, item.url).value);
    } else {
      PairsHold(st, base, items[1..], item);
      var pair :| pair in PairsOf(st, base, items[1..]) && pair.0 == item.id;
      assert pair in pairs;
    }
  }

  lemma {:induction false} PairsLack<W>(st: Storage<W>, base: string, items: seq<Item>, id: Id)
    requires forall item :: item in items && item.id == id ==> st.path(base, item.url).Err?
    ensures id !in AllIds(PairsOf(st, base, items))
  {
    if items != [] {
      assert items[0] in items;
      assert forall item :: item in items[1..] ==> item in items;
      PairsLack(st, base, items[1..], id);
    }
  }

  lemma {:induction false} GroupItems<W>(st: Storage<W>, store: Store, batch: seq<Id>, key: Option<string>, id: Id)
    requires (forall x :: x in batch ==> x in store) && id in store
    ensures forall item :: item in GroupOf(st, store, batch, key) && item.id == id ==> item.url == st.resolve(store[id].url).1
  {
    if batch != [] {
      GroupItems(st, store, batch[..|batch| - 1], key, id);
    }
  }

  /** The group of a record with its one request. */
  ghost predicate OneRequest(setup: Setup, st: Storage<Site>, store: Store, batch: seq<Id>, id: Id)
    requires (forall x :: x in batch ==> x in store) && id in store
  {
    var items := GroupOf(st, store, batch, Some(setup.host));
    var pairs := PairsOf(st, setup.host, items);
    && |items| <= st.chunkSize
    && (AskedPath(setup, store[id].url).None? ==> id !in AllIds(pairs))
    && (AskedPath(setup, store[id].url).Some? ==>
         && id in AllIds(pairs) && pairs != []
         && OwnPairs(pairs, id, AskedPath(setup, store[id].url).value)
         && Occurs(PathsOf(pairs), AskedPath(setup, store[id].url).value)
            == Sharers(setup, store, batch, AskedPath(setup, store[id].url).value) >= 1)
  }

  lemma FitsOneRequest(setup: Setup, st: Storage<Site>, store: Store, batch: seq<Id>, id: Id)
    requires (forall x :: x in batch ==> x in store) && id in batch && |batch| <= BATCH_LIMIT
    requires IsFileserver(st, setup) && Resolve(setup, store[id].url).0 == Some(setup.host) && setup.host != ""
    ensures OneRequest(setup, st, store, batch, id)
  {
    var url := Resolve(setup, store[id].url).1;
    var items := GroupOf(st, store, batch, Some(setup.host));
    var pairs := PairsOf(st, setup.host, items);
    GroupHolds(st, store, batch, Some(setup.host), id);
    GroupItems(st, store, batch, Some(setup.host), id);
    match ClientPath(url) {
      case Ok(path) =>
        var item :| item in items && item.id == id;
        PairsHold(st, setup.host, items, item);
        PairsOwn(st, setup.host, items, id, path);
        OwnPathAsked(pairs, id, path);
        SharersWant(setup, st, store, batch, path);
        OccursInside(PathsOf(pairs), path);
      case Err(_) =>
        PairsLack(st, setup.host, items, id);
    }
  }

  // ---- The bound ----

  lemma OneChunkExposure<W>(st: Storage<W>, cap: Cap, base: string, items: seq<Item>, id: Id, path: string)
    requires st.chunkSize > 0 && |items| <= st.chunkSize
    ensures ChunksExposure(st, cap, base, items, id, path)
         <= (if PairsOf(st, base, items) == [] then 0 else Exposed(cap, PairsOf(st, base, items), id, path))
  {
    if items != [] {
      assert items[..|items|] == items && items[|items|..] == [];
    }
  }

  /** Whatever servers and network do, one call counts a record at most as often as its path is asked for, or once. */
  lemma FileserverCounts(cfg: Config, setup: Setup, batch: seq<Id>, s: State<Site>, id: Id, n: nat)
    requires (forall x :: x in batch ==> x in s.store) && id in batch && |batch| <= BATCH_LIMIT && n >= 1
    requires CountsUpTo(setup, s.store, batch, id, n)
    ensures CountedAtMost(cfg, FileserverStorage(setup), batch, s, id, n)
  {
    var st := FileserverStorage(setup);
    var (key, url) := Resolve(setup, s.store[id].url);
    FileserverStorageIs(setup);
    FileserverWithin(setup);
    CountsWithin(cfg, st, Measure(setup), batch, s, id);
    if key.Some? && key.value != "" {
      FitsOneRequest(setup, st, s.store, batch, id);
      OneChunkExposure(st, Measure(setup), key.value, GroupOf(st, s.store, batch, key), id, PathOr(st, key.value, url));
    }
  }

  // ---- A server that reaches it ----

  const ONE_FILE: Files.Tree := map[[] := Files.Folder, ["x"] := Files.File]

  /** Every path leads to the one file, which cannot be unlinked: each try has its own reason. */
  ghost predicate IsStuck(server: Files.Server) {
    && (forall path :: server.locate(path) == Some(["x"]) && server.authorized(path))
    && (forall calls: nat, path :: server.unlink(calls, path) == Some(Unary(calls + 23)))
    && (forall calls: nat, tree, path :: server.rmtree(calls, tree, path) == (tree, Some("busy")))
  }

  function Stuck(setup: Setup): Setup {
    setup.(
      ping := n => None,
      network := n => Delivered,
      server := Files.Server(setup.server.decode, path => Some(["x"]), path => true,
                             (calls: nat, path) => Some(Unary(calls + 23)),
                             (calls: nat, tree, path) => (tree, Some("busy"))))
  }

  /** All reasons are shorter. */
  predicate Shorter(errors: Files.Errors, n: nat) {
    forall entry :: entry in errors ==> |entry.0| < n
  }

  lemma {:induction false} RecordShorter(errors: Files.Errors, msg: string, file: string, n: nat)
    requires Shorter(errors, n) && |msg| < n
    ensures Shorter(Files.Record(errors, msg, file), n)
  {
    if errors != [] {
      assert errors[0] in errors;
      if errors[0].0 != msg {
        RecordShorter(errors[1..], msg, file, n);
      }
    }
  }

  lemma {:induction false} NewReason(errors: Files.Errors, msg: string, file: string, path: string)
    requires Shorter(errors, |msg|)
    ensures Naming(Files.Record(errors, msg, file), path) == Naming(errors, path) + if file == path then 1 else 0
  {
    if errors != [] {
      assert errors[0] in errors;
      NewReason(errors[1..], msg, file, path);
      assert Files.Record(errors, msg, file)[1..] == Files.Record(errors[1..], msg, file);
    }
  }

  lemma {:induction false} StuckReply(server: Files.Server, files: seq<string>, disk: Files.Disk, answer: Files.Answer, path: string)
    requires IsStuck(server) && disk.tree == ONE_FILE && Shorter(answer.errors, disk.calls + 23)
    requires !Files.EmptyPath(server.decode(path))
    ensures var response := Files.DeleteFiles(server, files, disk, answer).1;
            response.Some? && Naming(response.value.errors, path) == Naming(answer.errors, path) + Occurs(files, path)
  {
    if files != [] {
      var file, rest := files[0], files[1..];
      if Files.EmptyPath(server.decode(file)) {
        RecordNames(answer.errors, "Empty path not allowed", file, path);
        RecordShorter(answer.errors, "Empty path not allowed", file, disk.calls + 23);
        StuckReply(server, rest, disk, Files.Failed(answer, "Empty path not allowed", file), path);
      } else {
        var reason := Unary(disk.calls + 23);
        StuckRemoves(server, file, disk);
        ReasonAdded(answer.errors, disk.calls + 23, file, path);
        StuckReply(server, rest, Files.Disk(ONE_FILE, disk.calls + 1), Files.Failed(answer, reason, file), path);
      }
    }
  }

  /** One try to remove the file. */
  lemma StuckRemoves(server: Files.Server, file: string, disk: Files.Disk)
    requires IsStuck(server) && disk.tree == ONE_FILE
    ensures Files.Remove(server, file, disk) == (Files.Disk(ONE_FILE, disk.calls + 1), Some(Unary(disk.calls + 23)))
  {
  }

  lemma ReasonAdded(errors: Files.Errors, n: nat, file: string, path: string)
    requires Shorter(errors, n)
    ensures Shorter(Files.Record(errors, Unary(n), file), n + 1)
    ensures Naming(Files.Record(errors, Unary(n), file), path) == Naming(errors, path) + if file == path then 1 else 0
  {
    UnaryLength(n);
    NewReason(errors, Unary(n), file, path);
    RecordShorter(errors, Unary(n), file, n + 1);
  }

  lemma {:induction false} StuckKeeps(server: Files.Server, files: seq<string>, disk: Files.Disk, answer: Files.Answer)
    requires IsStuck(server)
    ensures var response := Files.DeleteFiles(server, files, disk, answer).1;
            response.Some? && response.value.deleted == answer.deleted
  {
    if files != [] {
      var file, rest := files[0], files[1..];
      if Files.EmptyPath(server.decode(file)) {
        StuckKeeps(server, rest, disk, Files.Failed(answer, "Empty path not allowed", file));
      } else {
        var (disk', failure) := Files.Remove(server, file, disk);
        StuckKeeps(server, rest, disk', Files.Noted(server, file, failure, answer));
      }
    }
  }

  /** A group that connects and fits one request. */
  lemma OneRequestCharges<W>(st: Storage<W>, base: string, items: seq<Item>, w: W, id: Id)
    requires base != "" && 0 < |items| <= st.chunkSize && PairsOf(st, base, items) != [] && st.connect(w, base).1.None?
    ensures Charges(GroupEvents(st, Some(base), items, w), id)
         == Charge(AskedOf(st, base, IdsOf(items), PairsOf(st, base, items), st.connect(w, base).0), id)
  {
    var after := st.connect(w, base).0;
    var event := AskedOf(st, base, IdsOf(items), PairsOf(st, base, items), after);
    assert items[..|items|] == items && items[|items|..] == [];
    assert ChunkEvents(st, base, IdsOf(items), items, after) == [event];
    var events := [Connected(base, w, after)] + [event];
    assert GroupEvents(st, Some(base), items, w) == events;
    assert events[1..] == [event] && [event][1..] == [];
    assert Charges(events, id) == Charge(events[0], id) + Charges(events[1..], id);
  }

  lemma StuckCharge(setup: Setup, st: Storage<Site>, group: set<Id>, pairs: seq<(Id, string)>, id: Id, path: string)
    requires IsFileserver(st, Stuck(setup)) && OwnPairs(pairs, id, path) && id in AllIds(pairs) && pairs != []
    requires !Files.EmptyPath(setup.server.decode(path))
    ensures var event := AskedOf(st, setup.host, group, pairs, Site(Files.Disk(ONE_FILE, 0), 1));
            Charge(event, id) == Max(1, Occurs(PathsOf(pairs), path))
  {
    StuckPost(setup, PathsOf(pairs), path);
    ReplyCharge(AskedOf(st, setup.host, group, pairs, Site(Files.Disk(ONE_FILE, 0), 1)), id, path);
  }

  lemma StuckPost(setup: Setup, paths: seq<string>, path: string)
    requires !Files.EmptyPath(setup.server.decode(path)) && paths != []
    ensures var outcome := Post(Stuck(setup), Site(Files.Disk(ONE_FILE, 0), 1), paths).1;
            outcome.Ok? && outcome.value.deleted == [] && Naming(outcome.value.errors, path) == Occurs(paths, path)
  {
    var disk := Files.Disk(ONE_FILE, 0);
    var answer := StuckAnswer(Stuck(setup).server, paths, disk, path);
    PostIsReply(Stuck(setup), Site(disk, 1), paths, answer);
  }

  lemma StuckAnswer(server: Files.Server, files: seq<string>, disk: Files.Disk, path: string) returns (answer: Files.Answer)
    requires IsStuck(server) && disk.tree == ONE_FILE && !Files.EmptyPath(server.decode(path))
    ensures Files.DeleteFiles(server, files, disk, Files.Answer([], [])).1 == Some(answer)
    ensures answer.deleted == [] && Naming(answer.errors, path) == Occurs(files, path)
  {
    StuckReply(server, files, disk, Files.Answer([], []), path);
    StuckKeeps(server, files, disk, Files.Answer([], []));
    answer := Files.DeleteFiles(server, files, disk, Files.Answer([], [])).1.value;
  }

  /** A delivered request gets the answer of the file loop. */
  lemma PostIsReply(setup: Setup, site: Site, paths: seq<string>, answer: Files.Answer)
    requires setup.network(site.requests).Delivered? && paths != []
    requires Files.DeleteFiles(setup.server, paths, site.disk, Files.Answer([], [])).1 == Some(answer)
    ensures Post(setup, site, paths).1 == Ok(Reply(DeletedFiles(answer), answer.errors))
  {
  }

  ghost predicate SameResolution(setup: Setup, other: Setup) {
    && other.host == setup.host && other.prefixes == setup.prefixes
    && (forall url :: other.parse(url) == setup.parse(url))
    && (forall path :: other.server.decode(path) == setup.server.decode(path))
  }

  lemma {:induction false} SharersSame(setup: Setup, other: Setup, store: Store, batch: seq<Id>, path: string)
    requires (forall id :: id in batch ==> id in store) && SameResolution(setup, other)
    ensures Sharers(other, store, batch, path) == Sharers(setup, store, batch, path)
  {
    if batch != [] {
      SharersSame(setup, other, store, batch[..|batch| - 1], path);
    }
  }

  lemma CountsUpToSame(setup: Setup, other: Setup, store: Store, batch: seq<Id>, id: Id, n: nat)
    requires (forall x :: x in batch ==> x in store) && id in store && SameResolution(setup, other)
    ensures CountsUpTo(other, store, batch, id, n) == CountsUpTo(setup, store, batch, id, n)
  {
    match AskedPath(setup, store[id].url) {
      case None =>
      case Some(path) => SharersSame(setup, other, store, batch, path);
    }
  }

  const START: Site := Site(Files.Disk(ONE_FILE, 0), 0)

  lemma StuckBatch(setup: Setup, batch: seq<Id>, s: State<Site>, id: Id, path: string)
    requires (forall x :: x in batch ==> x in s.store) && id in batch && |batch| <= BATCH_LIMIT && s.world == START
    requires AskedPath(setup, s.store[id].url) == Some(path) && !Files.EmptyPath(setup.server.decode(path))
    ensures Charges(BatchEvents(FileserverStorage(Stuck(setup)), batch, s), id) == Sharers(setup, s.store, batch, path)
  {
    var other := Stuck(setup);
    var st := FileserverStorage(other);
    FileserverStorageIs(other);
    SharersSame(setup, other, s.store, batch, path);
    var at := BatchCharges(st, batch, s, id);
    FitsOneRequest(other, st, s.store, batch, id);
    var items := GroupOf(st, s.store, batch, Some(setup.host));
    OneRequestCharges(st, setup.host, items, START, id);
    StuckCharge(setup, st, IdsOf(items), PairsOf(st, setup.host, items), id, path);
  }

  /** Against the stuck server the record stays and is counted once for every record that asks for its path. */
  lemma StuckCounts(cfg: Config, setup: Setup, batch: seq<Id>, s: State<Site>, id: Id, path: string)
    requires (forall x :: x in batch ==> x in s.store) && id in batch && |batch| <= BATCH_LIMIT && s.world == START
    requires AskedPath(setup, s.store[id].url) == Some(path) && !Files.EmptyPath(setup.server.decode(path))
    ensures var s' := DeleteBatch(cfg, FileserverStorage(Stuck(setup)), batch, s);
            id in s'.store && s'.store[id].retryCount == s.store[id].retryCount + Sharers(setup, s.store, batch, path)
  {
    var st := FileserverStorage(Stuck(setup));
    StuckBatch(setup, batch, s, id, path);
    StuckDeletesNothing(setup);
    CountsItsCharges(cfg, st, batch, s, id);
  }

  /** When nothing is reported deleted, a record's count rises by what the events charge it. */
  lemma CountsItsCharges(cfg: Config, st: Storage<Site>, batch: seq<Id>, s: State<Site>, id: Id)
    requires st.chunkSize > 0 && (forall x :: x in batch ==> x in s.store) && id in s.store && DeletesNothing(st)
    ensures var s' := DeleteBatch(cfg, st, batch, s);
            id in s'.store && s'.store[id].retryCount == s.store[id].retryCount + Charges(BatchEvents(st, batch, s), id)
  {
    BatchNews(cfg, st, batch, s);
    NothingDeleted(cfg, st, batch, s, id);
    RetryCountExact(cfg, st, batch, s, id);
  }

  ghost predicate DeletesNothing(st: Storage<Site>) {
    forall w, base, paths :: st.deleteMany(w, base, paths).1.Ok? ==> st.deleteMany(w, base, paths).1.value.deleted == []
  }

  lemma StuckIsSound(setup: Setup)
    ensures SameResolution(setup, Stuck(setup)) && Sound(Stuck(setup), START)
  {
  }

  lemma StuckDeletesNothing(setup: Setup)
    ensures DeletesNothing(FileserverStorage(Stuck(setup)))
  {
    forall site, paths | Post(Stuck(setup), site, paths).1.Ok?
      ensures Post(Stuck(setup), site, paths).1.value.deleted == []
    {
      StuckKeeps(Stuck(setup).server, paths, site.disk, Files.Answer([], []));
    }
  }

  // ---- The exact bounds ----

  /**
    Over all servers and networks, one call counts a record at most `n` times exactly when the record asks for no path,
    or for one that decodes to nothing, or at most `n` records of the batch ask for its path.
   */
  lemma FileserverCountsIff(cfg: Config, setup: Setup, batch: seq<Id>, s: State<Site>, id: Id, n: nat)
    requires (forall x :: x in batch ==> x in s.store) && id in batch && |batch| <= BATCH_LIMIT && n >= 1
    ensures (forall other, site :: SameResolution(setup, other) && Sound(other, site) ==>
              CountedAtMost(cfg, FileserverStorage(other), batch, s.(world := site), id, n))
       <==> CountsUpTo(setup, s.store, batch, id, n)
  {
    if CountsUpTo(setup, s.store, batch, id, n) {
      forall other, site | SameResolution(setup, other) && Sound(other, site)
        ensures CountedAtMost(cfg, FileserverStorage(other), batch, s.(world := site), id, n)
      {
        CountsUpToSame(setup, other, s.store, batch, id, n);
        FileserverCounts(cfg, other, batch, s.(world := site), id, n);
      }
    } else {
      StuckIsSound(setup);
      StuckCounts(cfg, setup, batch, s.(world := START), id, AskedPath(setup, s.store[id].url).value);
      assert !CountedAtMost(cfg, FileserverStorage(Stuck(setup)), batch, s.(world := START), id, n);
    }
  }

  /** So `max_retries` bounds the count exactly when no more records ask for the path than the record has retries left. */
  lemma FileserverBoundsIff(cfg: Config, setup: Setup, batch: seq<Id>, s: State<Site>, id: Id)
    requires (forall x :: x in batch ==> x in s.store) && id in batch && |batch| <= BATCH_LIMIT
    requires s.store[id].retryCount < cfg.maxRetries
    ensures (forall other, site :: SameResolution(setup, other) && Sound(other, site) ==>
              StaysWithin(cfg, FileserverStorage(other), batch, s.(world := site), id))
       <==> CountsUpTo(setup, s.store, batch, id, cfg.maxRetries - s.store[id].retryCount)
  {
    var n: nat := cfg.maxRetries - s.store[id].retryCount;
    FileserverCountsIff(cfg, setup, batch, s, id, n);
    forall other, site
      ensures StaysWithin(cfg, FileserverStorage(other), batch, s.(world := site), id)
         <==> CountedAtMost(cfg, FileserverStorage(other), batch, s.(world := site), id, n)
    {
    }
  }

  // ---- The maximum passed ----

  /** A fileserver without prefixes to cut, on which nothing is encoded. */
  function Plain(): Setup {
    Setup("host", [(None, "")], url => Some((None, url)), n => None, n => Delivered,
      Files.Server(path => path, path => None, path => true, (calls: nat, path) => None, (calls: nat, tree, path) => (tree, Some("busy"))))
  }

  lemma PlainPath(url: string)
    requires url != ""
    ensures AskedPath(Plain(), url) == if Strip(url, '/') == "" then None else Some(Strip(url, '/'))
  {
    assert Rest(Plain().prefixes, None, url) == Some(url);
  }

  lemma TwinPaths()
    ensures AskedPath(Plain(), "/x") == Some("x") && AskedPath(Plain(), "/x/") == Some("x")
  {
    assert "/x"[1..] == "x" && "/x/"[1..] == "x/" && "x/"[..1] == "x";
    assert LStrip("/x", '/') == "x" && LStrip("/x/", '/') == "x/";
    PlainPath("/x");
    PlainPath("/x/");
  }

  function Twin(cfg: Config, url: string): Record {
    Record("c", url, Fileserver, cfg.maxRetries - 1, None, None, Retrying)
  }

  function Twins(cfg: Config, one: Id, two: Id): Store {
    map[one := Twin(cfg, "/x"), two := Twin(cfg, "/x/")]
  }

  lemma TwinsShare(cfg: Config, one: Id, two: Id)
    requires one != two
    ensures Sharers(Plain(), Twins(cfg, one, two), [one, two], "x") == 2
  {
    var store := Twins(cfg, one, two);
    TwinPaths();
    assert [one, two][..1] == [one] && [one][..0] == [];
    assert Sharers(Plain(), store, [one], "x") == 1;
  }

  /** The records of `/x` and `/x/`, each with one retry left, ask for one path and are pushed past the maximum. */
  lemma TwinsOvershoot(cfg: Config, one: Id, two: Id, id: Id, ticks: nat)
    requires one != two && id in [one, two]
    ensures var s' := DeleteBatch(cfg, FileserverStorage(Stuck(Plain())), [one, two], State(Twins(cfg, one, two), START, ticks, []));
            id in s'.store && s'.store[id].retryCount == cfg.maxRetries + 1
  {
    TwinPaths();
    TwinsShare(cfg, one, two);
    StuckCounts(cfg, Plain(), [one, two], State(Twins(cfg, one, two), START, ticks, []), id, "x");
  }
}
