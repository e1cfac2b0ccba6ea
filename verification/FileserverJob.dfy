/**
  The deletion job run against the fileserver: `FileserverStorage` plugged into the job, and its
  `delete_many` request answered by `batch_delete`.
 */
module FileserverJob {
  import opened Common
  import opened UrlDeletion
  import opened UrlDeletionLaws
  import Bounds = UrlDeletionBounds
  import Files = BatchDelete

  /** What the network does to one request: a reply may be lost after the files were deleted. */
  datatype Delivery = Delivered | RequestLost(error: string) | ReplyLost(error: string)

  datatype Site = Site(disk: Files.Disk, requests: nat)

  datatype Setup = Setup(
    host: string,
    prefixes: seq<(Option<string>, string)>,
    parse: string -> Option<(Option<string>, string)>,
    ping: nat -> Option<string>,
    network: nat -> Delivery,
    server: Files.Server)

  predicate Applies(prefix: (Option<string>, string), urlHost: Option<string>, urlPath: string) {
    && (prefix.0.None? || prefix.0.value == "" || urlHost == prefix.0)
    && (prefix.1 == "" || prefix.1 + "/" <= urlPath)
  }

  /** The prefix loop of `_resolve_base_url`: the rest of the path after the first prefix that applies. */
  function Rest(prefixes: seq<(Option<string>, string)>, urlHost: Option<string>, urlPath: string): Option<string> {
    if prefixes == [] then None
    else if Applies(prefixes[0], urlHost, urlPath) then Some(urlPath[|prefixes[0].1|..])
    else Rest(prefixes[1..], urlHost, urlPath)
  }

  ghost predicate FirstMatch(prefixes: seq<(Option<string>, string)>, i: nat, urlHost: Option<string>, urlPath: string) {
    && i < |prefixes|
    && Applies(prefixes[i], urlHost, urlPath)
    && forall j :: 0 <= j < i ==> !Applies(prefixes[j], urlHost, urlPath)
  }

  /** A url resolves exactly when a configured prefix applies, and cutting the first such prefix loses nothing. */
  lemma {:induction false} RestIsFirstMatch(
    prefixes: seq<(Option<string>, string)>, urlHost: Option<string>, urlPath: string) returns (i: nat)
    ensures Rest(prefixes, urlHost, urlPath).Some? <==> FirstMatch(prefixes, i, urlHost, urlPath)
    ensures Rest(prefixes, urlHost, urlPath).Some? ==>
              urlPath == prefixes[i].1 + Rest(prefixes, urlHost, urlPath).value
    ensures Rest(prefixes, urlHost, urlPath).None? ==>
              forall j :: 0 <= j < |prefixes| ==> !Applies(prefixes[j], urlHost, urlPath)
  {
    i := 0;
    if prefixes != [] && !Applies(prefixes[0], urlHost, urlPath) {
      var k := RestIsFirstMatch(prefixes[1..], urlHost, urlPath);
      assert forall j :: 0 < j < |prefixes| ==> prefixes[j] == prefixes[1..][j - 1];
      i := k + 1;
    }
  }

  /** `_resolve_base_url`; when it resolves, the document's url becomes the rest of the path. */
  function Resolve(setup: Setup, url: string): (Option<string>, string) {
    if url == "" then (None, url)
    else match setup.parse(url)
      case None => (None, url)
      case Some((urlHost, urlPath)) =>
        match Rest(setup.prefixes, urlHost, urlPath)
        case None => (None, url)
        case Some(rest) => (Some(setup.host), rest)
  }

  /** A prefix applies when its host, if it has one, is the url's, and its path, if it has one, is followed by a slash. */
  lemma AppliesIff(prefix: (Option<string>, string), urlHost: Option<string>, urlPath: string)
    ensures Applies(prefix, urlHost, urlPath) <==>
              && (prefix.0 == None || prefix.0 == Some("") || prefix.0 == urlHost)
              && (prefix.1 == "" || exists rest :: urlPath == prefix.1 + "/" + rest)
  {
    if prefix.1 + "/" <= urlPath {
      assert urlPath == prefix.1 + "/" + urlPath[|prefix.1| + 1..];
    }
  }

  function ClientPath(url: string): Result<string, string> {
    var path := Strip(url, '/');
    if path == "" then Err("Empty path") else Ok(path)
  }

  lemma {:induction false} LStripParts(s: string) returns (a: string)
    ensures s == a + LStrip(s, '/') && (forall c :: c in a ==> c == '/')
    ensures LStrip(s, '/') != "" ==> LStrip(s, '/')[0] != '/'
  {
    a := "";
    if s != "" && s[0] == '/' {
      var rest := LStripParts(s[1..]);
      a := ['/'] + rest;
      assert s == ['/'] + s[1..];
    }
  }

  lemma {:induction false} RStripParts(s: string) returns (b: string)
    ensures s == RStrip(s, '/') + b && (forall c :: c in b ==> c == '/')
    ensures RStrip(s, '/') != "" ==> RStrip(s, '/')[|RStrip(s, '/')| - 1] != '/' && RStrip(s, '/')[0] == s[0]
  {
    b := "";
    if s != "" && s[|s| - 1] == '/' {
      var rest := RStripParts(s[..|s| - 1]);
      b := rest + ['/'];
      assert s == s[..|s| - 1] + ['/'];
    }
  }

  /** The path asked for is the url without the slashes at its ends; without anything else there is no path. */
  lemma ClientPathIs(url: string) returns (a: string, b: string)
    ensures forall c :: c in a || c in b ==> c == '/'
    ensures match ClientPath(url)
            case Ok(path) => path != "" && url == a + path + b && path[0] != '/' && path[|path| - 1] != '/'
            case Err(error) => error == "Empty path" && url == a + b
  {
    a := LStripParts(url);
    b := RStripParts(LStrip(url, '/'));
  }

  function DeletedFiles(answer: Files.Answer): seq<string> {
    seq(|answer.deleted|, i requires 0 <= i < |answer.deleted| => answer.deleted[i].0)
  }

  /** One `delete_many` request. An error status of the server raises at the client. */
  function Post(setup: Setup, site: Site, paths: seq<string>): (Site, Result<Reply, string>) {
    var next := site.(requests := site.requests + 1);
    match setup.network(site.requests)
    case RequestLost(error) => (next, Err(error))
    case ReplyLost(error) => (next.(disk := Files.Handle(setup.server, paths, site.disk).0), Err(error))
    case Delivered =>
      var (disk, response) := Files.Handle(setup.server, paths, site.disk);
      (next.(disk := disk),
       match response
       case None => Err("HTTP error")
       case Some(answer) => Ok(Reply(DeletedFiles(answer), answer.errors)))
  }

  function FileserverStorage(setup: Setup): Storage<Site> {
    Storage(
      "Invalid Fileserver url or missing Fileserver configuration for account",
      url => Resolve(setup, url),
      (site: Site, base) => (site.(requests := site.requests + 1), setup.ping(site.requests)),
      10000,
      (base, url) => ClientPath(url),
      (site: Site, base, paths) => Post(setup, site, paths))
  }

  /** The same storage by what its functions return. */
  ghost predicate IsFileserver(st: Storage<Site>, setup: Setup) {
    && (forall url :: st.resolve(url) == Resolve(setup, url))
    && (forall site, base :: st.connect(site, base) == (site.(requests := site.requests + 1), setup.ping(site.requests)))
    && st.chunkSize == 10000
    && (forall base, url :: st.path(base, url) == ClientPath(url))
    && (forall site, base, paths :: st.deleteMany(site, base, paths) == Post(setup, site, paths))
  }

  lemma FileserverStorageIs(setup: Setup)
    ensures IsFileserver(FileserverStorage(setup), setup)
  {
  }

  /** Where the record's file is: its url is resolved, stripped, decoded and located. */
  function FileOf(setup: Setup, url: string): Option<Files.Path> {
    var path := Strip(Resolve(setup, url).1, '/');
    if path == "" then None else Files.Target(setup.server, path)
  }

  lemma LStripKeeps(s: string)
    requires s == "" || s[0] != '/'
    ensures LStrip("/" + s, '/') == s
  {
    assert ("/" + s)[1..] == s;
  }

  /**
    The file of a url under a prefix is where the server locates what is behind the prefix, decoded, without the slash
    between them; a url that no prefix applies to has none to ask for.
   */
  lemma FileOfUrl(setup: Setup, url: string, urlHost: Option<string>, i: nat, name: string)
    requires url != "" && i < |setup.prefixes| && setup.parse(url) == Some((urlHost, setup.prefixes[i].1 + "/" + name))
    requires FirstMatch(setup.prefixes, i, urlHost, setup.prefixes[i].1 + "/" + name)
    requires name != "" && name[0] != '/' && name[|name| - 1] != '/'
    ensures Resolve(setup, url) == (Some(setup.host), "/" + name)
    ensures FileOf(setup, url) ==
            if forall c :: c in setup.server.decode(name) ==> c == '/' then None
            else setup.server.locate(setup.server.decode(name))
  {
    var urlPath := setup.prefixes[i].1 + "/" + name;
    FirstRest(setup.prefixes, i, urlHost, urlPath);
    assert urlPath[|setup.prefixes[i].1|..] == "/" + name;
    LStripKeeps(name);
  }

  lemma {:induction false} FirstRest(prefixes: seq<(Option<string>, string)>, i: nat, urlHost: Option<string>, urlPath: string)
    requires FirstMatch(prefixes, i, urlHost, urlPath)
    ensures Rest(prefixes, urlHost, urlPath) == Some(urlPath[|prefixes[i].1|..])
  {
    if i > 0 {
      assert forall j :: 0 <= j < |prefixes[1..]| ==> prefixes[1..][j] == prefixes[j + 1];
      FirstRest(prefixes[1..], i - 1, urlHost, urlPath);
    }
  }

  /** A url with nothing but slashes behind its prefix stands for no file, and above all not for the upload folder. */
  lemma SlashesHaveNoFile(setup: Setup, url: string)
    requires forall c :: c in Resolve(setup, url).1 ==> c == '/'
    ensures FileOf(setup, url).None? && AskedFor(setup, url).None?
  {
    Files.StripsToNothing(Resolve(setup, url).1);
  }

  /** What a url is asked for as, whatever its base. */
  function AskedFor(setup: Setup, url: string): Option<string> {
    match ClientPath(Resolve(setup, url).1)
    case Ok(path) => Some(path)
    case Err(_) => None
  }

  lemma NoFileOfUrl(setup: Setup, url: string)
    requires url == "" || setup.parse(url).None?
          || (forall j :: 0 <= j < |setup.prefixes| ==>
               !Applies(setup.prefixes[j], setup.parse(url).value.0, setup.parse(url).value.1))
    ensures Resolve(setup, url) == (None, url)
  {
    if url != "" && setup.parse(url).Some? {
      var i := RestIsFirstMatch(setup.prefixes, setup.parse(url).value.0, setup.parse(url).value.1);
    }
  }

  ghost predicate Sound(setup: Setup, site: Site) {
    Files.Lawful(setup.server) && Files.Rooted(site.disk.tree)
  }

  /** The files that go are below the file of one of the given items. */
  ghost predicate OnlyTheirs(setup: Setup, items: set<Item>, tree: Files.Tree, tree': Files.Tree) {
    forall p :: p in tree && p !in tree' ==> exists item :: item in items && Below(setup, item, p)
  }

  predicate Below(setup: Setup, item: Item, p: Files.Path) {
    var path := Strip(item.url, '/');
    path != "" && Files.Covers(setup.server, path, p)
  }

  ghost predicate AbsentBelow(setup: Setup, path: string, tree: Files.Tree) {
    && Files.Target(setup.server, path).Some?
    && forall p :: p in tree ==> !(Files.Target(setup.server, path).value <= p)
  }

  /** One request: only requested subtrees change, and what the client is told deleted is gone. */
  lemma PostShrinks(setup: Setup, site: Site, paths: seq<string>)
    requires Sound(setup, site)
    ensures var (site', outcome) := Post(setup, site, paths);
            && Sound(setup, site')
            && Files.Shrunk(site.disk.tree, site'.disk.tree)
            && (forall p :: p in site.disk.tree && p !in site'.disk.tree ==> Files.Requested(setup.server, paths, p))
            && (outcome.Ok? ==> forall path :: path in outcome.value.deleted ==> AbsentBelow(setup, path, site'.disk.tree))
  {
    Files.AnswerIsTrue(setup.server, paths, site.disk);
    var (disk, response) := Files.Handle(setup.server, paths, site.disk);
    if setup.network(site.requests).Delivered? && response.Some? {
      var answer := response.value;
      forall path | path in DeletedFiles(answer)
        ensures AbsentBelow(setup, path, disk.tree)
      {
        var i :| 0 <= i < |answer.deleted| && answer.deleted[i].0 == path;
        assert answer.deleted[i] in answer.deleted;
      }
    }
  }

  /**
    A reply forgets nothing: each path asked for is reported deleted or under some reason. A lost request changes no
    file, and a lost reply hides from the client whatever the server did.
   */
  lemma ReplyIsComplete(setup: Setup, site: Site, paths: seq<string>)
    requires Sound(setup, site)
    ensures var (site', outcome) := Post(setup, site, paths);
            && site'.requests == site.requests + 1
            && (outcome.Ok? ==> setup.network(site.requests).Delivered? && paths != [])
            && (outcome.Ok? ==>
                 forall path :: path in paths <==>
                   path in outcome.value.deleted || Files.InErrors(outcome.value.errors, path))
            && (setup.network(site.requests).RequestLost? ==> outcome.Err? && site'.disk == site.disk)
            && (setup.network(site.requests).ReplyLost? ==> outcome.Err?)
            && site'.disk == if setup.network(site.requests).RequestLost? then site.disk
                             else Files.Handle(setup.server, paths, site.disk).0
  {
    Files.AnswerIsTrue(setup.server, paths, site.disk);
    var response := Files.Handle(setup.server, paths, site.disk).1;
    if setup.network(site.requests).Delivered? && response.Some? {
      DeletedFilesAre(response.value);
      assert forall path :: path in paths <==> Files.Listed(response.value, path);
    }
  }

  lemma DeletedFilesAre(answer: Files.Answer)
    ensures forall path :: path in DeletedFiles(answer) <==> Files.InDeleted(answer, path)
  {
    forall path ensures path in DeletedFiles(answer) <==> Files.InDeleted(answer, path) {
      if path in DeletedFiles(answer) {
        var i :| 0 <= i < |answer.deleted| && answer.deleted[i].0 == path;
        assert answer.deleted[i] in answer.deleted;
      }
      if entry :| entry in answer.deleted && entry.0 == path {
        var i :| 0 <= i < |answer.deleted| && answer.deleted[i] == entry;
        assert DeletedFiles(answer)[i] == path;
      }
    }
  }

  lemma EventShrinks(st: Storage<Site>, setup: Setup, items: set<Item>, event: Event<Site>)
    requires IsFileserver(st, setup) && Sound(setup, event.before)
    requires Genuine(st, items, event)
    ensures Sound(setup, event.after)
    ensures Files.Shrunk(event.before.disk.tree, event.after.disk.tree)
    ensures OnlyTheirs(setup, items, event.before.disk.tree, event.after.disk.tree)
    ensures event.Asked? && event.outcome.Ok? ==>
              forall path :: path in event.outcome.value.deleted ==> AbsentBelow(setup, path, event.after.disk.tree)
  {
    if event.Asked? {
      var paths := PathsOf(event.pairs);
      PostShrinks(setup, event.before, paths);
      forall p | p in event.before.disk.tree && p !in event.after.disk.tree
        ensures exists item :: item in items && Below(setup, item, p)
      {
        assert Files.Requested(setup.server, paths, p);
        var i :| 0 <= i < |paths| && Files.Covers(setup.server, paths[i], p);
        assert event.pairs[i] in event.pairs;
        var item :| item in items && st.path(event.base, item.url) == Ok(event.pairs[i].1);
        assert Below(setup, item, p);
      }
    }
  }

  ghost predicate AllGenuine(st: Storage<Site>, items: set<Item>, events: seq<Event<Site>>) {
    forall k :: 0 <= k < |events| ==> Genuine(st, items, events[k])
  }

  lemma TailGenuine(st: Storage<Site>, items: set<Item>, events: seq<Event<Site>>)
    requires AllGenuine(st, items, events) && events != []
    ensures Genuine(st, items, events[0]) && AllGenuine(st, items, events[1..])
  {
    assert forall k :: 0 <= k < |events[1..]| ==> events[1..][k] == events[k + 1];
  }

  lemma {:induction false} LogShrinks(st: Storage<Site>, setup: Setup, items: set<Item>, events: seq<Event<Site>>, first: Site, last: Site)
    requires IsFileserver(st, setup) && Sound(setup, first) && Linked(events, first, last)
    requires AllGenuine(st, items, events)
    ensures Sound(setup, last)
    ensures Files.Shrunk(first.disk.tree, last.disk.tree)
    ensures OnlyTheirs(setup, items, first.disk.tree, last.disk.tree)
  {
    if events != [] {
      TailGenuine(st, items, events);
      EventShrinks(st, setup, items, events[0]);
      LogShrinks(st, setup, items, events[1..], events[0].after, last);
    }
  }

  lemma AbsentStays(setup: Setup, path: string, tree: Files.Tree, tree': Files.Tree)
    requires AbsentBelow(setup, path, tree) && Files.Shrunk(tree, tree')
    ensures AbsentBelow(setup, path, tree')
  {
  }

  /** The event reported the path deleted. */
  predicate Reports(event: Event<Site>, path: string) {
    event.Asked? && event.outcome.Ok? && path in event.outcome.value.deleted
  }

  /** The part of a log that comes after its first event. */
  lemma AfterFirst(st: Storage<Site>, setup: Setup, items: set<Item>, events: seq<Event<Site>>, first: Site, last: Site)
    requires IsFileserver(st, setup) && Sound(setup, first) && Linked(events, first, last)
    requires AllGenuine(st, items, events) && events != []
    ensures Sound(setup, events[0].after) && Linked(events[1..], events[0].after, last)
    ensures AllGenuine(st, items, events[1..])
  {
    TailGenuine(st, items, events);
    EventShrinks(st, setup, items, events[0]);
  }

  lemma FirstReportIsAbsent(
    st: Storage<Site>, setup: Setup, items: set<Item>, events: seq<Event<Site>>, first: Site, last: Site, path: string)
    requires IsFileserver(st, setup) && Sound(setup, first) && Linked(events, first, last)
    requires AllGenuine(st, items, events) && events != [] && Reports(events[0], path)
    ensures AbsentBelow(setup, path, last.disk.tree)
  {
    AfterFirst(st, setup, items, events, first, last);
    TailGenuine(st, items, events);
    EventShrinks(st, setup, items, events[0]);
    LogShrinks(st, setup, items, events[1..], events[0].after, last);
    AbsentStays(setup, path, events[0].after.disk.tree, last.disk.tree);
  }

  /** What one event reported deleted is absent from the files at the end of the call. */
  lemma {:induction false} ReportedIsAbsent(
    st: Storage<Site>, setup: Setup, items: set<Item>, events: seq<Event<Site>>, first: Site, last: Site, k: nat, path: string)
    requires IsFileserver(st, setup) && Sound(setup, first) && Linked(events, first, last)
    requires AllGenuine(st, items, events)
    requires k < |events| && Reports(events[k], path)
    ensures AbsentBelow(setup, path, last.disk.tree)
    decreases k
  {
    if k == 0 {
      FirstReportIsAbsent(st, setup, items, events, first, last, path);
    } else {
      AfterFirst(st, setup, items, events, first, last);
      assert events[1..][k - 1] == events[k];
      ReportedIsAbsent(st, setup, items, events[1..], events[0].after, last, k - 1, path);
    }
  }

  lemma RemovedIsAbsent(cfg: Config, st: Storage<Site>, setup: Setup, batch: seq<Id>, s: State<Site>, id: Id)
    requires IsFileserver(st, setup) && Sound(setup, s.world)
    requires forall x :: x in batch ==> x in s.store
    requires id in s.store && id !in DeleteBatch(cfg, st, batch, s).store
    ensures id in batch
    ensures FileOf(setup, s.store[id].url).Some?
    ensures forall p :: p in DeleteBatch(cfg, st, batch, s).world.disk.tree ==>
              !(FileOf(setup, s.store[id].url).value <= p)
  {
    var items := Loaded(st, s.store, batch);
    var s' := DeleteBatch(cfg, st, batch, s);
    BatchEvolves(cfg, st, batch, s);
    var events := News(s, s');
    assert Reported(events, id);
    var k :| 0 <= k < |events| && Deletes(events[k], id);
    assert Genuine(st, items, events[k]);
    var path := DeletedPath(st, setup, s.store, batch, events[k], id);
    ReportedIsAbsent(st, setup, items, events, s.world, s'.world, k, path);
  }

  /** What was asked for a record, when its deletion was reported, is its stripped path. */
  lemma DeletedPath(st: Storage<Site>, setup: Setup, store: Store, batch: seq<Id>, event: Event<Site>, id: Id)
    returns (path: string)
    requires IsFileserver(st, setup) && forall x :: x in batch ==> x in store
    requires Genuine(st, Loaded(st, store, batch), event) && Deletes(event, id)
    ensures id in batch && Reports(event, path)
    ensures path == Strip(Resolve(setup, store[id].url).1, '/') != ""
  {
    var pair :| pair in event.pairs && pair.1 in event.outcome.value.deleted && pair.0 == id;
    var item :| item in Loaded(st, store, batch) && item.id == id && st.path(event.base, item.url) == Ok(pair.1);
    path := pair.1;
  }

  lemma OnlySelectedFilesGo(cfg: Config, st: Storage<Site>, setup: Setup, batch: seq<Id>, s: State<Site>)
    requires IsFileserver(st, setup) && Sound(setup, s.world)
    requires forall id :: id in batch ==> id in s.store
    ensures var s' := DeleteBatch(cfg, st, batch, s);
            && Sound(setup, s'.world)
            && Files.Shrunk(s.world.disk.tree, s'.world.disk.tree)
            && (forall p :: p in s.world.disk.tree && p !in s'.world.disk.tree ==>
                 exists id :: id in batch && HoldsFile(setup, s.store[id].url, p))
  {
    var items := Loaded(st, s.store, batch);
    var s' := DeleteBatch(cfg, st, batch, s);
    BatchEvolves(cfg, st, batch, s);
    LogShrinks(st, setup, items, News(s, s'), s.world, s'.world);
    forall p | p in s.world.disk.tree && p !in s'.world.disk.tree
      ensures exists id :: id in batch && HoldsFile(setup, s.store[id].url, p)
    {
      var item :| item in items && Below(setup, item, p);
      assert item.id in batch && item.url == Resolve(setup, s.store[item.id].url).1;
      assert HoldsFile(setup, s.store[item.id].url, p);
    }
  }

  /** The entry is at or below the file the url stands for. */
  predicate HoldsFile(setup: Setup, url: string, p: Files.Path) {
    FileOf(setup, url).Some? && FileOf(setup, url).value <= p
  }

  /**
    End to end. After `delete_urls` ran against the fileserver, through any pattern of lost requests,
    lost replies and file system errors: a selected record that left the collection names a file that is
    now absent with everything below it, and every file that went is at or below a selected record's file.
   */
  lemma EndToEnd(cfg: Config, setup: Setup, batch: seq<Id>, s: State<Site>)
    requires Sound(setup, s.world)
    requires forall id :: id in batch ==> id in s.store
    ensures var s' := DeleteBatch(cfg, FileserverStorage(setup), batch, s);
            && (forall id :: id in s.store && id !in s'.store ==>
                 && id in batch
                 && FileOf(setup, s.store[id].url).Some?
                 && forall p :: p in s'.world.disk.tree ==> !HoldsFile(setup, s.store[id].url, p))
            && Files.Shrunk(s.world.disk.tree, s'.world.disk.tree)
            && (forall p :: p in s.world.disk.tree && p !in s'.world.disk.tree ==>
                 exists id :: id in batch && HoldsFile(setup, s.store[id].url, p))
  {
    var st := FileserverStorage(setup);
    FileserverStorageIs(setup);
    OnlySelectedFilesGo(cfg, st, setup, batch, s);
    forall id | id in s.store && id !in DeleteBatch(cfg, st, batch, s).store
      ensures id in batch && FileOf(setup, s.store[id].url).Some?
      ensures forall p :: p in DeleteBatch(cfg, st, batch, s).world.disk.tree ==>
                !HoldsFile(setup, s.store[id].url, p)
    {
      RemovedIsAbsent(cfg, st, setup, batch, s, id);
    }
  }

  /** The fileserver's chunks hold a whole batch, so one call counts at most one exception against a record. */
  lemma FileserverRaisesOnce(cfg: Config, setup: Setup, batch: seq<Id>, s: State<Site>, id: Id)
    requires (forall x :: x in batch ==> x in s.store) && id in batch && |batch| <= BATCH_LIMIT
    ensures Bounds.RaisedAtMost(cfg, FileserverStorage(setup), batch, s, id, 1)
  {
    Bounds.WholeBatchChunks(cfg, FileserverStorage(setup), batch, s, id);
  }
}
