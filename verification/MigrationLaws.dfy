/**
  Crash safety and convergence of the migration, for every place where its runs may die.
 */
module MigrationLaws {
  import opened Common
  import opened Uris
  import opened Migration

  // ---- Vocabulary ----

  ghost predicate Distinct<T>(s: seq<T>) {
    forall i, j :: 0 <= i < j < |s| ==> s[i] != s[j]
  }

  ghost predicate Ready(env: Env) {
    Sane(env.fs) && Distinct(env.listing)
  }

  predicate HasSource(env: Env, uri: string) {
    SourcePath(env, uri).Ok? && SourcePath(env, uri).value.Some?
  }

  /** The record is one the migration moves. */
  predicate Listable(env: Env, w: World, r: RecordId) {
    r in env.listing && r in w.uris && HasSource(env, w.uris[r])
  }

  function Original(env: Env, w: World, r: RecordId): Entry
    requires Listable(env, w, r)
  {
    EntryOf(r, w.uris[r], SourcePath(env, w.uris[r]).value.value)
  }

  /** No two records that are moved share an object key. */
  ghost predicate KeysDistinct(env: Env, w: World) {
    forall r, r' :: Listable(env, w, r) && Listable(env, w, r') && r != r' ==>
      Original(env, w, r).key != Original(env, w, r').key
  }

  ghost predicate OnManifest(w: World, line: ManifestLine) {
    exists m :: m in w.manifests && line in m
  }

  /** The record has its new URI, a matching object is under its key, and a manifest maps it back. */
  ghost predicate Moved(env: Env, w0: World, w: World, r: RecordId)
    requires Listable(env, w0, r) && r in w.uris
  {
    var e := Original(env, w0, r);
    && w.uris[r] == NewUri(env, e.key)
    && e.key in w.objects && e.path in env.files
    && w.objects[e.key].length == |env.files[e.path]| && w.objects[e.key].sha == env.digest(env.files[e.path])
    && OnManifest(w, Line(env, e))
  }

  ghost predicate RecordSafe(env: Env, w0: World, w: World, r: RecordId)
    requires r in w0.uris && r in w.uris
  {
    w.uris[r] == w0.uris[r] || (Listable(env, w0, r) && Moved(env, w0, w, r))
  }

  /** Every manifest written since `w0` maps moved records to the URIs they had in `w0`. */
  ghost predicate ManifestsTrue(env: Env, w0: World, w: World) {
    && w0.manifests <= w.manifests
    && forall i, line :: |w0.manifests| <= i < |w.manifests| && line in w.manifests[i] ==>
         Listable(env, w0, line.record) && line == Line(env, Original(env, w0, line.record))
  }

  /** Each destination is as it was, or was missing and is set. */
  ghost predicate DestinationsSafe(env: Env, before: map<string, string>, after: map<string, string>) {
    && after.Keys == before.Keys
    && forall k :: k in after ==> after[k] == before[k] || (before[k] == "" && after[k] == RustfsBase(env.fs))
  }

  /** The key is the one of a record that the migration moves. */
  ghost predicate KeyInUse(env: Env, w0: World, key: string) {
    exists r :: Listable(env, w0, r) && Original(env, w0, r).key == key
  }

  /** No object goes, and only those under the keys of moved records are written. */
  ghost predicate ObjectsSafe(env: Env, w0: World, w: World) {
    && w0.objects.Keys <= w.objects.Keys
    && forall key :: key in w.objects && !KeyInUse(env, w0, key) ==> key in w0.objects && w.objects[key] == w0.objects[key]
  }

  /** What holds at every point of every run that started from `w0`. */
  ghost predicate Safe(env: Env, w0: World, w: World) {
    && w.uris.Keys == w0.uris.Keys
    && (forall r :: r in w.uris ==> RecordSafe(env, w0, w, r))
    && ManifestsTrue(env, w0, w)
    && ObjectsSafe(env, w0, w)
    && DestinationsSafe(env, w0.projects, w.projects)
    && DestinationsSafe(env, w0.tasks, w.tasks)
  }

  // ---- A migrated URI is never a source ----

  lemma NewUriIsNoSource(env: Env, key: string)
    requires Sane(env.fs)
    ensures SourcePath(env, NewUri(env, key)) == Ok(None)
  {
    MigratedUriSplits(env.fs, env.utf8, key);
    assert "s3" != "http" && "s3" != "https" && "s3" != "file" by {
      assert "s3"[0] == 's' && "http"[0] == 'h' && "https"[0] == 'h' && "file"[0] == 'f';
    }
  }

  /** An `http` or `https` URI is a source exactly when its port is the fileserver's, and its file lies below the root. */
  lemma HttpSource(env: Env, scheme: string, netloc: string, path: string)
    requires scheme == "http" || scheme == "https"
    requires forall c :: c in netloc ==> c !in "/?#"
    requires path == "" || path[0] == '/'
    requires forall c :: c in path ==> c !in "?#"
    ensures var file := env.resolve(env.filesRoot, LStrip(env.unquote(path), '/'));
            SourcePath(env, scheme + ":" + ("//" + (netloc + path)))
            == if env.port(netloc) != Some(7863) then Ok(None)
               else if env.resolve(env.filesRoot, "") <= file then Ok(Some(file))
               else Err("File path escapes the fileserver root")
  {
    HttpScheme(scheme);
    HttpParts(scheme, netloc, path);
    HttpSourceOf(env, scheme + ":" + ("//" + (netloc + path)), scheme, netloc, path);
  }

  lemma HttpParts(scheme: string, netloc: string, path: string)
    requires SchemeName(scheme) && ':' !in scheme && Lower(scheme) == scheme
    requires forall c :: c in netloc ==> c !in "/?#"
    requires path == "" || path[0] == '/'
    requires forall c :: c in path ==> c !in "?#"
    ensures Split(scheme + ":" + ("//" + (netloc + path))) == Parts(scheme, netloc, path)
  {
    SplitUri(scheme, netloc, path);
  }

  lemma HttpScheme(scheme: string)
    requires scheme == "http" || scheme == "https"
    ensures SchemeName(scheme) && ':' !in scheme && Lower(scheme) == scheme
  {
  }

  lemma HttpSourceOf(env: Env, uri: string, scheme: string, netloc: string, path: string)
    requires scheme == "http" || scheme == "https"
    requires Split(uri) == Parts(scheme, netloc, path)
    ensures var file := env.resolve(env.filesRoot, LStrip(env.unquote(path), '/'));
            SourcePath(env, uri)
            == if env.port(netloc) != Some(7863) then Ok(None)
               else if env.resolve(env.filesRoot, "") <= file then Ok(Some(file))
               else Err("File path escapes the fileserver root")
  {
    assert scheme != "file" by {
      assert scheme[0] != "file"[0];
    }
  }

  /** A `file` URI is a source on this host, and a URI of any other scheme is none. */
  lemma OtherSource(env: Env, scheme: string, netloc: string, path: string)
    requires SchemeName(scheme) && ':' !in scheme && Lower(scheme) != "http" && Lower(scheme) != "https"
    requires forall c :: c in netloc ==> c !in "/?#"
    requires path == "" || path[0] == '/'
    requires forall c :: c in path ==> c !in "?#"
    ensures SourcePath(env, scheme + ":" + ("//" + (netloc + path)))
            == Ok(if Lower(scheme) == "file" && (netloc == "" || netloc == "localhost")
                  then Some(env.resolve([], env.unquote(path))) else None)
  {
    SplitUri(scheme, netloc, path);
  }

  // ---- The entry list ----

  ghost predicate Lists(env: Env, uris: map<RecordId, string>, listing: seq<RecordId>, e: Entry) {
    && e.record in listing && e.record in uris && HasSource(env, uris[e.record])
    && e == EntryOf(e.record, uris[e.record], SourcePath(env, uris[e.record]).value.value)
  }

  lemma {:induction false} EntriesExact(env: Env, uris: map<RecordId, string>, listing: seq<RecordId>)
    requires Distinct(listing)
    ensures var entries := Entries(env, uris, listing);
            entries.Ok? ==>
              && (forall e :: e in entries.value <==> Lists(env, uris, listing, e))
              && RecordsDiffer(entries.value)
              && |entries.value| <= |listing|
  {
    if listing != [] {
      var n := |listing| - 1;
      var last, rest := listing[n], listing[..n];
      EntriesExact(env, uris, rest);
      assert forall r :: r in listing <==> r == last || r in rest;
      assert last !in rest;
      var shorter := Entries(env, uris, rest);
      if Entries(env, uris, listing).Ok? && last in uris && HasSource(env, uris[last]) {
        var e := EntryOf(last, uris[last], SourcePath(env, uris[last]).value.value);
        assert Entries(env, uris, listing).value == shorter.value + [e];
        forall i | 0 <= i < |shorter.value|
          ensures shorter.value[i].record != last
        {
          assert shorter.value[i] in shorter.value;
        }
      }
    }
  }

  lemma {:induction false} EntriesFail(env: Env, uris: map<RecordId, string>, listing: seq<RecordId>)
    ensures Entries(env, uris, listing).Err? <==>
              exists r :: r in listing && r in uris && SourcePath(env, uris[r]).Err?
  {
    if listing != [] {
      var n := |listing| - 1;
      EntriesFail(env, uris, listing[..n]);
      assert forall r :: r in listing <==> r == listing[n] || r in listing[..n];
    }
  }

  // ---- The update loop ----

  /** The entries are still to do: their records hold their old URIs, and a manifest lists them. */
  ghost predicate Pending(env: Env, w0: World, w: World, entries: seq<Entry>) {
    && AllPresent(env, entries)
    && RecordsDiffer(entries)
    && forall e :: e in entries ==>
         && Listable(env, w0, e.record) && e == Original(env, w0, e.record)
         && e.record in w.uris && w.uris[e.record] == e.oldUri
         && OnManifest(w, Line(env, e))
  }

  lemma UploadSafe(env: Env, w0: World, w: World, e: Entry)
    requires Ready(env) && KeysDistinct(env, w0) && Safe(env, w0, w)
    requires Listable(env, w0, e.record) && e == Original(env, w0, e.record) && e.path in env.files
    requires e.record in w.uris && w.uris[e.record] == e.oldUri
    ensures var r := Upload(env, e, w);
            var w' := if r.Ok? then r.value else r.error;
            && Safe(env, w0, w')
            && w' == w.(objects := w'.objects, uploads := w'.uploads)
            && (r.Ok? ==> e.key in w'.objects && Matches(env, w'.objects[e.key], env.files[e.path]))
  {
    var outcome := Upload(env, e, w);
    var w' := if outcome.Ok? then outcome.value else outcome.error;
    UploadShape(env, e, w);
    assert KeyInUse(env, w0, e.key);
    forall r | r in w.uris
      ensures RecordSafe(env, w0, w', r)
    {
      if w.uris[r] != w0.uris[r] {
        assert r != e.record;
        OtherObjectStays(env, w0, w, w', e, r);
      }
    }
  }

  /** An upload writes the object of its key at most; when it does not raise, that object matches. */
  lemma UploadShape(env: Env, e: Entry, w: World)
    requires e.path in env.files
    ensures var r := Upload(env, e, w);
            var w' := if r.Ok? then r.value else r.error;
            && w' == w.(objects := w'.objects, uploads := w'.uploads)
            && (forall key :: key in w.objects && key != e.key ==> key in w'.objects && w'.objects[key] == w.objects[key])
            && w.objects.Keys <= w'.objects.Keys <= w.objects.Keys + {e.key}
            && (r.Ok? ==> e.key in w'.objects && Matches(env, w'.objects[e.key], env.files[e.path]))
  {
  }

  /** A moved record is not touched by writing another record's object. */
  lemma OtherObjectStays(env: Env, w0: World, w: World, w': World, e: Entry, r: RecordId)
    requires KeysDistinct(env, w0) && Listable(env, w0, e.record) && e == Original(env, w0, e.record)
    requires r in w0.uris && r in w.uris && Listable(env, w0, r) && Moved(env, w0, w, r) && r != e.record
    requires w'.uris == w.uris && w'.manifests == w.manifests
    requires forall key :: key in w.objects && key != e.key ==> key in w'.objects && w'.objects[key] == w.objects[key]
    ensures Moved(env, w0, w', r)
  {
    assert Original(env, w0, r).key != e.key;
    ManifestStays(w, w', Line(env, Original(env, w0, r)));
  }

  lemma ManifestStays(w: World, w': World, line: ManifestLine)
    requires OnManifest(w, line) && w.manifests <= w'.manifests
    ensures OnManifest(w', line)
  {
    var m :| m in w.manifests && line in m;
    assert m in w'.manifests;
  }

  lemma UpdateSafe(env: Env, w0: World, w: World, e: Entry)
    requires Ready(env) && Safe(env, w0, w)
    requires Listable(env, w0, e.record) && e == Original(env, w0, e.record) && e.path in env.files
    requires e.record in w.uris && w.uris[e.record] == e.oldUri && OnManifest(w, Line(env, e))
    requires e.key in w.objects && Matches(env, w.objects[e.key], env.files[e.path])
    ensures Update(env, e, w).Some? && Safe(env, w0, Update(env, e, w).value)
  {
    var w' := Update(env, e, w).value;
    forall r | r in w'.uris
      ensures RecordSafe(env, w0, w', r)
    {
      if r == e.record {
        ManifestStays(w, w', Line(env, e));
        assert Moved(env, w0, w', r);
      } else if w.uris[r] != w0.uris[r] {
        ManifestStays(w, w', Line(env, Original(env, w0, r)));
        assert Moved(env, w0, w', r);
      }
    }
  }

  lemma PendingTail(env: Env, w0: World, w: World, w': World, entries: seq<Entry>)
    requires entries != [] && Pending(env, w0, w, entries)
    requires w'.manifests == w.manifests
    requires w'.uris.Keys == w.uris.Keys
    requires forall r :: r in w.uris && r != entries[0].record ==> w'.uris[r] == w.uris[r]
    ensures Pending(env, w0, w', entries[1..])
  {
    forall e | e in entries[1..]
      ensures e.record != entries[0].record && OnManifest(w', Line(env, e))
    {
      var i :| 0 < i < |entries| && entries[i] == e;
      assert e in entries;
      ManifestStays(w, w', Line(env, e));
    }
  }

  /** One entry, done in full. */
  lemma EntrySafe(env: Env, w0: World, entries: seq<Entry>, w: World)
    requires Ready(env) && KeysDistinct(env, w0) && Safe(env, w0, w)
    requires entries != [] && Pending(env, w0, w, entries)
    requires Upload(env, entries[0], w).Ok?
    ensures var w1 := Upload(env, entries[0], w).value;
            var step := Update(env, entries[0], w1);
            && Safe(env, w0, w1)
            && step.Some?
            && Safe(env, w0, step.value) && Pending(env, w0, step.value, entries[1..])
            && step.value.uris == w.uris[entries[0].record := NewUri(env, entries[0].key)]
            && step.value.projects == w.projects && step.value.tasks == w.tasks
  {
    var e := entries[0];
    UploadSafe(env, w0, w, e);
    var w1 := Upload(env, e, w).value;
    ManifestStays(w, w1, Line(env, e));
    UpdateSafe(env, w0, w1, e);
    PendingTail(env, w0, w, Update(env, e, w1).value, entries);
  }

  lemma DestinationsEndSafe(env: Env, w0: World, w: World)
    requires Safe(env, w0, w)
    ensures Safe(env, w0, SetProjects(env, w)) && Safe(env, w0, SetTasks(env, w))
  {
    RecordsStaySafe(env, w0, w, SetProjects(env, w));
    RecordsStaySafe(env, w0, w, SetTasks(env, w));
  }

  /** Records are safe as long as URIs and objects are left alone and manifests only added. */
  lemma RecordsStaySafe(env: Env, w0: World, w: World, w': World)
    requires Safe(env, w0, w)
    requires w'.uris == w.uris && w'.objects == w.objects && w.manifests <= w'.manifests
    ensures forall r :: r in w'.uris ==> RecordSafe(env, w0, w', r)
  {
    forall r | r in w'.uris
      ensures RecordSafe(env, w0, w', r)
    {
      if w.uris[r] != w0.uris[r] {
        ManifestStays(w, w', Line(env, Original(env, w0, r)));
      }
    }
  }

  /** A manifest cut short is safe: no record has been touched after it. */
  lemma TornManifestSafe(env: Env, w0: World, w: World)
    requires Safe(env, w0, w)
    ensures Safe(env, w0, w.(manifests := w.manifests + [[]]))
  {
    var w' := w.(manifests := w.manifests + [[]]);
    RecordsStaySafe(env, w0, w, w');
    forall i, line | |w0.manifests| <= i < |w'.manifests| && line in w'.manifests[i]
      ensures Listable(env, w0, line.record) && line == Line(env, Original(env, w0, line.record))
    {
      assert i < |w.manifests| && line in w.manifests[i];
    }
  }

  lemma EndSafe(env: Env, w0: World, w: World, fuel: nat)
    requires Ready(env) && KeysDistinct(env, w0) && Safe(env, w0, w)
    ensures Safe(env, w0, Migrate(env, [], w, fuel).0)
  {
    if fuel > 0 {
      DestinationsEndSafe(env, w0, w);
      DestinationsEndSafe(env, w0, SetProjects(env, w));
    }
  }

  /** The loop is safe wherever it stops. */
  lemma {:induction false} MigrateSafe(env: Env, w0: World, entries: seq<Entry>, w: World, fuel: nat)
    requires Ready(env) && KeysDistinct(env, w0) && Safe(env, w0, w)
    requires Pending(env, w0, w, entries)
    ensures Safe(env, w0, Migrate(env, entries, w, fuel).0)
  {
    if entries == [] {
      EndSafe(env, w0, w, fuel);
    } else if fuel < 2 || Upload(env, entries[0], w).Err? {
      FirstEntrySafe(env, w0, entries, w, fuel);
    } else {
      EntrySafe(env, w0, entries, w);
      var w2 := Update(env, entries[0], Upload(env, entries[0], w).value).value;
      MigrateSafe(env, w0, entries[1..], w2, fuel - 2);
      NextEntrySafe(env, w0, entries, w, w2, fuel);
    }
  }

  lemma NextEntrySafe(env: Env, w0: World, entries: seq<Entry>, w: World, w2: World, fuel: nat)
    requires AllPresent(env, entries) && entries != [] && fuel >= 2 && Upload(env, entries[0], w).Ok?
    requires Update(env, entries[0], Upload(env, entries[0], w).value) == Some(w2)
    requires Safe(env, w0, Migrate(env, entries[1..], w2, fuel - 2).0)
    ensures Safe(env, w0, Migrate(env, entries, w, fuel).0)
  {
    assert Migrate(env, entries, w, fuel) == Migrate(env, entries[1..], w2, fuel - 2);
  }

  lemma FirstEntrySafe(env: Env, w0: World, entries: seq<Entry>, w: World, fuel: nat)
    requires Ready(env) && KeysDistinct(env, w0) && Safe(env, w0, w)
    requires entries != [] && Pending(env, w0, w, entries) && (fuel < 2 || Upload(env, entries[0], w).Err?)
    ensures Safe(env, w0, Migrate(env, entries, w, fuel).0)
  {
    UploadSafe(env, w0, w, entries[0]);
  }

  predicate Recorded(entries: seq<Entry>, r: RecordId) {
    exists e :: e in entries && e.record == r
  }

  lemma RecordedCons(entries: seq<Entry>, r: RecordId)
    requires entries != []
    ensures Recorded(entries, r) <==> r == entries[0].record || Recorded(entries[1..], r)
  {
    if Recorded(entries, r) {
      var e :| e in entries && e.record == r;
      assert e == entries[0] || e in entries[1..];
    }
    if r == entries[0].record {
      assert entries[0] in entries;
    }
  }

  ghost predicate RecordsDiffer(entries: seq<Entry>) {
    forall i, j :: 0 <= i < j < |entries| ==> entries[i].record != entries[j].record
  }

  /** If it finishes, exactly the listed records have moved. */
  lemma {:induction false} MigrateFinishes(env: Env, entries: seq<Entry>, w: World, fuel: nat, r: RecordId)
    requires AllPresent(env, entries) && RecordsDiffer(entries)
    requires r in w.uris && Migrate(env, entries, w, fuel).1
    ensures var w' := Migrate(env, entries, w, fuel).0;
            && r in w'.uris
            && (!Recorded(entries, r) ==> w'.uris[r] == w.uris[r])
            && (forall e :: e in entries && e.record == r ==> w'.uris[r] == NewUri(env, e.key))
  {
    if entries != [] {
      var w1 := Upload(env, entries[0], w).value;
      assert w1.uris == w.uris;
      var w2 := Update(env, entries[0], w1).value;
      RecordedCons(entries, r);
      MigrateFinishes(env, entries[1..], w2, fuel - 2, r);
      if r == entries[0].record {
        assert !Recorded(entries[1..], r);
      }
      forall e | e in entries && e.record == r
        ensures e == entries[0] || e in entries[1..]
      {
      }
    }
  }

  // ---- Runs ----

  lemma StartsPending(env: Env, w0: World, w: World)
    requires Ready(env) && Safe(env, w0, w)
    requires Entries(env, w.uris, env.listing).Ok?
    requires AllPresent(env, Entries(env, w.uris, env.listing).value)
    ensures var entries := Entries(env, w.uris, env.listing).value;
            var w1 := w.(manifests := w.manifests + [Lines(env, entries)]);
            Pending(env, w0, w1, entries) && Safe(env, w0, w1)
  {
    var entries := Entries(env, w.uris, env.listing).value;
    var w1 := w.(manifests := w.manifests + [Lines(env, entries)]);
    EntriesExact(env, w.uris, env.listing);
    forall e | e in entries
      ensures Listable(env, w0, e.record) && e == Original(env, w0, e.record)
      ensures OnManifest(w1, Line(env, e))
    {
      assert Lists(env, w.uris, env.listing, e);
      assert RecordSafe(env, w0, w, e.record);
      if w.uris[e.record] != w0.uris[e.record] {
        NewUriIsNoSource(env, Original(env, w0, e.record).key);
      }
      var i :| 0 <= i < |entries| && entries[i] == e;
      assert Lines(env, entries)[i] == Line(env, e);
      assert w1.manifests[|w.manifests|] == Lines(env, entries);
      assert Lines(env, entries) in w1.manifests && Line(env, e) in Lines(env, entries);
    }
    forall i, line | |w0.manifests| <= i < |w1.manifests| && line in w1.manifests[i]
      ensures Listable(env, w0, line.record) && line == Line(env, Original(env, w0, line.record))
    {
      if i == |w.manifests| {
        var j :| 0 <= j < |entries| && Line(env, entries[j]) == line;
        assert entries[j] in entries;
      } else {
        assert line in w.manifests[i];
      }
    }
    RecordsStaySafe(env, w0, w, w1);
  }

  lemma RunSafe(env: Env, w0: World, w: World, fuel: nat)
    requires Ready(env) && KeysDistinct(env, w0) && Safe(env, w0, w)
    ensures Safe(env, w0, Run(env, w, fuel).0)
  {
    var entries := Entries(env, w.uris, env.listing);
    if entries.Ok? && AllPresent(env, entries.value) && fuel > 0 {
      StartsPending(env, w0, w);
      TornManifestSafe(env, w0, w);
      if fuel > 1 {
        MigrateSafe(env, w0, entries.value, w.(manifests := w.manifests + [Lines(env, entries.value)]), fuel - 2);
      }
    }
  }

  /**
    Crash safety. After any number of runs, each killed anywhere, and with an object store that may
    answer anything: each record has its old or its new URI; a new URI comes with an object of the file's length and
    `sha256` metadata under its key and a manifest line that maps it back; missing default destinations may be set;
    no object is gone, and no object is written but those under the keys of moved records.
   */
  lemma {:induction false} CrashSafe(env: Env, w0: World, fuels: seq<nat>)
    requires Ready(env) && KeysDistinct(env, w0)
    ensures Safe(env, w0, Runs(env, w0, fuels))
  {
    if fuels != [] {
      CrashSafe(env, w0, fuels[..|fuels| - 1]);
      RunSafe(env, w0, Runs(env, w0, fuels[..|fuels| - 1]), fuels[|fuels| - 1]);
    }
  }

  /** One world comes from the other by one write at most: to a manifest, an object, a record, or one kind of destinations. */
  ghost predicate OneWrite(w: World, w': World) {
    || w' == w.(manifests := w'.manifests)
    || (exists key :: key in w'.objects
         && w' == w.(objects := w.objects[key := w'.objects[key]], uploads := w.uploads + 1))
    || (exists r :: r in w.uris && r in w'.uris && w' == w.(uris := w.uris[r := w'.uris[r]]))
    || w' == w.(projects := w'.projects)
    || w' == w.(tasks := w'.tasks)
  }

  lemma UploadIsOneWrite(env: Env, e: Entry, w: World)
    requires e.path in env.files
    ensures var r := Upload(env, e, w);
            OneWrite(w, if r.Ok? then r.value else r.error)
  {
    var outcome := Upload(env, e, w);
    var w' := if outcome.Ok? then outcome.value else outcome.error;
    if w' != w {
      assert e.key in w'.objects && w' == w.(objects := w.objects[e.key := w'.objects[e.key]], uploads := w.uploads + 1);
    } else {
      assert w' == w.(manifests := w'.manifests);
    }
  }

  lemma UpdateIsOneWrite(env: Env, e: Entry, w: World)
    requires Update(env, e, w).Some?
    ensures OneWrite(w, Update(env, e, w).value)
  {
    var w' := Update(env, e, w).value;
    assert e.record in w'.uris && w' == w.(uris := w.uris[e.record := w'.uris[e.record]]);
  }

  lemma {:induction false} LoopByOneWrite(env: Env, entries: seq<Entry>, w: World, fuel: nat)
    requires AllPresent(env, entries)
    ensures OneWrite(Migrate(env, entries, w, fuel).0, Migrate(env, entries, w, fuel + 1).0)
  {
    if entries != [] {
      var outcome := Upload(env, entries[0], w);
      if fuel == 0 {
        UploadIsOneWrite(env, entries[0], w);
      } else if outcome.Ok? && Update(env, entries[0], outcome.value).Some? {
        var w2 := Update(env, entries[0], outcome.value).value;
        if fuel == 1 {
          UpdateIsOneWrite(env, entries[0], outcome.value);
          assert Migrate(env, entries[1..], w2, 0).0 == w2;
        } else {
          LoopByOneWrite(env, entries[1..], w2, fuel - 2);
        }
      }
    }
  }

  /** A run can be killed between any two writes: with one more write to make it gets at most one write further. */
  lemma KilledBetweenWrites(env: Env, w: World, fuel: nat)
    ensures OneWrite(Run(env, w, fuel).0, Run(env, w, fuel + 1).0)
    ensures Run(env, w, 0).0 == w
  {
    var entries := Entries(env, w.uris, env.listing);
    if entries.Ok? && AllPresent(env, entries.value) && fuel > 1 {
      LoopByOneWrite(env, entries.value, w.(manifests := w.manifests + [Lines(env, entries.value)]), fuel - 2);
    }
  }

  /** Where the migration is headed. */
  function Target(env: Env, w0: World): map<RecordId, string> {
    map r | r in w0.uris :: if Listable(env, w0, r) then NewUri(env, Original(env, w0, r).key) else w0.uris[r]
  }

  lemma FinishedRecord(env: Env, w0: World, w: World, fuel: nat, r: RecordId)
    requires Ready(env) && Safe(env, w0, w)
    requires Run(env, w, fuel).1 && r in w0.uris
    ensures var w' := Run(env, w, fuel).0;
            r in w'.uris && w'.uris[r] == Target(env, w0)[r]
  {
    var entries := Entries(env, w.uris, env.listing).value;
    EntriesExact(env, w.uris, env.listing);
    MigrateFinishes(env, entries, w.(manifests := w.manifests + [Lines(env, entries)]), fuel - 2, r);
    assert RecordSafe(env, w0, w, r);
    if Recorded(entries, r) {
      var e :| e in entries && e.record == r;
      assert Lists(env, w.uris, env.listing, e);
      if w.uris[r] != w0.uris[r] {
        NewUriIsNoSource(env, Original(env, w0, r).key);
      }
    } else if Listable(env, w0, r) && w.uris[r] == w0.uris[r] {
      assert Lists(env, w.uris, env.listing, Original(env, w0, r));
    }
  }

  lemma FinishedRun(env: Env, w0: World, w: World, fuel: nat)
    requires Ready(env) && KeysDistinct(env, w0) && Safe(env, w0, w)
    requires Run(env, w, fuel).1
    ensures Run(env, w, fuel).0.uris == Target(env, w0)
    ensures Run(env, w, fuel).0.projects == Filled(env, w0.projects)
    ensures Run(env, w, fuel).0.tasks == Filled(env, w0.tasks)
  {
    RunSafe(env, w0, w, fuel);
    StartsPending(env, w0, w);
    FinishedDestinations(env, w0, w, fuel);
    forall r | r in w0.uris {
      FinishedRecord(env, w0, w, fuel, r);
    }
  }

  lemma {:induction false} LoopDestinations(env: Env, entries: seq<Entry>, w: World, fuel: nat)
    requires AllPresent(env, entries) && Migrate(env, entries, w, fuel).1
    ensures Migrate(env, entries, w, fuel).0.projects == Filled(env, w.projects)
    ensures Migrate(env, entries, w, fuel).0.tasks == Filled(env, w.tasks)
  {
    if entries != [] {
      var w2 := Update(env, entries[0], Upload(env, entries[0], w).value).value;
      LoopDestinations(env, entries[1..], w2, fuel - 2);
    }
  }

  /** Setting what is missing comes to the same whatever was set before. */
  lemma FilledAgain(env: Env, before: map<string, string>, after: map<string, string>)
    requires DestinationsSafe(env, before, after)
    ensures Filled(env, after) == Filled(env, before)
  {
  }

  lemma FinishedDestinations(env: Env, w0: World, w: World, fuel: nat)
    requires Safe(env, w0, w) && Run(env, w, fuel).1
    ensures Run(env, w, fuel).0.projects == Filled(env, w0.projects)
    ensures Run(env, w, fuel).0.tasks == Filled(env, w0.tasks)
  {
    var entries := Entries(env, w.uris, env.listing).value;
    LoopDestinations(env, entries, w.(manifests := w.manifests + [Lines(env, entries)]), fuel - 2);
    FilledAgain(env, w0.projects, w.projects);
    FilledAgain(env, w0.tasks, w.tasks);
  }

  /**
    Convergence. A run that finishes after any number of interrupted runs leaves every record and every
    destination exactly as one uninterrupted run would have.
   */
  lemma Convergent(env: Env, w0: World, fuels: seq<nat>, fuel: nat, uninterrupted: nat)
    requires Ready(env) && KeysDistinct(env, w0)
    requires Run(env, Runs(env, w0, fuels), fuel).1
    requires Run(env, w0, uninterrupted).1
    ensures Run(env, Runs(env, w0, fuels), fuel).0.uris == Run(env, w0, uninterrupted).0.uris
    ensures Run(env, Runs(env, w0, fuels), fuel).0.projects == Run(env, w0, uninterrupted).0.projects
    ensures Run(env, Runs(env, w0, fuels), fuel).0.tasks == Run(env, w0, uninterrupted).0.tasks
  {
    CrashSafe(env, w0, fuels);
    CrashSafe(env, w0, []);
    FinishedRun(env, w0, Runs(env, w0, fuels), fuel);
    FinishedRun(env, w0, w0, uninterrupted);
  }

  /** Upon a faithful store an upload leaves the bytes, their length and their digest. */
  ghost predicate Faithful(env: Env) {
    forall n, key, content :: env.store(n, key, content) == Object(|content|, env.digest(content), content)
  }

  lemma FaithfulUpload(env: Env, e: Entry, w: World)
    requires Faithful(env) && e.path in env.files
    ensures Upload(env, e, w).Ok? && Upload(env, e, w).value.uris == w.uris
  {
  }

  ghost predicate Awaiting(w: World, entries: seq<Entry>) {
    forall i :: 0 <= i < |entries| ==> entries[i].record in w.uris && w.uris[entries[i].record] == entries[i].oldUri
  }

  lemma {:induction false} MigrateCompletes(env: Env, entries: seq<Entry>, w: World, fuel: nat)
    requires AllPresent(env, entries) && RecordsDiffer(entries) && Faithful(env)
    requires Awaiting(w, entries)
    requires fuel >= 2 * |entries| + 2
    ensures Migrate(env, entries, w, fuel).1
  {
    if entries != [] {
      FaithfulUpload(env, entries[0], w);
      var w1 := Upload(env, entries[0], w).value;
      var w2 := Update(env, entries[0], w1).value;
      var rest := entries[1..];
      assert forall i :: 0 <= i < |rest| ==> rest[i] == entries[i + 1];
      assert Awaiting(w2, rest);
      MigrateCompletes(env, rest, w2, fuel - 2);
    }
  }

  /** The first run could start: every listed URI is acceptable and every source file is there. */
  ghost predicate Startable(env: Env, w: World) {
    && (forall r :: r in env.listing && r in w.uris ==> SourcePath(env, w.uris[r]).Ok?)
    && (forall r :: Listable(env, w, r) ==> Original(env, w, r).path in env.files)
  }

  lemma StillStartable(env: Env, w0: World, w: World)
    requires Ready(env) && Safe(env, w0, w) && Startable(env, w0)
    ensures var entries := Entries(env, w.uris, env.listing);
            entries.Ok? && AllPresent(env, entries.value) && |entries.value| <= |env.listing|
  {
    EntriesFail(env, w.uris, env.listing);
    EntriesExact(env, w.uris, env.listing);
    forall r | r in env.listing && r in w.uris
      ensures SourcePath(env, w.uris[r]).Ok?
      ensures HasSource(env, w.uris[r]) ==> w.uris[r] == w0.uris[r]
    {
      assert RecordSafe(env, w0, w, r);
      if w.uris[r] != w0.uris[r] {
        NewUriIsNoSource(env, Original(env, w0, r).key);
      }
    }
    forall e | e in Entries(env, w.uris, env.listing).value
      ensures e.path in env.files
    {
      assert Lists(env, w.uris, env.listing, e);
      assert Listable(env, w0, e.record) && Original(env, w0, e.record) == e;
    }
  }

  lemma EntriesAwait(env: Env, w: World, entries: seq<Entry>)
    requires Distinct(env.listing) && Entries(env, w.uris, env.listing) == Ok(entries)
    ensures Awaiting(w, entries) && RecordsDiffer(entries)
  {
    EntriesExact(env, w.uris, env.listing);
    forall i | 0 <= i < |entries|
      ensures entries[i].record in w.uris && w.uris[entries[i].record] == entries[i].oldUri
    {
      assert entries[i] in entries;
      assert Lists(env, w.uris, env.listing, entries[i]);
    }
  }

  /** A run past its manifest is its update loop. */
  lemma RunIsLoop(env: Env, w: World, entries: seq<Entry>, fuel: nat)
    requires Entries(env, w.uris, env.listing) == Ok(entries) && AllPresent(env, entries) && fuel >= 2
    ensures Run(env, w, fuel) == Migrate(env, entries, w.(manifests := w.manifests + [Lines(env, entries)]), fuel - 2)
  {
  }

  lemma RunCompletes(env: Env, w: World, entries: seq<Entry>, fuel: nat)
    requires Distinct(env.listing) && Faithful(env)
    requires Entries(env, w.uris, env.listing) == Ok(entries) && AllPresent(env, entries)
    requires fuel >= 2 * |entries| + 4
    ensures Run(env, w, fuel).1
  {
    ListedCompletes(env, w, entries, fuel);
    LoopFinishesRun(env, w, entries, fuel);
  }

  /** The update loop of a run that has listed the entries finishes. */
  predicate LoopFinishes(env: Env, w: World, entries: seq<Entry>, fuel: nat) {
    AllPresent(env, entries) && fuel >= 2
    && Migrate(env, entries, w.(manifests := w.manifests + [Lines(env, entries)]), fuel - 2).1
  }

  lemma LoopFinishesRun(env: Env, w: World, entries: seq<Entry>, fuel: nat)
    requires Entries(env, w.uris, env.listing) == Ok(entries) && LoopFinishes(env, w, entries, fuel)
    ensures Run(env, w, fuel).1
  {
    RunIsLoop(env, w, entries, fuel);
  }

  lemma ListedCompletes(env: Env, w: World, entries: seq<Entry>, fuel: nat)
    requires Distinct(env.listing) && Faithful(env)
    requires Entries(env, w.uris, env.listing) == Ok(entries) && AllPresent(env, entries)
    requires fuel >= 2 * |entries| + 4
    ensures LoopFinishes(env, w, entries, fuel)
  {
    EntriesAwait(env, w, entries);
    AwaitedCompletes(env, w, entries, fuel);
  }

  lemma AwaitedCompletes(env: Env, w: World, entries: seq<Entry>, fuel: nat)
    requires AllPresent(env, entries) && RecordsDiffer(entries) && Faithful(env) && Awaiting(w, entries)
    requires fuel >= 2 * |entries| + 4
    ensures LoopFinishes(env, w, entries, fuel)
  {
    var w1 := w.(manifests := w.manifests + [Lines(env, entries)]);
    AwaitingAnyway(w, w1, entries);
    MigrateCompletes(env, entries, w1, fuel - 2);
  }

  lemma AwaitingAnyway(w: World, w1: World, entries: seq<Entry>)
    requires Awaiting(w, entries) && w1.uris == w.uris
    ensures Awaiting(w1, entries)
  {
  }

  /** No interruption spoils the migration: it can always be resumed and then finishes. */
  lemma AlwaysResumable(env: Env, w0: World, fuels: seq<nat>, fuel: nat)
    requires Ready(env) && KeysDistinct(env, w0) && Faithful(env) && Startable(env, w0)
    requires fuel >= 2 * |env.listing| + 4
    ensures Run(env, Runs(env, w0, fuels), fuel).1
  {
    var w := Runs(env, w0, fuels);
    CrashSafe(env, w0, fuels);
    StillStartable(env, w0, w);
    RunCompletes(env, w, Entries(env, w.uris, env.listing).value, fuel);
  }

  // ---- Rollback ----

  ghost predicate MapsBack(w0: World, w: World, r: RecordId, line: ManifestLine)
    requires r in w.uris
  {
    && line.record == r && line.newUri == w.uris[r]
    && exists i :: |w0.manifests| <= i < |w.manifests| && line in w.manifests[i]
  }

  /**
    The manifests undo the migration: at any point, a record has moved exactly when a manifest written
    since the start has a line for its current URI, and all such lines name the URI it had at the start.
   */
  lemma ManifestsMapBack(env: Env, w0: World, fuels: seq<nat>, r: RecordId)
    requires Ready(env) && KeysDistinct(env, w0) && w0.manifests == []
    requires r in w0.uris
    ensures var w := Runs(env, w0, fuels);
            && r in w.uris
            && (w.uris[r] != w0.uris[r] <==> exists line :: MapsBack(w0, w, r, line))
            && (forall line :: MapsBack(w0, w, r, line) ==> line.oldUri == w0.uris[r])
  {
    var w := Runs(env, w0, fuels);
    CrashSafe(env, w0, fuels);
    assert RecordSafe(env, w0, w, r);
    if w.uris[r] != w0.uris[r] {
      var line := Line(env, Original(env, w0, r));
      var m :| m in w.manifests && line in m;
      assert MapsBack(w0, w, r, line);
    }
    forall line | MapsBack(w0, w, r, line)
      ensures line.oldUri == w0.uris[r] && w.uris[r] != w0.uris[r]
    {
      NewUriIsNoSource(env, Original(env, w0, r).key);
    }
  }

  // ---- Object keys ----

  predicate Slashless(s: string) {
    forall i :: 0 <= i < |s| ==> s[i] != '/'
  }

  lemma PrefixesDiffer(x: string, y: string)
    ensures "migrated/models/" + x != "migrated/task-artifacts/" + y
  {
    assert ("migrated/models/" + x)[9] == 'm' && ("migrated/task-artifacts/" + y)[9] == 't';
  }

  lemma CutPrefix(prefix: string, x: string, y: string)
    requires prefix + x == prefix + y
    ensures x == y
  {
    assert (prefix + x)[|prefix|..] == x && (prefix + y)[|prefix|..] == y;
  }

  /** A last component without a slash can be told from what is before it. */
  lemma SplitAtLast(a: string, name: string, b: string, name': string)
    requires Slashless(name) && Slashless(name')
    requires a + "/" + name == b + "/" + name'
    ensures a == b && name == name'
  {
    var s := a + "/" + name;
    assert s == b + "/" + name';
    assert s[|a|] == '/' && s[|b|] == '/';
    assert forall i :: |a| < i < |s| ==> s[i] == name[i - |a| - 1] && s[i] != '/';
    assert forall i :: |b| < i < |s| ==> s[i] == name'[i - |b| - 1] && s[i] != '/';
    assert |a| == |b|;
    assert s[..|a|] == a && s[..|b|] == b;
    assert s[|a| + 1..] == name && s[|b| + 1..] == name';
  }

  /** The records whose objects lie in one folder of the bucket. */
  predicate SameFolder(r: RecordId, r': RecordId) {
    match (r, r')
    case (Model(id), Model(id')) => id == id'
    case (Artifact(task, id), Artifact(task', id')) => task + "/" + id == task' + "/" + id'
    case _ => false
  }

  /** The key of a moved record is its kind's folder, its ids and the last component of its file's path. */
  lemma KeyIsPlace(env: Env, w: World, r: RecordId, folder: Path, name: string)
    requires Listable(env, w, r) && Original(env, w, r).path == folder + [name]
    ensures Original(env, w, r).key
         == match r
            case Model(id) => "migrated/models/" + id + "/" + name
            case Artifact(task, id) => "migrated/task-artifacts/" + task + "/" + id + "/" + name
  {
    match r {
      case Model(id) =>
        assert "migrated/models/" + (id + "/" + name) == "migrated/models/" + id + "/" + name;
      case Artifact(task, id) =>
        assert "migrated/task-artifacts/" + (task + "/" + (id + "/" + name))
            == "migrated/task-artifacts/" + task + "/" + id + "/" + name;
    }
  }

  /** For file names, which have no slash, two object keys are equal exactly when folder and name are. */
  lemma KeysEqualIff(r: RecordId, r': RecordId, name: string, name': string)
    requires Slashless(name) && Slashless(name')
    ensures ObjectKey(r, name) == ObjectKey(r', name') <==> SameFolder(r, r') && name == name'
  {
    match (r, r') {
      case (Model(id), Model(id')) =>
        if ObjectKey(r, name) == ObjectKey(r', name') {
          CutPrefix("migrated/models/", id + "/" + name, id' + "/" + name');
          SplitAtLast(id, name, id', name');
        }
      case (Artifact(task, id), Artifact(task', id')) =>
        assert task + "/" + (id + "/" + name) == (task + "/" + id) + "/" + name;
        assert task' + "/" + (id' + "/" + name') == (task' + "/" + id') + "/" + name';
        if ObjectKey(r, name) == ObjectKey(r', name') {
          CutPrefix("migrated/task-artifacts/", task + "/" + (id + "/" + name), task' + "/" + (id' + "/" + name'));
          SplitAtLast(task + "/" + id, name, task' + "/" + id', name');
        }
      case (Model(id), Artifact(task, id')) =>
        PrefixesDiffer(id + "/" + name, task + "/" + (id' + "/" + name'));
      case (Artifact(task, id), Model(id')) =>
        PrefixesDiffer(id' + "/" + name', task + "/" + (id + "/" + name));
    }
  }

  /** Paths are resolved to components, and no component has a slash. */
  ghost predicate NamesSlashless(env: Env) {
    forall root, s :: Slashless(Name(env.resolve(root, s)))
  }

  lemma SourceNamesSlashless(env: Env, w: World, r: RecordId)
    requires NamesSlashless(env) && Listable(env, w, r)
    ensures Slashless(Name(Original(env, w, r).path))
  {
  }

  /** No two moved records share both the folder and the file name. */
  ghost predicate PlacesDistinct(env: Env, w: World) {
    forall r, r' :: Listable(env, w, r) && Listable(env, w, r') && r != r' && SameFolder(r, r') ==>
      Name(Original(env, w, r).path) != Name(Original(env, w, r').path)
  }

  /** No two moved records share an object key exactly when none share both the folder and the file name. */
  lemma KeysDistinctIff(env: Env, w: World)
    requires NamesSlashless(env)
    ensures KeysDistinct(env, w) <==> PlacesDistinct(env, w)
  {
    if PlacesDistinct(env, w) {
      forall r, r' | Listable(env, w, r) && Listable(env, w, r') && r != r'
        ensures Original(env, w, r).key != Original(env, w, r').key
      {
        PairKeysIff(env, w, r, r');
      }
    }
    if KeysDistinct(env, w) {
      forall r, r' | Listable(env, w, r) && Listable(env, w, r') && r != r' && SameFolder(r, r')
        ensures Name(Original(env, w, r).path) != Name(Original(env, w, r').path)
      {
        PairKeysIff(env, w, r, r');
      }
    }
  }

  lemma PairKeysIff(env: Env, w: World, r: RecordId, r': RecordId)
    requires NamesSlashless(env) && Listable(env, w, r) && Listable(env, w, r')
    ensures Original(env, w, r).key == Original(env, w, r').key
       <==> SameFolder(r, r') && Name(Original(env, w, r).path) == Name(Original(env, w, r').path)
  {
    SourceNamesSlashless(env, w, r);
    SourceNamesSlashless(env, w, r');
    KeysEqualIff(r, r', Name(Original(env, w, r).path), Name(Original(env, w, r').path));
  }

  /** One task id, followed by a slash, starts the other. */
  predicate Nested(task: string, task': string) {
    task + "/" <= task' || task' + "/" <= task
  }

  /** Artifacts of two tasks can share a folder exactly when one task id is nested in the other. */
  lemma FoldersMeetIff(task: string, task': string)
    requires task != task'
    ensures (exists id, id' :: SameFolder(Artifact(task, id), Artifact(task', id'))) <==> Nested(task, task')
  {
    if id, id' :| SameFolder(Artifact(task, id), Artifact(task', id')) {
      FolderNests(task, id, task', id');
    }
    if task + "/" <= task' {
      var rest := task'[|task| + 1..];
      assert task' == task + "/" + rest;
      assert task + "/" + (rest + "/") == task' + "/" + "";
      assert SameFolder(Artifact(task, rest + "/"), Artifact(task', ""));
    } else if task' + "/" <= task {
      var rest := task[|task'| + 1..];
      assert task == task' + "/" + rest;
      assert task' + "/" + (rest + "/") == task + "/" + "";
      assert SameFolder(Artifact(task, ""), Artifact(task', rest + "/"));
    }
  }

  lemma FolderNests(task: string, id: string, task': string, id': string)
    requires task != task' && task + "/" + id == task' + "/" + id'
    ensures Nested(task, task')
  {
    var s := task + "/" + id;
    assert s == task' + "/" + id';
    assert s[..|task|] == task && s[..|task'|] == task';
    assert s[|task|] == '/' && s[|task'|] == '/';
    if |task| < |task'| {
      assert s[..|task'|][..|task| + 1] == task + "/";
    } else if |task'| < |task| {
      assert s[..|task|][..|task'| + 1] == task' + "/";
    }
  }

  /** Every choice of model ids, artifact ids and file names of some tasks has its own keys. */
  ghost predicate OwnKeys(tasks: set<string>) {
    forall r, r', name, name' ::
      OfTasks(r, tasks) && OfTasks(r', tasks) && Slashless(name) && Slashless(name') && r != r' ==>
        ObjectKey(r, name) != ObjectKey(r', name')
  }

  predicate OfTasks(r: RecordId, tasks: set<string>) {
    r.Artifact? ==> r.task in tasks
  }

  /** That holds exactly when no task id is nested in another; model and artifact ids may be anything. */
  lemma OwnKeysIff(tasks: set<string>)
    ensures OwnKeys(tasks) <==>
              forall task, task' :: task in tasks && task' in tasks && task != task' ==> !Nested(task, task')
  {
    if forall task, task' :: task in tasks && task' in tasks && task != task' ==> !Nested(task, task') {
      forall r, r', name, name' | OfTasks(r, tasks) && OfTasks(r', tasks) && Slashless(name) && Slashless(name') && r != r'
        ensures ObjectKey(r, name) != ObjectKey(r', name')
      {
        KeysEqualIff(r, r', name, name');
        if SameFolder(r, r') && r.Artifact? {
          SameTaskSameId(r, r');
        }
      }
    }
    if task, task' :| task in tasks && task' in tasks && task != task' && Nested(task, task') {
      FoldersMeetIff(task, task');
      var id, id' :| SameFolder(Artifact(task, id), Artifact(task', id'));
      KeysEqualIff(Artifact(task, id), Artifact(task', id'), "", "");
      assert OfTasks(Artifact(task, id), tasks) && OfTasks(Artifact(task', id'), tasks);
      assert !OwnKeys(tasks);
    }
  }

  /** Different artifacts in one folder belong to tasks of which one is nested in the other. */
  lemma SameTaskSameId(r: RecordId, r': RecordId)
    requires r.Artifact? && r'.Artifact? && SameFolder(r, r') && r != r'
    ensures r.task != r'.task && Nested(r.task, r'.task)
  {
    if r.task == r'.task {
      CutPrefix(r.task + "/", r.id, r'.id);
    } else {
      FolderNests(r.task, r.id, r'.task, r'.id);
    }
  }

  lemma NestedHasSlash(task: string, task': string)
    ensures Nested(task, task') ==> !Slashless(task) || !Slashless(task')
  {
    assert (task + "/")[|task|] == '/' && (task' + "/")[|task'|] == '/';
    if task + "/" <= task' {
      assert task'[|task|] == '/';
    } else if task' + "/" <= task {
      assert task[|task'|] == '/';
    }
  }

  lemma SlashlessFolders(r: RecordId, r': RecordId)
    requires r.Artifact? ==> Slashless(r.task)
    requires r'.Artifact? ==> Slashless(r'.task)
    ensures SameFolder(r, r') ==> r == r'
  {
    if r.Artifact? && r'.Artifact? {
      NestedHasSlash(r.task, r'.task);
      if SameFolder(r, r') && r != r' {
        SameTaskSameId(r, r');
      }
    }
  }

  /** Slashless task ids, as the server makes them, are enough. */
  lemma SlashlessTasksDistinct(env: Env, w: World)
    requires NamesSlashless(env)
    requires forall r :: r in env.listing && r.Artifact? ==> Slashless(r.task)
    ensures KeysDistinct(env, w)
  {
    forall r, r' | Listable(env, w, r) && Listable(env, w, r') && r != r'
      ensures Original(env, w, r).key != Original(env, w, r').key
    {
      SlashlessFolders(r, r');
      PairKeysIff(env, w, r, r');
    }
  }

  /** A concrete collision: task `a/b` and task `a`. */
  lemma SlashesCollide(name: string)
    ensures ObjectKey(Artifact("a", "b/c"), name) == ObjectKey(Artifact("a/b", "c"), name)
  {
    assert "a" + "/" + ("b/c" + "/" + name) == "a/b" + "/" + ("c" + "/" + name);
  }
}
