/**
  The artifact migration: manifest, then for each listed record upload and verify, then compare-and-set.

  A run can stop anywhere: the `fuel` of a run is the number of external writes it gets to make before
  the process dies. The object store may answer anything. The bytes of an object are checked after its upload only: an
  object that is found under the key is taken on its length and its metadata.
 */
module Migration {
  import opened Common
  import opened Uris

  type Path = seq<string>

  type Content = string

  datatype RecordId = Model(id: string) | Artifact(task: string, id: string)

  /** An object of the bucket: its length, its `sha256` metadata and its bytes. */
  datatype Object = Object(length: nat, sha: string, body: Content)

  datatype Entry = Entry(record: RecordId, oldUri: string, key: string, path: Path)

  datatype ManifestLine = ManifestLine(record: RecordId, oldUri: string, newUri: string)

  /**
    `projects` and `tasks` are their default destinations, empty when missing. A manifest whose writing was cut
    short has no line that can be read.
   */
  datatype World = World(
    uris: map<RecordId, string>,
    objects: map<string, Object>,
    manifests: seq<seq<ManifestLine>>,
    projects: map<string, string>,
    tasks: map<string, string>,
    uploads: nat)

  /** Everything that stays fixed over all runs. `listing` is the order in which the records are found. */
  datatype Env = Env(
    fs: Rustfs,
    utf8: Encoding,
    listing: seq<RecordId>,
    filesRoot: Path,
    files: map<Path, Content>,
    unquote: string -> string,
    resolve: (Path, string) -> Path,
    port: string -> Option<int>,
    digest: Content -> string,
    store: (nat, string, Content) -> Object)

  // ---- source_path ----

  const FILESERVER_PORT := 7863

  /** `Some(path)` for a file the migration copies; an error when the path escapes the fileserver root. */
  function SourcePath(env: Env, uri: string): Result<Option<Path>, string> {
    var parsed := Split(uri);
    if (parsed.scheme == "http" || parsed.scheme == "https") && env.port(parsed.netloc) == Some(FILESERVER_PORT) then
      var path := env.resolve(env.filesRoot, LStrip(env.unquote(parsed.path), '/'));
      if env.resolve(env.filesRoot, "") <= path then Ok(Some(path)) else Err("File path escapes the fileserver root")
    else if parsed.scheme == "file" && (parsed.netloc == "" || parsed.netloc == "localhost") then
      Ok(Some(env.resolve([], env.unquote(parsed.path))))
    else
      Ok(None)
  }

  function Name(path: Path): string {
    if path == [] then "" else path[|path| - 1]
  }

  function ObjectKey(record: RecordId, name: string): string {
    match record
    case Model(id) => "migrated/models/" + (id + "/" + name)
    case Artifact(task, id) => "migrated/task-artifacts/" + (task + "/" + (id + "/" + name))
  }

  function NewUri(env: Env, key: string): string {
    MigratedUri(env.fs, env.utf8, key)
  }

  // ---- Listing the work ----

  function EntryOf(record: RecordId, uri: string, path: Path): Entry {
    Entry(record, uri, ObjectKey(record, Name(path)), path)
  }

  /** The entry list of a run over the records found so far; the first bad path ends the run. */
  function Entries(env: Env, uris: map<RecordId, string>, listing: seq<RecordId>): Result<seq<Entry>, string> {
    if listing == [] then Ok([])
    else
      var last := listing[|listing| - 1];
      match Entries(env, uris, listing[..|listing| - 1])
      case Err(err) => Err(err)
      case Ok(entries) =>
        if last !in uris then Ok(entries)
        else match SourcePath(env, uris[last])
          case Err(err) => Err(err)
          case Ok(None) => Ok(entries)
          case Ok(Some(path)) => Ok(entries + [EntryOf(last, uris[last], path)])
  }

  predicate AllPresent(env: Env, entries: seq<Entry>) {
    forall e :: e in entries ==> e.path in env.files
  }

  // ---- The steps ----

  function Line(env: Env, e: Entry): ManifestLine {
    ManifestLine(e.record, e.oldUri, NewUri(env, e.key))
  }

  function Lines(env: Env, entries: seq<Entry>): seq<ManifestLine> {
    seq(|entries|, i requires 0 <= i < |entries| => Line(env, entries[i]))
  }

  /** The check on `head_object`. */
  predicate Matches(env: Env, blob: Object, content: Content) {
    blob.length == |content| && blob.sha == env.digest(content)
  }

  predicate Verified(env: Env, blob: Object, content: Content) {
    Matches(env, blob, content) && env.digest(blob.body) == env.digest(content)
  }

  /** `upload_verified`: an error is the exception of a failed verification, with the upload done. */
  function Upload(env: Env, e: Entry, w: World): Result<World, World>
    requires e.path in env.files
  {
    var content := env.files[e.path];
    if e.key in w.objects && Matches(env, w.objects[e.key], content) then Ok(w)
    else
      var blob := env.store(w.uploads, e.key, content);
      var w' := w.(objects := w.objects[e.key := blob], uploads := w.uploads + 1);
      if Verified(env, blob, content) then Ok(w') else Err(w')
  }

  /** The compare-and-set on the record. */
  function Update(env: Env, e: Entry, w: World): Option<World> {
    if e.record in w.uris && w.uris[e.record] == e.oldUri
    then Some(w.(uris := w.uris[e.record := NewUri(env, e.key)]))
    else None
  }

  /** One `update_many`: every missing destination is set. */
  function Filled(env: Env, destinations: map<string, string>): map<string, string> {
    map k | k in destinations :: if destinations[k] == "" then RustfsBase(env.fs) else destinations[k]
  }

  function SetProjects(env: Env, w: World): World {
    w.(projects := Filled(env, w.projects))
  }

  function SetTasks(env: Env, w: World): World {
    w.(tasks := Filled(env, w.tasks))
  }

  /** The update loop: the world when the run ends, and whether it ended by finishing. */
  function Migrate(env: Env, entries: seq<Entry>, w: World, fuel: nat): (World, bool)
    requires AllPresent(env, entries)
  {
    if fuel == 0 then (w, false)
    else if entries == [] then
      if fuel == 1 then (SetProjects(env, w), false) else (SetTasks(env, SetProjects(env, w)), true)
    else
      match Upload(env, entries[0], w)
      case Err(w1) => (w1, false)
      case Ok(w1) =>
        if fuel == 1 then (w1, false)
        else match Update(env, entries[0], w1)
          case None => (w1, false)
          case Some(w2) => Migrate(env, entries[1..], w2, fuel - 2)
  }

  /** `main` with `--apply`. */
  function Run(env: Env, w: World, fuel: nat): (World, bool) {
    match Entries(env, w.uris, env.listing)
    case Err(_) => (w, false)
    case Ok(entries) =>
      if !AllPresent(env, entries) || fuel == 0 then (w, false)
      else if fuel == 1 then (w.(manifests := w.manifests + [[]]), false)
      else Migrate(env, entries, w.(manifests := w.manifests + [Lines(env, entries)]), fuel - 2)
  }

  /** Any number of interrupted runs, one after the other. */
  function Runs(env: Env, w: World, fuels: seq<nat>): World {
    if fuels == [] then w else Run(env, Runs(env, w, fuels[..|fuels| - 1]), fuels[|fuels| - 1]).0
  }

  // ---- The script ----

  class Migrator {
    const env: Env
    var world: World

    constructor (env: Env, world: World)
      ensures this.env == env && this.world == world
    {
      this.env := env;
      this.world := world;
    }

    /** The two listing loops: an entry for each record with a source, or the first path that escapes. */
    method ListEntries() returns (entries: Result<seq<Entry>, string>)
      ensures entries == Entries(env, world.uris, env.listing)
    {
      var found: seq<Entry> := [];
      for i := 0 to |env.listing|
        invariant Entries(env, world.uris, env.listing[..i]) == Ok(found)
      {
        var record := env.listing[i];
        ListingSnoc(env, world.uris, i);
        if record in world.uris {
          var source := SourcePath(env, world.uris[record]);
          if source.Err? {
            ErrorStays(env, world.uris, i + 1);
            return Err(source.error);
          }
          if source.value.Some? {
            found := found + [EntryOf(record, world.uris[record], source.value.value)];
          }
        }
      }
      assert env.listing[..|env.listing|] == env.listing;
      entries := Ok(found);
    }

    method CheckFiles(entries: seq<Entry>) returns (present: bool)
      ensures present <==> AllPresent(env, entries)
    {
      for j := 0 to |entries|
        invariant forall e :: e in entries[..j] ==> e.path in env.files
      {
        assert entries[..j + 1] == entries[..j] + [entries[j]];
        if entries[j].path !in env.files {
          assert entries[j] in entries;
          return false;
        }
      }
      assert entries[..|entries|] == entries;
      present := true;
    }

    /** `main` with `--apply`; the process is killed before its write number `fuel + 1`. */
    method RunScript(fuel: nat) returns (finished: bool)
      modifies this
      ensures (world, finished) == Run(env, old(world), fuel)
    {
      var entries := ListEntries();
      if entries.Err? {
        return false;
      }
      var present := CheckFiles(entries.value);
      if !present || fuel == 0 {
        return false;
      }
      WriteManifest(entries.value, fuel > 1);
      if fuel == 1 {
        return false;
      }
      finished := UpdateLoop(entries.value, fuel - 2);
    }

    /** Creating the manifest file is one write and filling it another. */
    method WriteManifest(entries: seq<Entry>, filled: bool)
      modifies this
      ensures world == old(world).(manifests := old(world).manifests + [if filled then Lines(env, entries) else []])
    {
      var n := |world.manifests|;
      world := world.(manifests := world.manifests + [[]]);
      if filled {
        world := world.(manifests := world.manifests[n := Lines(env, entries)]);
      }
    }

    /** Uploads and verifies one object, then compares and sets its record, with `left` writes to go. */
    method Apply(e: Entry, left: nat) returns (applied: bool)
      requires e.path in env.files && left > 0
      modifies this
      ensures Upload(env, e, old(world)).Err? ==> world == Upload(env, e, old(world)).error && !applied
      ensures Upload(env, e, old(world)).Ok? ==>
                var uploaded := Upload(env, e, old(world)).value;
                var updated := Update(env, e, uploaded);
                if left > 1 && updated.Some? then applied && world == updated.value else !applied && world == uploaded
    {
      var uploaded := Upload(env, e, world);
      if uploaded.Err? {
        world := uploaded.error;
        return false;
      }
      world := uploaded.value;
      if left == 1 {
        return false;
      }
      var updated := Update(env, e, world);
      if updated.None? {
        return false;
      }
      world := updated.value;
      applied := true;
    }

    method UpdateLoop(entries: seq<Entry>, fuel: nat) returns (finished: bool)
      requires AllPresent(env, entries)
      modifies this
      ensures (world, finished) == Migrate(env, entries, old(world), fuel)
    {
      var left := fuel;
      var i := 0;
      while i < |entries|
        invariant 0 <= i <= |entries|
        invariant AllPresent(env, entries[i..])
        invariant Migrate(env, entries[i..], world, left) == Migrate(env, entries, old(world), fuel)
      {
        assert entries[i..][0] == entries[i] && entries[i..][1..] == entries[i + 1..];
        if left == 0 {
          return false;
        }
        var applied := Apply(entries[i], left);
        if !applied {
          return false;
        }
        left := left - 2;
        i := i + 1;
      }
      assert entries[i..] == [];
      if left == 0 {
        return false;
      }
      world := SetProjects(env, world);
      if left == 1 {
        return false;
      }
      world := SetTasks(env, world);
      finished := true;
    }
  }

  lemma ListingSnoc(env: Env, uris: map<RecordId, string>, i: nat)
    requires i < |env.listing|
    ensures var longer := env.listing[..i + 1];
            longer != [] && longer[|longer| - 1] == env.listing[i] && longer[..|longer| - 1] == env.listing[..i]
  {
  }

  lemma {:induction false} ErrorStays(env: Env, uris: map<RecordId, string>, i: nat)
    requires i <= |env.listing| && Entries(env, uris, env.listing[..i]).Err?
    ensures Entries(env, uris, env.listing) == Entries(env, uris, env.listing[..i])
    decreases |env.listing| - i
  {
    if i < |env.listing| {
      ListingSnoc(env, uris, i);
      ErrorStays(env, uris, i + 1);
    } else {
      assert env.listing[..i] == env.listing;
    }
  }
}
