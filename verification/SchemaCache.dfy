/**
  The schema cache: `get_schema` answers from the cache file when it is at least as new as every service
  file and names the same services, and otherwise parses everything again.

  A call runs under the distributed lock, so edits and calls alternate. `P` is what parsing a file gives.
 */
module SchemaCache {
  import opened Common

  datatype File = File(mtime: int, text: string)

  /** The cache file: readable, or whatever a failed write left behind. */
  datatype Cache<P> = Readable(mtime: int, names: set<string>, services: map<string, P>) | Unreadable(mtime: int)

  datatype Folder<P> = Folder(files: map<string, File>, cache: Option<Cache<P>>)

  /** How writing the cache file goes: an `IOError` may leave the old file or an unreadable one. */
  datatype WriteOutcome = Written | NotWritten | Torn

  datatype Action =
    | Edit(name: string, text: string, time: int)
    | Remove(name: string, time: int)
    | GetSchema(outcome: WriteOutcome, time: int)

  function Fresh<P>(parse: string -> P, files: map<string, File>): map<string, P> {
    map name | name in files :: parse(files[name].text)
  }

  /** `mod_time(cache_path) >= max(map(mod_time, services))`; an empty folder raises and counts as false. */
  predicate UpToDate<P>(folder: Folder<P>) {
    && folder.cache.Some?
    && folder.files != map[]
    && forall name :: name in folder.files ==> folder.files[name].mtime <= folder.cache.value.mtime
  }

  predicate Usable<P>(folder: Folder<P>) {
    UpToDate(folder) && folder.cache.value.Readable? && folder.cache.value.names == folder.files.Keys
  }

  /** `get_schema`: the folder afterwards and the services returned. */
  function Get<P>(parse: string -> P, folder: Folder<P>, outcome: WriteOutcome, time: int): (Folder<P>, map<string, P>) {
    if Usable(folder) then (folder, folder.cache.value.services)
    else
      var services := Fresh(parse, folder.files);
      var cache := match outcome
        case Written => Some(Readable(time, folder.files.Keys, services))
        case NotWritten => folder.cache
        case Torn => Some(Unreadable(time));
      (folder.(cache := cache), services)
  }

  function Act<P>(parse: string -> P, folder: Folder<P>, action: Action): Folder<P> {
    match action
    case Edit(name, text, time) => folder.(files := folder.files[name := File(time, text)])
    case Remove(name, _) => folder.(files := folder.files - {name})
    case GetSchema(outcome, time) => Get(parse, folder, outcome, time).0
  }

  function After<P>(parse: string -> P, folder: Folder<P>, actions: seq<Action>): Folder<P> {
    if actions == [] then folder
    else Act(parse, After(parse, folder, actions[..|actions| - 1]), actions[|actions| - 1])
  }

  /**
    A call in its own words. The cache answers, and nothing is written, when it is readable, names the files there are,
    of which there is one at least, and none is newer; otherwise each file is parsed and the cache written.
   */
  ghost predicate Answers<P>(
    parse: string -> P, folder: Folder<P>, outcome: WriteOutcome, time: int, after: Folder<P>, services: map<string, P>)
  {
    && after.files == folder.files
    && if folder.cache.Some? && folder.cache.value.Readable? && folder.cache.value.names == folder.files.Keys
          && (exists name :: name in folder.files)
          && (forall name :: name in folder.files ==> !(folder.files[name].mtime > folder.cache.value.mtime))
       then after.cache == folder.cache && services == folder.cache.value.services
       else
         && services.Keys == folder.files.Keys
         && (forall name :: name in services ==> services[name] == parse(folder.files[name].text))
         && (outcome.NotWritten? ==> after.cache == folder.cache)
         && (outcome.Torn? ==> after.cache == Some(Unreadable(time)))
         && (outcome.Written? ==> after.cache == Some(Readable(time, folder.files.Keys, services)))
  }

  /** So a call right after one that wrote the cache, over files not newer than that, reads it and writes nothing. */
  lemma SecondCallReads<P>(parse: string -> P, folder: Folder<P>, t: int, outcome: WriteOutcome, time: int)
    requires folder.files != map[] && forall name :: name in folder.files ==> folder.files[name].mtime <= t
    requires folder.cache.None?
    ensures var (cached, services) := Get(parse, folder, Written, t);
            Get(parse, cached, outcome, time) == (cached, services) && Answers(parse, folder, Written, t, cached, services)
  {
    assert exists name :: name in folder.files;
  }

  class Reader<P> {
    const parse: string -> P
    var folder: Folder<P>

    constructor (parse: string -> P, folder: Folder<P>)
      ensures this.parse == parse && this.folder == folder
    {
      this.parse := parse;
      this.folder := folder;
    }

    method GetSchema(outcome: WriteOutcome, time: int) returns (services: map<string, P>)
      modifies this
      ensures (folder, services) == Get(parse, old(folder), outcome, time)
      ensures Answers(parse, old(folder), outcome, time, folder, services)
    {
      var current := folder.files.Keys;
      if folder.cache.Some? && folder.files != map[] {
        var cache := folder.cache.value;
        if forall name | name in folder.files :: folder.files[name].mtime <= cache.mtime {
          if cache.Readable? && cache.names == current {
            return cache.services;
          }
        }
      }
      services := Fresh(parse, folder.files);
      match outcome {
        case Written => folder := folder.(cache := Some(Readable(time, current, services)));
        case NotWritten =>
        case Torn => folder := folder.(cache := Some(Unreadable(time)));
      }
    }
  }

  // ---- Histories ----

  /** A file not newer than the cache was cached with its present text, if it was cached at all. */
  ghost predicate CacheTrue<P>(parse: string -> P, folder: Folder<P>) {
    folder.cache.Some? && folder.cache.value.Readable? ==>
      && folder.cache.value.services.Keys == folder.cache.value.names
      && forall name ::
           (name in folder.files && name in folder.cache.value.names
            && folder.files[name].mtime <= folder.cache.value.mtime) ==>
             folder.cache.value.services[name] == parse(folder.files[name].text)
  }

  /** An edit leaves the file with a time later than the cache's; nothing is asked of any other action. */
  predicate Noticeable<P>(folder: Folder<P>, action: Action) {
    action.Edit? && folder.cache.Some? ==> action.time > folder.cache.value.mtime
  }

  ghost predicate Attentive<P>(parse: string -> P, start: Folder<P>, actions: seq<Action>) {
    forall i :: 0 <= i < |actions| ==> Noticeable(After(parse, start, actions[..i]), actions[i])
  }

  lemma ActKeeps<P>(parse: string -> P, folder: Folder<P>, action: Action)
    requires CacheTrue(parse, folder) && Noticeable(folder, action)
    ensures CacheTrue(parse, Act(parse, folder, action))
  {
  }

  lemma {:induction false} HistoryKeeps<P>(parse: string -> P, start: Folder<P>, actions: seq<Action>)
    requires CacheTrue(parse, start) && Attentive(parse, start, actions)
    ensures CacheTrue(parse, After(parse, start, actions))
  {
    if actions != [] {
      var n := |actions| - 1;
      forall i | 0 <= i < n ensures Noticeable(After(parse, start, actions[..n][..i]), actions[..n][i]) {
        assert actions[..n][..i] == actions[..i];
      }
      HistoryKeeps(parse, start, actions[..n]);
      ActKeeps(parse, After(parse, start, actions[..n]), actions[n]);
    }
  }

  lemma TrueIsFresh<P>(parse: string -> P, folder: Folder<P>, outcome: WriteOutcome, time: int)
    requires CacheTrue(parse, folder)
    ensures Get(parse, folder, outcome, time).1 == Fresh(parse, folder.files)
  {
    if Usable(folder) {
      assert folder.cache.value.services == Fresh(parse, folder.files);
    }
  }

  /**
    The cache is invisible. After any history of edits, removals and earlier calls, with failing cache writes
    anywhere, a call returns exactly what parsing the present files gives, if only each edit was later than the
    cache it found.
   */
  lemma AlwaysFresh<P>(parse: string -> P, start: Folder<P>, actions: seq<Action>, outcome: WriteOutcome, time: int)
    requires CacheTrue(parse, start) && Attentive(parse, start, actions)
    ensures var folder := After(parse, start, actions);
            Get(parse, folder, outcome, time).1 == Fresh(parse, folder.files)
  {
    HistoryKeeps(parse, start, actions);
    TrueIsFresh(parse, After(parse, start, actions), outcome, time);
  }

  /** Every action happens strictly later than all before it, and the folder starts without a cache. */
  ghost predicate Orderly<P>(start: Folder<P>, actions: seq<Action>) {
    && start.cache.None?
    && forall i, j :: 0 <= i < j < |actions| ==> actions[i].time < actions[j].time
  }

  lemma {:induction false} CacheIsOlder<P>(parse: string -> P, start: Folder<P>, actions: seq<Action>, next: int)
    requires Orderly(start, actions)
    requires forall i :: 0 <= i < |actions| ==> actions[i].time < next
    ensures var cache := After(parse, start, actions).cache;
            cache.Some? ==> cache.value.mtime < next
  {
    if actions != [] {
      CacheIsOlder(parse, start, actions[..|actions| - 1], next);
    }
  }

  /** On a clock that moves on with every action all edits are noticeable. */
  lemma OrderlyIsAttentive<P>(parse: string -> P, start: Folder<P>, actions: seq<Action>)
    requires Orderly(start, actions)
    ensures CacheTrue(parse, start) && Attentive(parse, start, actions)
  {
    forall i | 0 <= i < |actions| ensures Noticeable(After(parse, start, actions[..i]), actions[i]) {
      CacheIsOlder(parse, start, actions[..i], actions[i].time);
    }
  }

  // ---- Edits that are not later ----

  /** The edit leaves the folder looking no newer than its cache, with the same files. */
  predicate Hidden<P>(folder: Folder<P>, name: string, time: int) {
    && folder.cache.Some? && folder.cache.value.Readable?
    && time <= folder.cache.value.mtime
    && folder.cache.value.names == folder.files.Keys + {name}
    && forall other :: other in folder.files && other != name ==> folder.files[other].mtime <= folder.cache.value.mtime
  }

  /** An edit at any time is seen by the next call exactly when it is not hidden, or parses to what was cached. */
  lemma EditSeenIff<P>(
    parse: string -> P, folder: Folder<P>, name: string, text: string, u: int, outcome: WriteOutcome, time: int)
    requires CacheTrue(parse, folder)
    ensures var after := Act(parse, folder, Edit(name, text, u));
            Get(parse, after, outcome, time).1 == Fresh(parse, after.files)
            <==> (Hidden(folder, name, u) ==> parse(text) == folder.cache.value.services[name])
  {
    var after := Act(parse, folder, Edit(name, text, u));
    assert after.files.Keys == folder.files.Keys + {name} && after.files[name] == File(u, text);
    assert Usable(after) <==> Hidden(folder, name, u);
    if Usable(after) {
      var services := after.cache.value.services;
      assert Fresh(parse, after.files)[name] == parse(text);
      if parse(text) == services[name] {
        assert services == Fresh(parse, after.files);
      }
    }
  }

  /**
    The same after any attentive history whose last call wrote the cache at `t`, over files not newer than that: an
    edit of a known file is seen exactly when its time is later than `t` or the text still parses the same.
   */
  lemma EditAfterCallSeenIff<P>(
    parse: string -> P, start: Folder<P>, actions: seq<Action>, t: int, name: string, text: string, u: int,
    outcome: WriteOutcome, time: int)
    requires CacheTrue(parse, start) && Attentive(parse, start, actions)
    requires var folder := After(parse, start, actions);
             && !Usable(folder) && name in folder.files
             && forall other :: other in folder.files ==> folder.files[other].mtime <= t
    ensures var folder := After(parse, start, actions);
            var after := After(parse, start, actions + [GetSchema(Written, t), Edit(name, text, u)]);
            Get(parse, after, outcome, time).1 == Fresh(parse, after.files)
            <==> u > t || parse(text) == parse(folder.files[name].text)
  {
    var folder := After(parse, start, actions);
    var get, edit := GetSchema(Written, t), Edit(name, text, u);
    assert (actions + [get, edit])[..|actions| + 1] == actions + [get];
    assert (actions + [get])[..|actions|] == actions;
    var cached := After(parse, start, actions + [get]);
    assert cached == Act(parse, folder, get);
    HistoryKeeps(parse, start, actions);
    ActKeeps(parse, folder, get);
    assert folder.files.Keys + {name} == folder.files.Keys;
    EditSeenIff(parse, cached, name, text, u, outcome, time);
  }

  /** The files as they were when the cache was last written. */
  ghost function Cached<P>(parse: string -> P, start: Folder<P>, actions: seq<Action>): map<string, File> {
    if actions == [] then map[]
    else
      var n := |actions| - 1;
      var before := After(parse, start, actions[..n]);
      if actions[n].GetSchema? && actions[n].outcome.Written? && !Usable(before) then before.files
      else Cached(parse, start, actions[..n])
  }

  lemma {:induction false} CacheIsSnapshot<P>(parse: string -> P, start: Folder<P>, actions: seq<Action>)
    requires start.cache.None?
    ensures var cache, snapshot := After(parse, start, actions).cache, Cached(parse, start, actions);
            cache.Some? && cache.value.Readable? ==>
              cache.value.names == snapshot.Keys && cache.value.services == Fresh(parse, snapshot)
  {
    if actions != [] {
      CacheIsSnapshot(parse, start, actions[..|actions| - 1]);
    }
  }

  /**
    Over all histories, with edits at any times at all: a call is wrong exactly when it answers from the cache and
    some file's present text parses differently from the text it had when the cache was written.
   */
  lemma FreshIff<P>(parse: string -> P, start: Folder<P>, actions: seq<Action>, outcome: WriteOutcome, time: int)
    requires start.cache.None?
    ensures var folder, snapshot := After(parse, start, actions), Cached(parse, start, actions);
            Get(parse, folder, outcome, time).1 == Fresh(parse, folder.files)
            <==> (Usable(folder) ==> forall name :: name in folder.files ==>
                    name in snapshot && parse(folder.files[name].text) == parse(snapshot[name].text))
  {
    CacheIsSnapshot(parse, start, actions);
    var folder, snapshot := After(parse, start, actions), Cached(parse, start, actions);
    if Usable(folder) {
      assert folder.files.Keys == snapshot.Keys;
      if folder.cache.value.services == Fresh(parse, folder.files) {
        forall name | name in folder.files ensures parse(folder.files[name].text) == parse(snapshot[name].text) {
          assert Fresh(parse, folder.files)[name] == Fresh(parse, snapshot)[name];
        }
      }
    }
  }

  /** In particular an edit in the clock tick of the cache write, or one that keeps an older time, is not seen. */
  lemma OldTimeIsStale<P>(parse: string -> P, name: string, text: string, text': string, t: int, u: int)
    requires parse(text) != parse(text') && u <= t
    ensures var start: Folder<P> := Folder(map[name := File(t - 1, text)], None);
            var folder := After(parse, start, [GetSchema(Written, t), Edit(name, text', u)]);
            Get(parse, folder, Written, t + 1).1 != Fresh(parse, folder.files)
  {
    var start: Folder<P> := Folder(map[name := File(t - 1, text)], None);
    assert [] + [GetSchema(Written, t), Edit(name, text', u)] == [GetSchema(Written, t), Edit(name, text', u)];
    assert After(parse, start, []) == start;
    EditAfterCallSeenIff(parse, start, [], t, name, text', u, Written, t + 1);
  }
}
