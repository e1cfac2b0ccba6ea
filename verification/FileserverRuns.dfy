/**
  Whole runs of the deletion loop over the fileserver: what has gone when the loop stops, and for whose records.

  The loop serves the other storage types too; their clients do not touch the fileserver's files.
 */
module FileserverRuns {
  import opened Common
  import opened UrlDeletion
  import opened UrlDeletionLaws
  import opened UrlDeletionRuns
  import opened FileserverJob
  import Files = BatchDelete

  /** The calls of the storage leave the files alone. */
  ghost predicate Spares(st: Storage<Site>) {
    && (forall site, base :: st.connect(site, base).0.disk.tree == site.disk.tree)
    && (forall site, base, paths :: st.deleteMany(site, base, paths).0.disk.tree == site.disk.tree)
  }

  /** Each company has its configuration of the one fileserver. */
  ghost predicate Serves(storageFor: (StorageType, string) -> Storage<Site>, setupFor: string -> Setup) {
    && (forall c :: IsFileserver(storageFor(Fileserver, c), setupFor(c)))
    && (forall t, c :: t != Fileserver ==> Spares(storageFor(t, c)))
  }

  ghost predicate SoundForAll(setupFor: string -> Setup, site: Site) {
    forall c :: Sound(setupFor(c), site)
  }

  function FileFor(setupFor: string -> Setup, r: Record): Option<Files.Path> {
    FileOf(setupFor(r.company), r.url)
  }

  predicate Holds(setupFor: string -> Setup, r: Record, p: Files.Path) {
    HoldsFile(setupFor(r.company), r.url, p)
  }

  /** The record names a file, and that is absent with everything below it. */
  ghost predicate FileGone(setupFor: string -> Setup, r: Record, tree: Files.Tree) {
    FileFor(setupFor, r).Some? && forall p :: p in tree ==> !Holds(setupFor, r, p)
  }

  /** The turn works on the record. */
  ghost predicate Chosen(cfg: Config, storageFor: (StorageType, string) -> Storage<Site>, s: State<Site>, s': State<Site>, id: Id) {
    exists t, c, batch :: Works(cfg, storageFor(t, c), t, c, batch, s, s') && id in batch && id in s.store
  }

  // ---- One turn ----

  /** What a turn does to the files. */
  ghost predicate TurnKeeps(
    cfg: Config, storageFor: (StorageType, string) -> Storage<Site>, setupFor: string -> Setup, s: State<Site>, s': State<Site>)
  {
    && SoundForAll(setupFor, s'.world)
    && Files.Shrunk(s.world.disk.tree, s'.world.disk.tree)
    && (forall id :: id in s.store && id !in s'.store && s.store[id].storageType == Fileserver ==>
         FileGone(setupFor, s.store[id], s'.world.disk.tree))
    && (forall p :: p in s.world.disk.tree && p !in s'.world.disk.tree ==>
         exists id :: Chosen(cfg, storageFor, s, s', id) && Holds(setupFor, s.store[id], p))
  }

  lemma FileserverTurn(
    cfg: Config, storageFor: (StorageType, string) -> Storage<Site>, setupFor: string -> Setup, c: string, batch: seq<Id>,
    s: State<Site>, s': State<Site>)
    requires Serves(storageFor, setupFor) && SoundForAll(setupFor, s.world)
    requires Works(cfg, storageFor(Fileserver, c), Fileserver, c, batch, s, s')
    ensures TurnKeeps(cfg, storageFor, setupFor, s, s')
  {
    var st, setup := storageFor(Fileserver, c), setupFor(c);
    var start := s.(ticks := s.ticks + 1);
    assert Sound(setup, start.world);
    OnlySelectedFilesGo(cfg, st, setup, batch, start);
    forall id | id in s.store && id !in s'.store ensures FileGone(setupFor, s.store[id], s'.world.disk.tree) {
      RemovedIsAbsent(cfg, st, setup, batch, start, id);
      assert s.store[id].company == c;
    }
    forall p | p in s.world.disk.tree && p !in s'.world.disk.tree
      ensures exists id :: Chosen(cfg, storageFor, s, s', id) && Holds(setupFor, s.store[id], p)
    {
      var id :| id in batch && HoldsFile(setup, start.store[id].url, p);
      assert Chosen(cfg, storageFor, s, s', id) && Holds(setupFor, s.store[id], p);
    }
    forall c' ensures Sound(setupFor(c'), s'.world) {
      assert Sound(setupFor(c'), s.world);
    }
  }

  lemma {:induction false} SparedLog(st: Storage<Site>, items: set<Item>, events: seq<Event<Site>>, first: Site, last: Site)
    requires Spares(st) && Linked(events, first, last) && AllGenuine(st, items, events)
    ensures last.disk.tree == first.disk.tree
  {
    if events != [] {
      TailGenuine(st, items, events);
      SparedLog(st, items, events[1..], events[0].after, last);
    }
  }

  lemma OtherTurn(
    cfg: Config, storageFor: (StorageType, string) -> Storage<Site>, setupFor: string -> Setup, t: StorageType, c: string,
    batch: seq<Id>, s: State<Site>, s': State<Site>)
    requires Serves(storageFor, setupFor) && SoundForAll(setupFor, s.world) && t != Fileserver
    requires Works(cfg, storageFor(t, c), t, c, batch, s, s')
    ensures TurnKeeps(cfg, storageFor, setupFor, s, s')
  {
    var st := storageFor(t, c);
    var start := s.(ticks := s.ticks + 1);
    BatchEvolves(cfg, st, batch, start);
    SparedLog(st, Loaded(st, start.store, batch), News(start, s'), start.world, s'.world);
    OthersUntouched(cfg, st, batch, start);
    forall c' ensures Sound(setupFor(c'), s'.world) {
      assert Sound(setupFor(c'), s.world);
    }
  }

  lemma Turn(
    cfg: Config, storageFor: (StorageType, string) -> Storage<Site>, setupFor: string -> Setup, s: State<Site>, s': State<Site>)
    requires Serves(storageFor, setupFor) && SoundForAll(setupFor, s.world)
    requires Idle(cfg, s, s') || WorkingTurn(cfg, storageFor, s, s')
    ensures TurnKeeps(cfg, storageFor, setupFor, s, s')
  {
    if WorkingTurn(cfg, storageFor, s, s') {
      var t, c, batch :| Works(cfg, storageFor(t, c), t, c, batch, s, s');
      if t == Fileserver {
        FileserverTurn(cfg, storageFor, setupFor, c, batch, s, s');
      } else {
        OtherTurn(cfg, storageFor, setupFor, t, c, batch, s, s');
      }
    }
  }

  // ---- Runs ----

  lemma {:induction false} RunShrinks(
    cfg: Config, storageFor: (StorageType, string) -> Storage<Site>, setupFor: string -> Setup, states: seq<State<Site>>)
    requires IsRun(cfg, storageFor, states) && Serves(storageFor, setupFor) && SoundForAll(setupFor, states[0].world)
    ensures Files.Shrunk(states[0].world.disk.tree, states[|states| - 1].world.disk.tree)
  {
    if |states| > 1 {
      RunTail(cfg, storageFor, states);
      Turn(cfg, storageFor, setupFor, states[0], states[1]);
      RunShrinks(cfg, storageFor, setupFor, states[1..]);
    }
  }

  lemma StaysGone(setupFor: string -> Setup, r: Record, tree: Files.Tree, tree': Files.Tree)
    requires FileGone(setupFor, r, tree) && Files.Shrunk(tree, tree')
    ensures FileGone(setupFor, r, tree')
  {
  }

  /** What the first turn of a run does to a fileserver record. */
  lemma FirstTurn(
    cfg: Config, storageFor: (StorageType, string) -> Storage<Site>, setupFor: string -> Setup, states: seq<State<Site>>, id: Id)
    requires IsRun(cfg, storageFor, states) && Serves(storageFor, setupFor) && SoundForAll(setupFor, states[0].world)
    requires |states| > 1 && id in states[0].store && states[0].store[id].storageType == Fileserver
    ensures IsRun(cfg, storageFor, states[1..]) && SoundForAll(setupFor, states[1].world)
    ensures if id in states[1].store then SameFileserverRecord(states[0].store[id], states[1].store[id])
            else FileGone(setupFor, states[0].store[id], states[1].world.disk.tree)
  {
    RunTail(cfg, storageFor, states);
    Turn(cfg, storageFor, setupFor, states[0], states[1]);
    TurnOnward(cfg, storageFor, states[0], states[1]);
  }

  predicate SameFileserverRecord(r: Record, r': Record) {
    r'.company == r.company && r'.url == r.url && r'.storageType == r.storageType == Fileserver
  }

  lemma GoneInFirstTurn(
    cfg: Config, storageFor: (StorageType, string) -> Storage<Site>, setupFor: string -> Setup, states: seq<State<Site>>, r: Record)
    requires |states| > 1 && IsRun(cfg, storageFor, states[1..]) && Serves(storageFor, setupFor)
    requires SoundForAll(setupFor, states[1].world) && FileGone(setupFor, r, states[1].world.disk.tree)
    ensures FileGone(setupFor, r, states[|states| - 1].world.disk.tree)
  {
    RunShrinks(cfg, storageFor, setupFor, states[1..]);
    StaysGone(setupFor, r, states[1].world.disk.tree, states[|states| - 1].world.disk.tree);
  }

  /** Whatever fileserver record the run removed, its file is absent when the run ends. */
  lemma {:induction false} RemovedStaysGone(
    cfg: Config, storageFor: (StorageType, string) -> Storage<Site>, setupFor: string -> Setup, states: seq<State<Site>>, id: Id)
    requires IsRun(cfg, storageFor, states) && Serves(storageFor, setupFor) && SoundForAll(setupFor, states[0].world)
    requires id in states[0].store && states[0].store[id].storageType == Fileserver
    requires id !in states[|states| - 1].store
    ensures FileGone(setupFor, states[0].store[id], states[|states| - 1].world.disk.tree)
  {
    FirstTurn(cfg, storageFor, setupFor, states, id);
    if id in states[1].store {
      RemovedStaysGone(cfg, storageFor, setupFor, states[1..], id);
      SameFile(setupFor, states[0].store[id], states[1].store[id], states[|states| - 1].world.disk.tree);
    } else {
      GoneInFirstTurn(cfg, storageFor, setupFor, states, states[0].store[id]);
    }
  }

  lemma SameFile(setupFor: string -> Setup, r: Record, r': Record, tree: Files.Tree)
    requires r'.company == r.company && r'.url == r.url
    ensures FileGone(setupFor, r', tree) == FileGone(setupFor, r, tree)
    ensures forall p :: Holds(setupFor, r', p) == Holds(setupFor, r, p)
  {
    assert FileFor(setupFor, r') == FileFor(setupFor, r);
    assert forall p :: Holds(setupFor, r', p) == Holds(setupFor, r, p);
  }

  /** Every entry that went during the run went in a turn that worked on a record at or above it. */
  lemma {:induction false} GoneWasChosen(
    cfg: Config, storageFor: (StorageType, string) -> Storage<Site>, setupFor: string -> Setup, states: seq<State<Site>>,
    p: Files.Path) returns (i: nat, id: Id)
    requires IsRun(cfg, storageFor, states) && Serves(storageFor, setupFor) && SoundForAll(setupFor, states[0].world)
    requires p in states[0].world.disk.tree && p !in states[|states| - 1].world.disk.tree
    ensures i + 1 < |states| && Chosen(cfg, storageFor, states[i], states[i + 1], id)
    ensures id in states[0].store && Holds(setupFor, states[0].store[id], p)
  {
    RunTail(cfg, storageFor, states);
    Turn(cfg, storageFor, setupFor, states[0], states[1]);
    if p in states[1].world.disk.tree {
      TurnOnward(cfg, storageFor, states[0], states[1]);
      i, id := GoneWasChosen(cfg, storageFor, setupFor, states[1..], p);
      SameFile(setupFor, states[0].store[id], states[1].store[id], states[0].world.disk.tree);
      i := i + 1;
    } else {
      id :| Chosen(cfg, storageFor, states[0], states[1], id) && Holds(setupFor, states[0].store[id], p);
      i := 0;
    }
  }

  /**
    What a whole run achieves on the fileserver, through lost requests, lost replies and file system errors. If it
    starts with no record out of retries but not failed and its last turn is idle although all timeouts are over, every
    fileserver record has failed for good, or its deletion was reported and its file is gone with everything below it.
   */
  lemma RunDeletesFiles(
    cfg: Config, storageFor: (StorageType, string) -> Storage<Site>, setupFor: string -> Setup, states: seq<State<Site>>, id: Id)
    requires IsRun(cfg, storageFor, states) && |states| > 1
    requires Serves(storageFor, setupFor) && SoundForAll(setupFor, states[0].world)
    requires forall x :: x in states[0].store ==> Bounded(cfg, states[0].store[x])
    requires Idle(cfg, states[|states| - 2], states[|states| - 1]) && TimeoutsOver(cfg, states[|states| - 2])
    requires id in states[0].store && states[0].store[id].storageType == Fileserver
    ensures var last := states[|states| - 1];
            && states[0].log <= last.log
            && if id in last.store then last.store[id].status == Failed
               else Reported(News(states[0], last), id) && FileGone(setupFor, states[0].store[id], last.world.disk.tree)
  {
    RunDrains(cfg, storageFor, states, id);
    if id !in states[|states| - 1].store {
      RemovedStaysGone(cfg, storageFor, setupFor, states, id);
    }
  }
}
