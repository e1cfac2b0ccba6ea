/**
  What the byte check of the migration achieves: the bytes under the new URIs.

  The check is made after an upload. An object that is already there is taken on its length and metadata, and it may be
  the one that failed the check in the run before.
 */
module MigrationBytes {
  import opened Common
  import opened Uris
  import opened Migration
  import opened MigrationLaws

  /** The upload is skipped for an object that has the wrong bytes. */
  predicate Mistaken(env: Env, w: World, e: Entry)
    requires e.path in env.files
  {
    && e.key in w.objects
    && w.objects[e.key].length == |env.files[e.path]|
    && w.objects[e.key].sha == env.digest(env.files[e.path])
    && env.digest(w.objects[e.key].body) != env.digest(env.files[e.path])
  }

  /** The object under the entry's key passes the byte check. */
  predicate HasBytes(env: Env, w: World, e: Entry)
    requires e.path in env.files
  {
    && e.key in w.objects
    && w.objects[e.key].length == |env.files[e.path]|
    && w.objects[e.key].sha == env.digest(env.files[e.path])
    && env.digest(w.objects[e.key].body) == env.digest(env.files[e.path])
  }

  ghost predicate SameObject(w: World, w': World, key: string) {
    (key in w.objects <==> key in w'.objects) && (key in w.objects ==> w'.objects[key] == w.objects[key])
  }

  ghost predicate KeysDiffer(entries: seq<Entry>) {
    forall i, j :: 0 <= i < j < |entries| ==> entries[i].key != entries[j].key
  }

  // ---- One entry ----

  /** When an upload does not raise, the object has the bytes unless it was mistaken for them. */
  lemma UploadVerifiedIff(env: Env, e: Entry, w: World)
    requires e.path in env.files && Upload(env, e, w).Ok?
    ensures HasBytes(env, Upload(env, e, w).value, e) <==> !Mistaken(env, w, e)
  {
  }

  /** An upload that writes nothing found the file's length and digest under its key, and no other upload does. */
  lemma UploadSkipsIff(env: Env, e: Entry, w: World)
    requires e.path in env.files
    ensures Upload(env, e, w) == Ok(w) <==>
              && e.key in w.objects
              && w.objects[e.key].length == |env.files[e.path]|
              && w.objects[e.key].sha == env.digest(env.files[e.path])
    ensures Upload(env, e, w) != Ok(w) ==>
              var blob := env.store(w.uploads, e.key, env.files[e.path]);
              var w' := w.(objects := w.objects[e.key := blob], uploads := w.uploads + 1);
              Upload(env, e, w) == if blob.length == |env.files[e.path]| && blob.sha == env.digest(env.files[e.path])
                                      && env.digest(blob.body) == env.digest(env.files[e.path])
                                   then Ok(w') else Err(w')
  {
    assert forall w' :: Upload(env, e, w) == Ok(w') && w'.uploads == w.uploads ==> w' == w;
  }

  /** After any killed runs the object of each moved record has the length and the `sha256` metadata of its file. */
  lemma MovedHasMetadata(env: Env, w0: World, fuels: seq<nat>, r: RecordId)
    requires Ready(env) && KeysDistinct(env, w0) && r in w0.uris
    ensures var w := Runs(env, w0, fuels);
            && r in w.uris
            && (w.uris[r] != w0.uris[r] ==>
                 && Listable(env, w0, r)
                 && var key, path := Original(env, w0, r).key, Original(env, w0, r).path;
                    && path in env.files && key in w.objects
                    && w.objects[key].length == |env.files[path]|
                    && w.objects[key].sha == env.digest(env.files[path]))
  {
    CrashSafe(env, w0, fuels);
    assert RecordSafe(env, w0, Runs(env, w0, fuels), r);
  }

  // ---- The update loop ----

  lemma UploadKeeps(env: Env, e: Entry, w: World, key: string)
    requires e.path in env.files && e.key != key
    ensures var r := Upload(env, e, w);
            SameObject(w, if r.Ok? then r.value else r.error, key)
  {
  }

  lemma {:induction false} LoopKeeps(env: Env, entries: seq<Entry>, w: World, fuel: nat, key: string)
    requires AllPresent(env, entries) && forall e :: e in entries ==> e.key != key
    ensures SameObject(w, Migrate(env, entries, w, fuel).0, key)
  {
    if entries != [] && fuel > 0 {
      assert entries[0] in entries;
      UploadKeeps(env, entries[0], w, key);
      if Upload(env, entries[0], w).Ok? && fuel > 1 {
        var step := Update(env, entries[0], Upload(env, entries[0], w).value);
        if step.Some? {
          LoopKeeps(env, entries[1..], step.value, fuel - 2, key);
        }
      }
    }
  }

  /** Only records with an entry are moved. */
  lemma {:induction false} LoopMoves(env: Env, entries: seq<Entry>, w: World, fuel: nat, r: RecordId)
    requires AllPresent(env, entries) && r in w.uris
    ensures var w' := Migrate(env, entries, w, fuel).0;
            r in w'.uris && (w'.uris[r] != w.uris[r] ==> Recorded(entries, r))
  {
    if entries != [] {
      StepMoves(env, entries[0], w, r);
      RecordedCons(entries, r);
      if fuel > 1 && Upload(env, entries[0], w).Ok? {
        var step := Update(env, entries[0], Upload(env, entries[0], w).value);
        if step.Some? {
          LoopMoves(env, entries[1..], step.value, fuel - 2, r);
        }
      }
    }
  }

  lemma StepMoves(env: Env, e: Entry, w: World, r: RecordId)
    requires e.path in env.files && r in w.uris
    ensures var outcome := Upload(env, e, w);
            && (if outcome.Ok? then outcome.value else outcome.error).uris == w.uris
            && (outcome.Ok? && Update(env, e, outcome.value).Some? ==>
                 var w2 := Update(env, e, outcome.value).value;
                 r in w2.uris && (w2.uris[r] != w.uris[r] ==> r == e.record))
  {
    UploadShape(env, e, w);
  }

  /** A loop that moves a record gets past its first entry. */
  lemma LoopGoesOn(env: Env, entries: seq<Entry>, w: World, fuel: nat, r: RecordId)
    requires AllPresent(env, entries) && entries != [] && r in w.uris
    requires r in Migrate(env, entries, w, fuel).0.uris && Migrate(env, entries, w, fuel).0.uris[r] != w.uris[r]
    ensures fuel >= 2 && Upload(env, entries[0], w).Ok?
    ensures Update(env, entries[0], Upload(env, entries[0], w).value).Some?
    ensures Migrate(env, entries, w, fuel)
         == Migrate(env, entries[1..], Update(env, entries[0], Upload(env, entries[0], w).value).value, fuel - 2)
  {
    UploadShape(env, entries[0], w);
  }

  lemma StepKeeps(env: Env, e: Entry, w: World, key: string, r: RecordId)
    requires e.path in env.files && Upload(env, e, w).Ok? && Update(env, e, Upload(env, e, w).value).Some?
    requires e.key != key && e.record != r && r in w.uris
    ensures var w2 := Update(env, e, Upload(env, e, w).value).value;
            SameObject(w, w2, key) && r in w2.uris && w2.uris[r] == w.uris[r]
  {
    UploadKeeps(env, e, w, key);
    UploadShape(env, e, w);
  }

  lemma TailDiffers(entries: seq<Entry>)
    requires entries != [] && RecordsDiffer(entries) && KeysDiffer(entries)
    ensures RecordsDiffer(entries[1..]) && KeysDiffer(entries[1..])
    ensures forall e :: e in entries[1..] ==> e.record != entries[0].record && e.key != entries[0].key
  {
    assert forall i :: 0 <= i < |entries[1..]| ==> entries[1..][i] == entries[i + 1];
  }

  /** A record that the loop moves has its bytes exactly when its object was not mistaken for them before. */
  lemma {:induction false} LoopVerifiedIff(env: Env, entries: seq<Entry>, w: World, fuel: nat, e: Entry)
    requires AllPresent(env, entries) && RecordsDiffer(entries) && KeysDiffer(entries)
    requires e in entries && e.record in w.uris
    requires e.record in Migrate(env, entries, w, fuel).0.uris
    requires Migrate(env, entries, w, fuel).0.uris[e.record] != w.uris[e.record]
    ensures HasBytes(env, Migrate(env, entries, w, fuel).0, e) <==> !Mistaken(env, w, e)
  {
    LoopGoesOn(env, entries, w, fuel, e.record);
    TailDiffers(entries);
    var first, rest := entries[0], entries[1..];
    var w2 := Update(env, first, Upload(env, first, w).value).value;
    if e == first {
      FirstVerifiedIff(env, e, rest, w, fuel - 2);
    } else {
      StepKeeps(env, first, w, e.key, e.record);
      LoopVerifiedIff(env, rest, w2, fuel - 2, e);
      SameMistake(env, w, w2, e);
    }
  }

  lemma SameMistake(env: Env, w: World, w2: World, e: Entry)
    requires e.path in env.files && SameObject(w, w2, e.key)
    ensures Mistaken(env, w2, e) <==> Mistaken(env, w, e)
    ensures HasBytes(env, w2, e) <==> HasBytes(env, w, e)
  {
  }

  /** What an entry's upload left is still there when the loop stops. */
  lemma FirstVerifiedIff(env: Env, e: Entry, rest: seq<Entry>, w: World, fuel: nat)
    requires e.path in env.files && Upload(env, e, w).Ok? && Update(env, e, Upload(env, e, w).value).Some?
    requires AllPresent(env, rest) && forall other :: other in rest ==> other.key != e.key
    ensures var w' := Migrate(env, rest, Update(env, e, Upload(env, e, w).value).value, fuel).0;
            HasBytes(env, w', e) <==> !Mistaken(env, w, e)
  {
    var w1 := Upload(env, e, w).value;
    var w2 := Update(env, e, w1).value;
    UploadVerifiedIff(env, e, w);
    LoopKeeps(env, rest, w2, fuel, e.key);
    SameMistake(env, w1, w2, e);
    SameMistake(env, w2, Migrate(env, rest, w2, fuel).0, e);
  }

  // ---- One run ----

  lemma PendingKeysDiffer(env: Env, w0: World, w: World, entries: seq<Entry>)
    requires KeysDistinct(env, w0) && Pending(env, w0, w, entries)
    ensures KeysDiffer(entries)
  {
    forall i, j | 0 <= i < j < |entries| ensures entries[i].key != entries[j].key {
      assert entries[i] in entries && entries[j] in entries;
    }
  }

  /** What the run did after its manifest: its entries, or nothing. */
  lemma RunIsPending(env: Env, w0: World, w: World, fuel: nat) returns (entries: seq<Entry>, w1: World, left: nat)
    requires Ready(env) && KeysDistinct(env, w0) && Safe(env, w0, w)
    ensures w1 == w.(manifests := w1.manifests) && Pending(env, w0, w1, entries) && KeysDiffer(entries)
    ensures Run(env, w, fuel).0 == Migrate(env, entries, w1, left).0
         || Run(env, w, fuel).0 == w.(manifests := Run(env, w, fuel).0.manifests)
  {
    var listed := Entries(env, w.uris, env.listing);
    if listed.Ok? && AllPresent(env, listed.value) && fuel > 1 {
      entries, left := listed.value, fuel - 2;
      w1 := w.(manifests := w.manifests + [Lines(env, entries)]);
      RunIsLoop(env, w, entries, fuel);
      StartsPending(env, w0, w);
    } else {
      entries, w1, left := [], w, 0;
      RunStops(env, w, fuel);
    }
    PendingKeysDiffer(env, w0, w1, entries);
  }

  /** A run that does not get to its loop writes to the manifests at most. */
  lemma RunStops(env: Env, w: World, fuel: nat)
    requires var listed := Entries(env, w.uris, env.listing);
             !(listed.Ok? && AllPresent(env, listed.value) && fuel > 1)
    ensures Run(env, w, fuel).0 == w.(manifests := Run(env, w, fuel).0.manifests)
  {
  }

  /** A record that a run moves has its bytes exactly when, before the run, its object was not mistaken for them. */
  lemma RunVerifiedIff(env: Env, w0: World, w: World, fuel: nat, r: RecordId)
    requires Ready(env) && KeysDistinct(env, w0) && Safe(env, w0, w) && r in w.uris
    requires r in Run(env, w, fuel).0.uris && Run(env, w, fuel).0.uris[r] != w.uris[r]
    ensures Listable(env, w0, r) && Original(env, w0, r).path in env.files && w.uris[r] == w0.uris[r]
    ensures HasBytes(env, Run(env, w, fuel).0, Original(env, w0, r)) <==> !Mistaken(env, w, Original(env, w0, r))
  {
    var entries, w1, left := RunIsPending(env, w0, w, fuel);
    LoopMoves(env, entries, w1, left, r);
    var e :| e in entries && e.record == r;
    LoopVerifiedIff(env, entries, w1, left, e);
  }

  /** A moved record and its object are left alone by later runs. */
  lemma MovedStays(env: Env, w0: World, w: World, fuel: nat, r: RecordId)
    requires Ready(env) && KeysDistinct(env, w0) && Safe(env, w0, w) && r in w.uris
    requires r in w0.uris && w.uris[r] != w0.uris[r]
    ensures var w' := Run(env, w, fuel).0;
            && r in w'.uris && w'.uris[r] == w.uris[r]
            && Listable(env, w0, r) && SameObject(w, w', Original(env, w0, r).key)
  {
    assert RecordSafe(env, w0, w, r);
    var key := Original(env, w0, r).key;
    var entries, w1, left := RunIsPending(env, w0, w, fuel);
    forall e | e in entries ensures e.record != r && e.key != key {
      assert e == Original(env, w0, e.record);
    }
    LoopMoves(env, entries, w1, left, r);
    LoopKeeps(env, entries, w1, left, key);
  }

  // ---- Any number of killed runs ----

  lemma RunsSnoc(env: Env, w0: World, fuels: seq<nat>, i: nat)
    requires fuels != [] && i < |fuels|
    ensures Runs(env, w0, fuels) == Run(env, Runs(env, w0, fuels[..|fuels| - 1]), fuels[|fuels| - 1]).0
    ensures fuels[..|fuels| - 1][..i] == fuels[..i]
  {
  }

  /** The record has its first URI before the run and its new one after it. */
  ghost predicate MovedBy(env: Env, w0: World, fuels: seq<nat>, i: nat, r: RecordId)
    requires i < |fuels| && r in w0.uris
  {
    var before, after := Runs(env, w0, fuels[..i]), Runs(env, w0, fuels[..i + 1]);
    && r in before.uris && before.uris[r] == w0.uris[r]
    && r in after.uris && after.uris[r] != w0.uris[r]
  }

  /**
    A record that has moved after any number of runs, each killed anywhere, was moved by one of them, and the object it
    points to has its bytes exactly when that run did not find one with the right length and metadata but other bytes.
   */
  lemma {:induction false} MovedVerifiedIff(env: Env, w0: World, fuels: seq<nat>, r: RecordId) returns (i: nat)
    requires Ready(env) && KeysDistinct(env, w0)
    requires r in w0.uris && r in Runs(env, w0, fuels).uris && Runs(env, w0, fuels).uris[r] != w0.uris[r]
    ensures i < |fuels| && MovedBy(env, w0, fuels, i, r)
    ensures Listable(env, w0, r) && Original(env, w0, r).path in env.files
    ensures HasBytes(env, Runs(env, w0, fuels), Original(env, w0, r))
       <==> !Mistaken(env, Runs(env, w0, fuels[..i]), Original(env, w0, r))
  {
    var n := |fuels| - 1;
    var w := Runs(env, w0, fuels[..n]);
    CrashSafe(env, w0, fuels[..n]);
    assert fuels[..n + 1] == fuels;
    if w.uris[r] != w0.uris[r] {
      i := MovedVerifiedIff(env, w0, fuels[..n], r);
      RunsSnoc(env, w0, fuels, i);
      RunsSnoc(env, w0, fuels, i + 1);
      MovedStays(env, w0, w, fuels[n], r);
    } else {
      i := n;
      RunVerifiedIff(env, w0, w, fuels[n], r);
    }
  }

  // ---- When every moved record has its bytes ----

  /** Whatever the store makes of an upload, if length and metadata are right so are the bytes. */
  ghost predicate Honest(env: Env) {
    forall n, key, content ::
      var blob := env.store(n, key, content);
      blob.length == |content| && blob.sha == env.digest(content) ==> env.digest(blob.body) == env.digest(content)
  }

  /** No object under the key of a record to be moved is mistaken for its file. */
  ghost predicate NoneMistaken(env: Env, w0: World, w: World) {
    forall r :: Listable(env, w0, r) && Original(env, w0, r).path in env.files ==> !Mistaken(env, w, Original(env, w0, r))
  }

  lemma UploadHonest(env: Env, w0: World, w: World, e: Entry)
    requires KeysDistinct(env, w0) && Honest(env) && NoneMistaken(env, w0, w)
    requires Listable(env, w0, e.record) && e == Original(env, w0, e.record) && e.path in env.files
    ensures var r := Upload(env, e, w);
            NoneMistaken(env, w0, if r.Ok? then r.value else r.error)
  {
    var outcome := Upload(env, e, w);
    var w' := if outcome.Ok? then outcome.value else outcome.error;
    forall r | Listable(env, w0, r) && Original(env, w0, r).path in env.files
      ensures !Mistaken(env, w', Original(env, w0, r))
    {
      if r != e.record {
        UploadKeeps(env, e, w, Original(env, w0, r).key);
      }
    }
  }

  ghost predicate Originals(env: Env, w0: World, entries: seq<Entry>) {
    forall e :: e in entries ==> Listable(env, w0, e.record) && e == Original(env, w0, e.record)
  }

  /** The world after an entry's upload, whether it raises or not. */
  function Uploaded(env: Env, e: Entry, w: World): World
    requires e.path in env.files
  {
    match Upload(env, e, w)
    case Ok(w') => w'
    case Err(w') => w'
  }

  /** What the uploads of the entries keep, and everything that leaves the objects alone. */
  ghost predicate Kept(env: Env, entries: seq<Entry>, inv: World -> bool) {
    && (forall e, w :: e in entries && e.path in env.files && inv(w) ==> inv(Uploaded(env, e, w)))
    && (forall w: World, w': World :: inv(w) && w'.objects == w.objects ==> inv(w'))
  }

  /** The update loop keeps what its uploads keep. */
  lemma {:induction false} LoopInvariant(env: Env, entries: seq<Entry>, w: World, fuel: nat, inv: World -> bool)
    requires AllPresent(env, entries) && Kept(env, entries, inv) && inv(w)
    ensures inv(Migrate(env, entries, w, fuel).0)
  {
    if entries == [] || fuel == 0 {
      assert Migrate(env, entries, w, fuel).0.objects == w.objects;
    } else {
      assert entries[0] in entries;
      var w1 := Uploaded(env, entries[0], w);
      assert inv(w1);
      if Upload(env, entries[0], w).Ok? && fuel > 1 && Update(env, entries[0], w1).Some? {
        var w2 := Update(env, entries[0], w1).value;
        assert w2.objects == w1.objects;
        LoopInvariant(env, entries[1..], w2, fuel - 2, inv);
      }
    }
  }

  lemma LoopHonest(env: Env, w0: World, entries: seq<Entry>, w: World, fuel: nat)
    requires KeysDistinct(env, w0) && Honest(env) && NoneMistaken(env, w0, w)
    requires AllPresent(env, entries) && Originals(env, w0, entries)
    ensures NoneMistaken(env, w0, Migrate(env, entries, w, fuel).0)
  {
    var inv := (w: World) => NoneMistaken(env, w0, w);
    forall e, w' | e in entries && inv(w') ensures inv(Uploaded(env, e, w')) {
      UploadHonest(env, w0, w', e);
    }
    LoopInvariant(env, entries, w, fuel, inv);
  }

  lemma {:induction false} RunsHonest(env: Env, w0: World, fuels: seq<nat>)
    requires Ready(env) && KeysDistinct(env, w0) && Honest(env) && NoneMistaken(env, w0, w0)
    ensures NoneMistaken(env, w0, Runs(env, w0, fuels))
  {
    if fuels != [] {
      var n := |fuels| - 1;
      var w := Runs(env, w0, fuels[..n]);
      RunsHonest(env, w0, fuels[..n]);
      CrashSafe(env, w0, fuels[..n]);
      var entries, w1, left := RunIsPending(env, w0, w, fuels[n]);
      LoopHonest(env, w0, entries, w1, left);
    }
  }

  /**
    If the store never pairs right metadata with wrong bytes and none such is there at the start, every record that has
    moved after any killed runs points to an object with the bytes of its file.
   */
  lemma MovedIsVerified(env: Env, w0: World, fuels: seq<nat>, r: RecordId)
    requires Ready(env) && KeysDistinct(env, w0) && Honest(env) && NoneMistaken(env, w0, w0)
    requires r in w0.uris
    ensures var w := Runs(env, w0, fuels);
            && r in w.uris
            && (w.uris[r] != w0.uris[r] ==>
                 && Listable(env, w0, r) && Original(env, w0, r).path in env.files
                 && HasBytes(env, w, Original(env, w0, r)))
  {
    CrashSafe(env, w0, fuels);
    if Runs(env, w0, fuels).uris[r] != w0.uris[r] {
      var i := MovedVerifiedIff(env, w0, fuels, r);
      RunsHonest(env, w0, fuels[..i]);
    }
  }

  // ---- When one has not ----

  lemma OneEntry(env: Env, w: World, r: RecordId)
    requires env.listing == [r] && Listable(env, w, r)
    ensures Entries(env, w.uris, env.listing) == Ok([Original(env, w, r)])
  {
    assert env.listing[..0] == [] && Entries(env, w.uris, []) == Ok([]);
    assert [] + [Original(env, w, r)] == [Original(env, w, r)];
  }

  /** What the store makes of the next upload has the right length and metadata but other bytes. */
  predicate CorruptsNext(env: Env, w: World, e: Entry)
    requires e.path in env.files
  {
    var blob, content := env.store(w.uploads, e.key, env.files[e.path]), env.files[e.path];
    blob.length == |content| && blob.sha == env.digest(content) && env.digest(blob.body) != env.digest(content)
  }

  /** One record is to be moved, nothing is under its key, and the store is about to spoil its bytes. */
  predicate SpoilsFirst(env: Env, w: World, r: RecordId) {
    && env.listing == [r] && Listable(env, w, r) && Original(env, w, r).path in env.files
    && Original(env, w, r).key !in w.objects && CorruptsNext(env, w, Original(env, w, r))
  }

  lemma FirstRunRaises(env: Env, w: World, r: RecordId)
    requires SpoilsFirst(env, w, r)
    ensures var (w1, finished) := Run(env, w, 6);
            !finished && w1.uris == w.uris && Mistaken(env, w1, Original(env, w, r))
  {
    OneEntry(env, w, r);
    RunIsLoop(env, w, [Original(env, w, r)], 6);
  }

  lemma RunThatFinds(env: Env, w: World, r: RecordId)
    requires env.listing == [r] && Listable(env, w, r) && Original(env, w, r).path in env.files
    requires Mistaken(env, w, Original(env, w, r))
    ensures var (w', finished) := Run(env, w, 6);
            finished && w'.objects == w.objects && w'.uris == w.uris[r := NewUri(env, Original(env, w, r).key)]
  {
    var e := Original(env, w, r);
    var listed := w.(manifests := w.manifests + [Lines(env, [e])]);
    OneEntry(env, w, r);
    RunIsLoop(env, w, [e], 6);
    var moved := Update(env, e, listed).value;
    assert [e][1..] == [];
    assert Migrate(env, [e], listed, 4) == Migrate(env, [], moved, 2);
  }

  /** The first run raises. The second finds the object it left, finishes, and the record points to the wrong bytes. */
  lemma SecondRunIsMistaken(env: Env, w: World, r: RecordId)
    requires SpoilsFirst(env, w, r)
    ensures var (w1, finished) := Run(env, w, 6);
            && !finished && w1.uris == w.uris
            && var (w2, finished') := Run(env, w1, 6);
               && finished' && w2.uris == w.uris[r := NewUri(env, Original(env, w, r).key)]
               && !HasBytes(env, w2, Original(env, w, r))
  {
    FirstRunRaises(env, w, r);
    RunThatFinds(env, Run(env, w, 6).0, r);
  }

  /** A store that spoils the bytes of the first upload. */
  function Spoiling(fs: Rustfs): Env {
    Env(fs, c => [32], [Model("m")], [], map[["f"] := "good"], s => s, (root, s) => ["f"], s => None, s => s,
        (n, key, content) => Object(|content|, content, if n == 0 then "evil" else content))
  }

  function OneModel(): World {
    World(map[Model("m") := "file:"], map[], [], map[], map[], 0)
  }

  lemma FileUri(fs: Rustfs)
    ensures SourcePath(Spoiling(fs), "file:") == Ok(Some(["f"]))
  {
    FileSplits();
    assert "file"[0] != "http"[0] && "file"[0] != "https"[0];
  }

  lemma FileColon()
    ensures IndexOfAny("file:", ":") == 4
  {
    IndexOfAnySkips("file", ":", ":");
    assert "file" + ":" == "file:";
  }

  lemma FileSplits()
    ensures Split("file:") == Parts("file", "", "")
  {
    var url := "file:";
    FileColon();
    assert url[..4] == "file" && url[5..] == "";
    assert Lower("file") == "file";
    assert SplitRest("") == ("", "");
  }

  /** A concrete case: one model whose file is `good`, and a store that keeps `evil` the first time. */
  lemma SpoiledModel(fs: Rustfs)
    ensures var env, w, r := Spoiling(fs), OneModel(), Model("m");
            && SpoilsFirst(env, w, r)
            && var w2 := Run(env, Run(env, w, 6).0, 6).0;
               && w2.uris == w.uris[r := NewUri(env, Original(env, w, r).key)]
               && !HasBytes(env, w2, Original(env, w, r))
  {
    SpoilsTheModel(fs);
    SecondRunIsMistaken(Spoiling(fs), OneModel(), Model("m"));
  }

  lemma SpoilsTheModel(fs: Rustfs)
    ensures SpoilsFirst(Spoiling(fs), OneModel(), Model("m"))
  {
    var env, w, r := Spoiling(fs), OneModel(), Model("m");
    FileUri(fs);
    assert env.listing == [r] && w.uris[r] == "file:";
    assert Original(env, w, r).path == ["f"] && env.files[["f"]] == "good";
    assert |"evil"| == |"good"| && "evil"[0] != "good"[0];
  }
}
