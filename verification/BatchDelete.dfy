/**
  The fileserver's `batch_delete`.

  The upload folder is a map from relative paths to what is there. Everything the handler calls and does
  not define (url decoding, path joining, authorization, the file system calls) is a parameter, and the
  file system may fail at any call: `rmtree` may even leave a part of the folder behind.
 */
module BatchDelete {
  import opened Common

  type Path = seq<string>

  datatype Kind = File | Folder | Other

  type Tree = map<Path, Kind>

  /** The files, and the number of file system calls made so far. */
  datatype Disk = Disk(tree: Tree, calls: nat)

  datatype Server = Server(
    decode: string -> string,
    locate: string -> Option<Path>,
    authorized: string -> bool,
    unlink: (nat, Path) -> Option<string>,
    rmtree: (nat, Tree, Path) -> (Tree, Option<string>))

  /** The part of the tree that is not at or below a path. */
  function Without(tree: Tree, path: Path): Tree {
    map p | p in tree && !(path <= p) :: tree[p]
  }

  ghost predicate Rooted(tree: Tree) {
    forall p :: p in tree && p != [] ==> p[..|p| - 1] in tree && tree[p[..|p| - 1]] == Folder
  }

  /** `smaller` lacks some entries of `tree`, none of them outside `path`. */
  ghost predicate PrunedBelow(tree: Tree, smaller: Tree, path: Path) {
    && smaller.Keys <= tree.Keys
    && (forall p :: p in smaller ==> smaller[p] == tree[p])
    && (forall p :: p in tree && p !in smaller ==> path <= p)
  }

  /** `rmtree` removes the whole folder or raises with a part of it gone, never touching anything else. */
  ghost predicate Lawful(server: Server) {
    forall n, tree, path :: Rooted(tree) ==>
      var (tree', failure) := server.rmtree(n, tree, path);
      && PrunedBelow(tree, tree', path)
      && Rooted(tree')
      && (failure.None? ==> tree' == Without(tree, path))
  }

  type Errors = seq<(string, seq<string>)>

  /** `deleted` and `errors` are dictionaries in insertion order; `errors` is a `defaultdict(list)`. */
  datatype Answer = Answer(deleted: seq<(string, string)>, errors: Errors)

  function Record(errors: Errors, msg: string, file: string): Errors {
    if errors == [] then [(msg, [file])]
    else if errors[0].0 == msg then [(msg, errors[0].1 + [file])] + errors[1..]
    else [errors[0]] + Record(errors[1..], msg, file)
  }

  function Deleted(answer: Answer, file: string, path: string): Answer {
    if exists entry :: entry in answer.deleted && entry.0 == file then answer
    else answer.(deleted := answer.deleted + [(file, path)])
  }

  function Failed(answer: Answer, msg: string, file: string): Answer {
    answer.(errors := Record(answer.errors, msg, file))
  }

  /** The path names nothing below the upload folder. */
  predicate OnlySlashes(path: string) {
    forall c :: c in path ==> c == '/'
  }

  /** `not path or not path.strip("/")` */
  predicate EmptyPath(path: string): (r: bool)
    ensures r <==> OnlySlashes(path)
  {
    StripsToNothing(path);
    path == "" || Strip(path, '/') == ""
  }

  lemma SlashesSplit(a: string, b: string)
    ensures OnlySlashes(a + b) <==> OnlySlashes(a) && OnlySlashes(b)
  {
    if OnlySlashes(a + b) {
      assert forall c :: c in a || c in b ==> c in a + b;
    }
  }

  lemma {:induction false} LStripsToNothing(s: string)
    ensures LStrip(s, '/') == "" <==> OnlySlashes(s)
    ensures LStrip(s, '/') != "" ==> !OnlySlashes(LStrip(s, '/'))
  {
    if s != "" && s[0] == '/' {
      LStripsToNothing(s[1..]);
      SlashesSplit([s[0]], s[1..]);
      assert s == [s[0]] + s[1..];
    } else if s != "" {
      assert s[0] in s;
    }
  }

  lemma {:induction false} RStripsToNothing(s: string)
    ensures RStrip(s, '/') == "" <==> OnlySlashes(s)
  {
    if s != "" && s[|s| - 1] == '/' {
      RStripsToNothing(s[..|s| - 1]);
      SlashesSplit(s[..|s| - 1], [s[|s| - 1]]);
      assert s == s[..|s| - 1] + [s[|s| - 1]];
    } else if s != "" {
      assert s[|s| - 1] in s;
    }
  }

  lemma StripsToNothing(s: string)
    ensures Strip(s, '/') == "" <==> OnlySlashes(s)
  {
    LStripsToNothing(s);
    RStripsToNothing(LStrip(s, '/'));
  }

  /** One turn of the file loop, authorization granted: the disk afterwards, and the error if there is one. */
  function Remove(server: Server, file: string, disk: Disk): (Disk, Option<string>) {
    match server.locate(server.decode(file))
    case None => (disk, Some("Not found"))
    case Some(target) =>
      if target !in disk.tree then (disk, Some("Not found"))
      else match disk.tree[target]
        case File =>
          var failure := server.unlink(disk.calls, target);
          (Disk(if failure.None? then disk.tree - {target} else disk.tree, disk.calls + 1), failure)
        case Folder =>
          var (tree, failure) := server.rmtree(disk.calls, disk.tree, target);
          (Disk(tree, disk.calls + 1), failure)
        case Other => (disk, Some("Not a file or folder"))
  }

  function Noted(server: Server, file: string, failure: Option<string>, answer: Answer): Answer {
    if failure.None? then Deleted(answer, file, server.decode(file)) else Failed(answer, failure.value, file)
  }

  /** The file loop: `None` when `authorize_file` raises and the request ends without an answer. */
  function DeleteFiles(server: Server, files: seq<string>, disk: Disk, answer: Answer): (Disk, Option<Answer>) {
    if files == [] then (disk, Some(answer))
    else
      var path := server.decode(files[0]);
      if EmptyPath(path) then
        DeleteFiles(server, files[1..], disk, Failed(answer, "Empty path not allowed", files[0]))
      else if !server.authorized(path) then (disk, None)
      else
        var (disk', failure) := Remove(server, files[0], disk);
        DeleteFiles(server, files[1..], disk', Noted(server, files[0], failure, answer))
  }

  /** The whole request; an empty file list is refused like a missing one. */
  function Handle(server: Server, files: seq<string>, disk: Disk): (Disk, Option<Answer>) {
    if files == [] then (disk, None) else DeleteFiles(server, files, disk, Answer([], []))
  }

  class FileServer {
    const server: Server
    var disk: Disk

    constructor (server: Server, disk: Disk)
      ensures this.server == server && this.disk == disk
    {
      this.server := server;
      this.disk := disk;
    }

    method BatchDelete(files: seq<string>) returns (response: Option<Answer>)
      modifies this
      ensures (disk, response) == Handle(server, files, old(disk))
    {
      if files == [] {
        return None;
      }
      var answer := Answer([], []);
      var i := 0;
      while i < |files|
        invariant 0 <= i <= |files|
        invariant DeleteFiles(server, files[i..], disk, answer) == DeleteFiles(server, files, old(disk), Answer([], []))
      {
        assert files[i..][0] == files[i] && files[i..][1..] == files[i + 1..];
        var file := files[i];
        var path := server.decode(file);
        i := i + 1;
        if EmptyPath(path) {
          answer := Failed(answer, "Empty path not allowed", file);
          continue;
        }
        if !server.authorized(path) {
          return None;
        }
        var located := server.locate(path);
        if located.None? || located.value !in disk.tree {
          answer := Failed(answer, "Not found", file);
          continue;
        }
        var target := located.value;
        var failure := None;
        if disk.tree[target] == File {
          failure := server.unlink(disk.calls, target);
          disk := Disk(if failure.None? then disk.tree - {target} else disk.tree, disk.calls + 1);
        } else if disk.tree[target] == Folder {
          var (tree, raised) := server.rmtree(disk.calls, disk.tree, target);
          failure := raised;
          disk := Disk(tree, disk.calls + 1);
        } else {
          answer := Failed(answer, "Not a file or folder", file);
          continue;
        }
        answer := if failure.None? then Deleted(answer, file, path) else Failed(answer, failure.value, file);
      }
      assert files[i..] == [];
      response := Some(answer);
    }
  }

  // ---- What the answer means ----

  /** The place a requested file stands for, unless the request is refused without looking. */
  function Target(server: Server, file: string): Option<Path> {
    var path := server.decode(file);
    if OnlySlashes(path) then None else server.locate(path)
  }

  predicate Requested(server: Server, files: seq<string>, p: Path) {
    exists i :: 0 <= i < |files| && Covers(server, files[i], p)
  }

  predicate Covers(server: Server, file: string, p: Path) {
    Target(server, file).Some? && Target(server, file).value <= p
  }

  predicate InDeleted(answer: Answer, file: string) {
    exists entry :: entry in answer.deleted && entry.0 == file
  }

  predicate InErrors(errors: Errors, file: string) {
    exists entry :: entry in errors && file in entry.1
  }

  predicate Listed(answer: Answer, file: string) {
    InDeleted(answer, file) || InErrors(answer.errors, file)
  }

  /** Everything the answer calls deleted is gone, with all that was below it, and is named by its decoded path. */
  ghost predicate Truthful(server: Server, answer: Answer, tree: Tree) {
    forall entry :: entry in answer.deleted ==>
      && entry.1 == server.decode(entry.0)
      && Target(server, entry.0).Some?
      && forall p :: p in tree ==> !(Target(server, entry.0).value <= p)
  }

  lemma {:induction false} RecordLists(errors: Errors, msg: string, file: string, other: string)
    ensures InErrors(Record(errors, msg, file), other) <==> other == file || InErrors(errors, other)
  {
    var errors' := Record(errors, msg, file);
    if errors == [] {
      assert errors'[0] in errors';
    } else if errors[0].0 == msg {
      assert errors' == [(msg, errors[0].1 + [file])] + errors[1..];
      assert errors'[0] in errors' && errors[0] in errors;
      if InErrors(errors, other) {
        var entry :| entry in errors && other in entry.1;
        assert entry == errors[0] || entry in errors';
      }
      if InErrors(errors', other) {
        var entry :| entry in errors' && other in entry.1;
        assert entry == errors'[0] || entry in errors;
      }
    } else {
      RecordLists(errors[1..], msg, file, other);
      var rest := Record(errors[1..], msg, file);
      assert errors' == [errors[0]] + rest;
      if InErrors(errors, other) {
        var entry :| entry in errors && other in entry.1;
        assert entry == errors[0] || entry in errors[1..];
        if entry == errors[0] {
          assert errors'[0] in errors';
        } else {
          assert InErrors(errors[1..], other);
          var again :| again in rest && other in again.1;
          assert again in errors';
        }
      }
      if InErrors(errors', other) {
        var entry :| entry in errors' && other in entry.1;
        assert entry == errors[0] || entry in rest;
        if entry in rest {
          assert InErrors(rest, other);
          if InErrors(errors[1..], other) {
            var again :| again in errors[1..] && other in again.1;
            assert again in errors;
          }
        }
      }
      if other == file {
        var again :| again in rest && other in again.1;
        assert again in errors';
      }
    }
  }

  lemma DeletedLists(answer: Answer, file: string, path: string, other: string)
    ensures InDeleted(Deleted(answer, file, path), other) <==> other == file || InDeleted(answer, other)
  {
    var answer' := Deleted(answer, file, path);
    if !InDeleted(answer, file) {
      assert (file, path) in answer'.deleted;
      assert forall entry :: entry in answer.deleted ==> entry in answer'.deleted;
    }
  }

  /** One file: only its subtree changes, and without an error that subtree is gone. */
  lemma RemoveLaws(server: Server, file: string, disk: Disk)
    requires Lawful(server) && Rooted(disk.tree) && !EmptyPath(server.decode(file))
    ensures var (disk', failure) := Remove(server, file, disk);
            && Rooted(disk'.tree)
            && (forall p :: p in disk'.tree ==> p in disk.tree && disk'.tree[p] == disk.tree[p])
            && (forall p :: p in disk.tree && p !in disk'.tree ==> Covers(server, file, p))
            && (failure.None? ==>
                 Target(server, file).Some? && forall p :: p in disk'.tree ==> !(Target(server, file).value <= p))
  {
    var target := server.locate(server.decode(file));
    if target.Some? && target.value in disk.tree {
      if disk.tree[target.value] == File {
        UnlinkIsWithout(disk.tree, target.value);
      }
      if disk.tree[target.value] == Folder {
        var (tree, failure) := server.rmtree(disk.calls, disk.tree, target.value);
        assert PrunedBelow(disk.tree, tree, target.value);
      }
    }
  }

  lemma NotedLists(server: Server, file: string, failure: Option<string>, answer: Answer, other: string)
    ensures Listed(Noted(server, file, failure, answer), other) <==> other == file || Listed(answer, other)
  {
    if failure.None? {
      DeletedLists(answer, file, server.decode(file), other);
    } else {
      RecordLists(answer.errors, failure.value, file, other);
    }
  }

  lemma NotedTruthful(server: Server, file: string, failure: Option<string>, answer: Answer, tree: Tree, tree': Tree)
    requires Truthful(server, answer, tree) && tree'.Keys <= tree.Keys
    requires failure.None? ==>
               Target(server, file).Some? && forall p :: p in tree' ==> !(Target(server, file).value <= p)
    ensures Truthful(server, Noted(server, file, failure, answer), tree')
  {
    var answer' := Noted(server, file, failure, answer);
    forall entry | entry in answer'.deleted
      ensures entry in answer.deleted || (failure.None? && entry == (file, server.decode(file)))
    {
    }
  }

  lemma BelowAFile(tree: Tree, path: Path, p: Path)
    requires Rooted(tree) && path in tree && tree[path] != Folder && p in tree && path <= p
    ensures p == path
    decreases |p|
  {
    if p != path {
      var parent := p[..|p| - 1];
      assert path <= parent;
      BelowAFile(tree, path, parent);
    }
  }

  lemma UnlinkIsWithout(tree: Tree, path: Path)
    requires Rooted(tree) && path in tree && tree[path] == File
    ensures tree - {path} == Without(tree, path) && Rooted(tree - {path})
  {
    forall p | p in tree && path <= p
      ensures p == path
    {
      BelowAFile(tree, path, p);
    }
    forall p | p in tree - {path} && p != []
      ensures p[..|p| - 1] in tree - {path}
    {
      assert p[..|p| - 1] in tree;
    }
  }

  ghost predicate Shrunk(tree: Tree, tree': Tree) {
    forall p :: p in tree' ==> p in tree && tree'[p] == tree[p]
  }

  lemma {:induction false} DeleteFilesDisk(server: Server, files: seq<string>, disk: Disk, answer: Answer)
    requires Lawful(server) && Rooted(disk.tree)
    ensures var (disk', _) := DeleteFiles(server, files, disk, answer);
            && Rooted(disk'.tree)
            && Shrunk(disk.tree, disk'.tree)
            && (forall p :: p in disk.tree && p !in disk'.tree ==> Requested(server, files, p))
  {
    if files != [] {
      var file, rest := files[0], files[1..];
      var (disk', _) := DeleteFiles(server, files, disk, answer);
      if EmptyPath(server.decode(file)) {
        DeleteFilesDisk(server, rest, disk, Failed(answer, "Empty path not allowed", file));
        RequestedLater(server, files, disk.tree, disk'.tree);
      } else if server.authorized(server.decode(file)) {
        RemoveLaws(server, file, disk);
        var (disk1, failure) := Remove(server, file, disk);
        DeleteFilesDisk(server, rest, disk1, Noted(server, file, failure, answer));
        RequestedLater(server, files, disk1.tree, disk'.tree);
        forall p | p in disk.tree && p !in disk1.tree
          ensures Requested(server, files, p)
        {
          assert Covers(server, files[0], p);
        }
      }
    }
  }

  lemma RequestedLater(server: Server, files: seq<string>, tree: Tree, tree': Tree)
    requires files != []
    requires forall p :: p in tree && p !in tree' ==> Requested(server, files[1..], p)
    ensures forall p :: p in tree && p !in tree' ==> Requested(server, files, p)
  {
    forall p | p in tree && p !in tree'
      ensures Requested(server, files, p)
    {
      var i :| 0 <= i < |files[1..]| && Covers(server, files[1..][i], p);
      assert Covers(server, files[i + 1], p);
    }
  }

  lemma {:induction false} DeleteFilesAnswer(server: Server, files: seq<string>, disk: Disk, answer: Answer)
    requires Lawful(server) && Rooted(disk.tree)
    requires Truthful(server, answer, disk.tree)
    ensures var (disk', response) := DeleteFiles(server, files, disk, answer);
            response.Some? ==>
              && Truthful(server, response.value, disk'.tree)
              && forall file :: Listed(response.value, file) <==> file in files || Listed(answer, file)
  {
    if files != [] {
      var file, rest := files[0], files[1..];
      assert forall other :: other in files <==> other == file || other in rest;
      if EmptyPath(server.decode(file)) {
        var answer1 := Failed(answer, "Empty path not allowed", file);
        forall other {
          RecordLists(answer.errors, "Empty path not allowed", file, other);
        }
        DeleteFilesAnswer(server, rest, disk, answer1);
      } else if server.authorized(server.decode(file)) {
        RemoveLaws(server, file, disk);
        var (disk1, failure) := Remove(server, file, disk);
        NotedTruthful(server, file, failure, answer, disk.tree, disk1.tree);
        forall other {
          NotedLists(server, file, failure, answer, other);
        }
        DeleteFilesAnswer(server, rest, disk1, Noted(server, file, failure, answer));
      }
    }
  }

  /**
    The contract of the endpoint, for every request, with duplicate, nested and refused paths: an answer
    lists exactly the requested files, what it calls deleted is absent afterwards together with all that
    was below it, and nothing outside the requested subtrees changes even when the request is cut short.
   */
  lemma AnswerIsTrue(server: Server, files: seq<string>, disk: Disk)
    requires Lawful(server) && Rooted(disk.tree)
    ensures var (disk', response) := Handle(server, files, disk);
            && Rooted(disk'.tree)
            && Shrunk(disk.tree, disk'.tree)
            && (forall p :: p in disk.tree && p !in disk'.tree ==> Requested(server, files, p))
            && (response.Some? ==>
                 && Truthful(server, response.value, disk'.tree)
                 && forall file :: Listed(response.value, file) <==> file in files)
  {
    DeleteFilesDisk(server, files, disk, Answer([], []));
    DeleteFilesAnswer(server, files, disk, Answer([], []));
  }

  // ---- Without file system errors the outcome does not depend on the order ----

  ghost predicate Reliable(server: Server) {
    && (forall n, path :: server.unlink(n, path).None?)
    && (forall n, tree, path :: server.rmtree(n, tree, path) == (Without(tree, path), None))
  }

  /** The file names a file or folder of the given tree, at or above `p`. */
  predicate Takes(server: Server, tree: Tree, file: string, p: Path) {
    && Covers(server, file, p)
    && Target(server, file).value in tree
    && tree[Target(server, file).value] != Other
  }

  predicate Taken(server: Server, tree: Tree, files: seq<string>, p: Path) {
    exists i :: 0 <= i < |files| && Takes(server, tree, files[i], p)
  }

  /** On a reliable server one removal takes the whole subtree of a file or folder. */
  lemma RemoveIsWithout(server: Server, file: string, disk: Disk)
    requires Reliable(server) && Rooted(disk.tree)
    ensures var target := server.locate(server.decode(file));
            Remove(server, file, disk).0.tree ==
            if target.Some? && target.value in disk.tree && disk.tree[target.value] != Other
            then Without(disk.tree, target.value) else disk.tree
  {
    var target := server.locate(server.decode(file));
    if target.Some? && target.value in disk.tree && disk.tree[target.value] == File {
      UnlinkIsWithout(disk.tree, target.value);
    }
  }

  lemma RemoveExact(server: Server, file: string, disk: Disk, p: Path)
    requires Reliable(server) && Rooted(disk.tree) && !EmptyPath(server.decode(file))
    ensures p in Remove(server, file, disk).0.tree <==> p in disk.tree && !Takes(server, disk.tree, file, p)
  {
    RemoveIsWithout(server, file, disk);
  }

  /** The tree after one file of the request. */
  function AfterOne(server: Server, file: string, disk: Disk): Disk {
    if EmptyPath(server.decode(file)) then disk else Remove(server, file, disk).0
  }

  lemma AfterOneExact(server: Server, file: string, disk: Disk, p: Path)
    requires Reliable(server) && Rooted(disk.tree)
    ensures Rooted(AfterOne(server, file, disk).tree)
    ensures p in disk.tree && p in AfterOne(server, file, disk).tree ==> AfterOne(server, file, disk).tree[p] == disk.tree[p]
    ensures p in AfterOne(server, file, disk).tree <==> p in disk.tree && !Takes(server, disk.tree, file, p)
  {
    if !EmptyPath(server.decode(file)) {
      ReliableIsLawful(server);
      RemoveLaws(server, file, disk);
      RemoveIsWithout(server, file, disk);
      RemoveExact(server, file, disk, p);
    }
  }

  /** What survives the first file and was going to be taken is still going to be taken. */
  lemma StillTaken(server: Server, files: seq<string>, disk: Disk, p: Path)
    requires Reliable(server) && Rooted(disk.tree) && files != []
    requires p in AfterOne(server, files[0], disk).tree
    requires Taken(server, disk.tree, files, p)
    ensures Taken(server, AfterOne(server, files[0], disk).tree, files[1..], p)
  {
    var after, rest := AfterOne(server, files[0], disk), files[1..];
    AfterOneExact(server, files[0], disk, p);
    var i :| 0 <= i < |files| && Takes(server, disk.tree, files[i], p);
    var target := Target(server, files[i]).value;
    AncestorsStay(server, files[0], disk, target, p);
    AfterOneExact(server, files[0], disk, target);
    assert Takes(server, after.tree, files[i], p);
    assert files[i] == rest[i - 1];
  }

  /** What a file takes later it would have taken at the start. */
  lemma TakenBefore(server: Server, files: seq<string>, disk: Disk, p: Path)
    requires Reliable(server) && Rooted(disk.tree) && files != []
    requires Taken(server, AfterOne(server, files[0], disk).tree, files[1..], p)
    ensures Taken(server, disk.tree, files, p)
  {
    var after, rest := AfterOne(server, files[0], disk), files[1..];
    var i :| 0 <= i < |rest| && Takes(server, after.tree, rest[i], p);
    AfterOneExact(server, files[0], disk, Target(server, rest[i]).value);
    assert Takes(server, disk.tree, files[i + 1], p);
  }

  lemma TakenAfterOne(server: Server, files: seq<string>, disk: Disk, p: Path)
    requires Reliable(server) && Rooted(disk.tree) && files != []
    ensures var after := AfterOne(server, files[0], disk);
            p in after.tree && !Taken(server, after.tree, files[1..], p)
            <==> p in disk.tree && !Taken(server, disk.tree, files, p)
  {
    var after := AfterOne(server, files[0], disk);
    AfterOneExact(server, files[0], disk, p);
    if p in after.tree && Taken(server, disk.tree, files, p) {
      StillTaken(server, files, disk, p);
    }
    if p in after.tree && Taken(server, after.tree, files[1..], p) {
      TakenBefore(server, files, disk, p);
    }
  }

  lemma {:induction false} DeleteFilesExact(server: Server, files: seq<string>, disk: Disk, answer: Answer, p: Path)
    requires Reliable(server) && Rooted(disk.tree)
    requires forall i :: 0 <= i < |files| ==> server.authorized(server.decode(files[i]))
    ensures p in DeleteFiles(server, files, disk, answer).0.tree
       <==> p in disk.tree && !Taken(server, disk.tree, files, p)
  {
    if files != [] {
      var file, rest := files[0], files[1..];
      assert forall i :: 0 <= i < |rest| ==> rest[i] == files[i + 1];
      AfterOneExact(server, file, disk, p);
      TakenAfterOne(server, files, disk, p);
      var answer1 := if EmptyPath(server.decode(file)) then Failed(answer, "Empty path not allowed", file)
                     else Noted(server, file, Remove(server, file, disk).1, answer);
      DeleteFilesExact(server, rest, AfterOne(server, file, disk), answer1, p);
    }
  }

  /** If `p` survives one file, so does everything above `p`. */
  lemma AncestorsStay(server: Server, file: string, disk: Disk, q: Path, p: Path)
    requires Reliable(server) && Rooted(disk.tree)
    requires q <= p && q in disk.tree
    requires p in AfterOne(server, file, disk).tree
    ensures q in AfterOne(server, file, disk).tree
  {
    AfterOneExact(server, file, disk, p);
    AfterOneExact(server, file, disk, q);
    if Takes(server, disk.tree, file, q) {
      assert Takes(server, disk.tree, file, p);
    }
  }

  lemma ReliableIsLawful(server: Server)
    requires Reliable(server)
    ensures Lawful(server)
  {
    forall n, tree, path | Rooted(tree)
      ensures var (tree', failure) := server.rmtree(n, tree, path);
              PrunedBelow(tree, tree', path) && Rooted(tree')
    {
      var tree' := Without(tree, path);
      assert server.rmtree(n, tree, path) == (tree', None);
      forall p | p in tree' && p != []
        ensures p[..|p| - 1] in tree' && tree'[p[..|p| - 1]] == Folder
      {
        assert path <= p[..|p| - 1] ==> path <= p;
      }
    }
  }

  /**
    When no file system call fails, what remains is exactly what no requested file or folder covers, so
    two requests for the same files leave the same tree whatever their order and repetitions.
   */
  lemma OrderDoesNotMatter(server: Server, files: seq<string>, files': seq<string>, disk: Disk)
    requires Reliable(server) && Rooted(disk.tree)
    requires files != [] && files' != []
    requires forall file :: file in files <==> file in files'
    requires forall file :: file in files ==> server.authorized(server.decode(file))
    ensures Handle(server, files, disk).0.tree == Handle(server, files', disk).0.tree
    ensures forall p :: p in Handle(server, files, disk).0.tree
                   <==> p in disk.tree && !Taken(server, disk.tree, files, p)
  {
    var tree, tree' := Handle(server, files, disk).0.tree, Handle(server, files', disk).0.tree;
    ReliableIsLawful(server);
    AnswerIsTrue(server, files, disk);
    AnswerIsTrue(server, files', disk);
    forall p
      ensures p in tree <==> p in disk.tree && !Taken(server, disk.tree, files, p)
      ensures p in tree <==> p in tree'
    {
      DeleteFilesExact(server, files, disk, Answer([], []), p);
      DeleteFilesExact(server, files', disk, Answer([], []), p);
      if Taken(server, disk.tree, files, p) {
        var i :| 0 <= i < |files| && Takes(server, disk.tree, files[i], p);
        assert files[i] in files';
      }
      if Taken(server, disk.tree, files', p) {
        var i :| 0 <= i < |files'| && Takes(server, disk.tree, files'[i], p);
        assert files'[i] in files;
      }
    }
  }

  // ---- Paths of slashes alone, and every other path ----

  /** Only a path with a character other than a slash leads anywhere. */
  predicate LeadsSomewhere(server: Server, file: string) {
    exists c :: c in server.decode(file) && c != '/'
  }

  /** The files of a request that lead somewhere, in order. */
  function Leading(server: Server, files: seq<string>): seq<string> {
    if files == [] then []
    else (if LeadsSomewhere(server, files[0]) then [files[0]] else []) + Leading(server, files[1..])
  }

  /** Files whose decoded paths have no character but slashes leave the disk as it was, wherever they are located. */
  lemma {:induction false} SlashesChangeNothing(server: Server, files: seq<string>, disk: Disk, answer: Answer, answer': Answer)
    ensures DeleteFiles(server, files, disk, answer).0 == DeleteFiles(server, Leading(server, files), disk, answer').0
    ensures DeleteFiles(server, files, disk, answer).1.Some? <==>
            DeleteFiles(server, Leading(server, files), disk, answer').1.Some?
  {
    if files != [] {
      var file, rest := files[0], files[1..];
      if !LeadsSomewhere(server, file) {
        assert [] + Leading(server, rest) == Leading(server, rest);
        SlashesChangeNothing(server, rest, disk, Failed(answer, "Empty path not allowed", file), answer');
      } else {
        var leading := Leading(server, files);
        assert leading[0] == file && leading[1..] == Leading(server, rest);
        if server.authorized(server.decode(file)) {
          var (disk', failure) := Remove(server, file, disk);
          SlashesChangeNothing(server, rest, disk', Noted(server, file, failure, answer), Noted(server, file, failure, answer'));
        }
      }
    }
  }

  /** The file is named under the reason. */
  predicate NamedFor(errors: Errors, reason: string, file: string) {
    exists entry :: entry in errors && entry.0 == reason && file in entry.1
  }

  lemma {:induction false} RecordNamesFor(errors: Errors, msg: string, file: string, reason: string, other: string)
    ensures NamedFor(Record(errors, msg, file), reason, other) <==>
              (reason == msg && other == file) || NamedFor(errors, reason, other)
  {
    var errors' := Record(errors, msg, file);
    if errors == [] {
      assert errors'[0] in errors';
    } else if errors[0].0 == msg {
      NamedForCons(errors, reason, other);
      NamedForCons(errors', reason, other);
      assert errors'[1..] == errors[1..];
    } else {
      RecordNamesFor(errors[1..], msg, file, reason, other);
      NamedForCons(errors, reason, other);
      NamedForCons(errors', reason, other);
      assert errors'[1..] == Record(errors[1..], msg, file);
    }
  }

  lemma NamedForCons(errors: Errors, reason: string, other: string)
    requires errors != []
    ensures NamedFor(errors, reason, other) <==>
              (errors[0].0 == reason && other in errors[0].1) || NamedFor(errors[1..], reason, other)
  {
    if entry :| entry in errors && entry.0 == reason && other in entry.1 {
      assert entry == errors[0] || entry in errors[1..];
    }
    if entry :| entry in errors[1..] && entry.0 == reason && other in entry.1 {
      assert entry in errors;
    }
    assert errors[0] in errors;
  }

  /** What one file of the request comes to at some disk: the reason of its failure, if it fails. */
  ghost predicate ComesTo(server: Server, file: string, disk: Disk, failure: Option<string>) {
    var path := server.decode(file);
    var target := server.locate(path);
    if forall c :: c in path ==> c == '/' then failure == Some("Empty path not allowed")
    else if target.None? || target.value !in disk.tree then failure == Some("Not found")
    else match disk.tree[target.value]
      case File => failure == server.unlink(disk.calls, target.value)
      case Folder => failure == server.rmtree(disk.calls, disk.tree, target.value).1
      case Other => failure == Some("Not a file or folder")
  }

  /** Some disk on the way of the request at which the file came to the failure. */
  ghost predicate CameTo(server: Server, tree: Tree, file: string, failure: Option<string>) {
    exists disk: Disk :: Shrunk(tree, disk.tree) && ComesTo(server, file, disk, failure)
  }

  /** Each file is listed for what it came to: as deleted, or under its own reason. */
  ghost predicate Accounted(server: Server, tree: Tree, answer: Answer) {
    && (forall entry :: entry in answer.deleted ==> CameTo(server, tree, entry.0, None))
    && (forall reason, file :: NamedFor(answer.errors, reason, file) ==> CameTo(server, tree, file, Some(reason)))
  }

  lemma AccountedNext(server: Server, tree: Tree, file: string, disk: Disk, failure: Option<string>, answer: Answer)
    requires Shrunk(tree, disk.tree) && ComesTo(server, file, disk, failure) && Accounted(server, tree, answer)
    ensures Accounted(server, tree, Noted(server, file, failure, answer))
  {
    assert CameTo(server, tree, file, failure);
    var answer' := Noted(server, file, failure, answer);
    forall reason, other | NamedFor(answer'.errors, reason, other) ensures CameTo(server, tree, other, Some(reason)) {
      if failure.Some? {
        RecordNamesFor(answer.errors, failure.value, file, reason, other);
      }
    }
  }

  /**
    Why each file is where it is in the answer. A path of slashes alone is never made deleted, and is refused for that
    reason; every other path comes to what the look-up and the file system say of it.
   */
  lemma {:induction false} AnswerAccounts(server: Server, tree: Tree, files: seq<string>, disk: Disk, answer: Answer)
    requires Lawful(server) && Rooted(disk.tree) && Shrunk(tree, disk.tree) && Accounted(server, tree, answer)
    ensures var response := DeleteFiles(server, files, disk, answer).1;
            response.Some? ==> Accounted(server, tree, response.value)
  {
    if files != [] {
      var file, rest := files[0], files[1..];
      if OnlySlashes(server.decode(file)) {
        AccountedNext(server, tree, file, disk, Some("Empty path not allowed"), answer);
        AnswerAccounts(server, tree, rest, disk, Failed(answer, "Empty path not allowed", file));
      } else if server.authorized(server.decode(file)) {
        var (disk', failure) := Remove(server, file, disk);
        RemoveLaws(server, file, disk);
        AccountedNext(server, tree, file, disk, failure, answer);
        AnswerAccounts(server, tree, rest, disk', Noted(server, file, failure, answer));
      }
    }
  }

  /** A path of slashes alone is answered with its error and never as deleted. */
  lemma SlashesAreRefused(server: Server, files: seq<string>, disk: Disk, file: string)
    requires Lawful(server) && Rooted(disk.tree) && file in files
    requires forall c :: c in server.decode(file) ==> c == '/'
    ensures var response := Handle(server, files, disk).1;
            response.Some? ==>
              && NamedFor(response.value.errors, "Empty path not allowed", file)
              && (forall entry :: entry in response.value.deleted ==> entry.0 != file)
              && (forall reason :: NamedFor(response.value.errors, reason, file) ==> reason == "Empty path not allowed")
  {
    AnswerIsTrue(server, files, disk);
    AnswerAccounts(server, disk.tree, files, disk, Answer([], []));
    var response := Handle(server, files, disk).1;
    if response.Some? {
      assert Listed(response.value, file);
      forall reason | NamedFor(response.value.errors, reason, file) ensures reason == "Empty path not allowed" {
        assert CameTo(server, disk.tree, file, Some(reason));
      }
      forall entry | entry in response.value.deleted ensures entry.0 != file {
        assert CameTo(server, disk.tree, entry.0, None);
      }
      var entry :| entry in response.value.errors && file in entry.1;
      assert NamedFor(response.value.errors, entry.0, file);
    }
  }

  /** The empty path, even where it is the upload folder itself, changes nothing. */
  lemma EmptyPathKeepsAll(server: Server, disk: Disk)
    requires server.decode("") == "" && server.locate("") == Some([]) && server.authorized("")
    ensures Handle(server, [""], disk).0 == disk
  {
    SlashesChangeNothing(server, [""], disk, Answer([], []), Answer([], []));
    assert [""][1..] == [] && [""][0] == "";
    assert Leading(server, [""]) == [];
  }

  // ---- The two dictionaries, and when there is no answer ----

  /** Each deleted file and each reason is a key once. */
  ghost predicate KeysOnce(answer: Answer) {
    && (forall i, j :: 0 <= i < j < |answer.deleted| ==> answer.deleted[i].0 != answer.deleted[j].0)
    && ReasonsOnce(answer.errors)
  }

  ghost predicate ReasonsOnce(errors: Errors) {
    forall i, j :: 0 <= i < j < |errors| ==> errors[i].0 != errors[j].0
  }

  lemma {:induction false} RecordKeepsReasons(errors: Errors, msg: string, file: string)
    requires ReasonsOnce(errors)
    ensures ReasonsOnce(Record(errors, msg, file))
    ensures forall entry :: entry in Record(errors, msg, file) ==> entry.0 == msg || exists was :: was in errors && was.0 == entry.0
  {
    if errors != [] && errors[0].0 != msg {
      assert forall i :: 0 <= i < |errors[1..]| ==> errors[1..][i] == errors[i + 1];
      RecordKeepsReasons(errors[1..], msg, file);
      var rest := Record(errors[1..], msg, file);
      forall i | 0 <= i < |rest| ensures rest[i].0 != errors[0].0 {
        assert rest[i] in rest;
        if rest[i].0 != msg {
          var was :| was in errors[1..] && was.0 == rest[i].0;
        }
      }
    }
  }

  lemma NotedKeepsKeys(server: Server, file: string, failure: Option<string>, answer: Answer)
    requires KeysOnce(answer)
    ensures KeysOnce(Noted(server, file, failure, answer))
  {
    if failure.Some? {
      RecordKeepsReasons(answer.errors, failure.value, file);
    } else if !InDeleted(answer, file) {
      assert forall i :: 0 <= i < |answer.deleted| ==> answer.deleted[i] in answer.deleted;
    }
  }

  /** A request is answered exactly when it has files and none of them with another character than slashes is unauthorized. */
  lemma {:induction false} AnsweredIff(server: Server, files: seq<string>, disk: Disk, answer: Answer)
    requires KeysOnce(answer)
    ensures var response := DeleteFiles(server, files, disk, answer).1;
            && (response.Some? <==>
                 forall file :: file in files && (exists c :: c in server.decode(file) && c != '/') ==>
                   server.authorized(server.decode(file)))
            && (response.Some? ==> KeysOnce(response.value))
  {
    if files != [] {
      var file, rest := files[0], files[1..];
      assert forall other :: other in files <==> other == file || other in rest;
      if OnlySlashes(server.decode(file)) {
        RecordKeepsReasons(answer.errors, "Empty path not allowed", file);
        AnsweredIff(server, rest, disk, Failed(answer, "Empty path not allowed", file));
      } else if server.authorized(server.decode(file)) {
        var (disk', failure) := Remove(server, file, disk);
        NotedKeepsKeys(server, file, failure, answer);
        AnsweredIff(server, rest, disk', Noted(server, file, failure, answer));
      }
    }
  }

  lemma HandleAnswersIff(server: Server, files: seq<string>, disk: Disk)
    ensures var (disk', response) := Handle(server, files, disk);
            && (response.Some? <==>
                 files != [] &&
                 forall file :: file in files && (exists c :: c in server.decode(file) && c != '/') ==>
                   server.authorized(server.decode(file)))
            && (response.Some? ==> KeysOnce(response.value))
            && (files == [] ==> disk' == disk)
  {
    AnsweredIff(server, files, disk, Answer([], []));
  }
}
