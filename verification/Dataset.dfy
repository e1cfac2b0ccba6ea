/** Validation of a YOLO dataset before it is registered: images, label files, label lines, and the report. */
module Dataset {
  import opened Common

  /** One field of a label line, as `float` reads it; infinities and not-a-number are not finite. */
  datatype Field = NotANumber | NotFinite | Finite(value: real)

  /** A label line split at white space: a blank line has no fields. */
  type Line = seq<Field>

  /** An image, by its path under the images directory without the suffix. */
  datatype Image = Image(stem: string, suffix: string)

  /** One split on disk: its images, and its label files by their path without `.txt`. */
  datatype Split = Split(images: seq<Image>, labels: map<string, seq<Line>>)

  datatype Problem =
    | WrongFieldCount(count: nat) | NonNumeric | NonFiniteClass | InvalidClass | NonFiniteBox | BoxNotNormalized

  datatype Error =
    | MissingEntry(key: string)
    | BadDirectory(key: string, reason: string)
    | NoImages
    | NoLabelFile(image: Image)
    | BadLine(file: string, number: nat, problem: Problem)
    | ExtraLabel(file: string)
    | InSplit(key: string, error: Error)

  // ---- One line ----

  predicate IsId(f: Field, id: int) {
    f == Finite(id as real)
  }

  predicate WithinUnit(f: Field, zero: bool) {
    f.Finite? && f.value <= 1.0 && (if zero then 0.0 <= f.value else 0.0 < f.value)
  }

  /** A class id, a centre inside the image, and a box of some size no larger than it. */
  predicate ValidLine(line: Line, classes: nat) {
    && |line| == 5
    && (forall field :: field in line ==> field.Finite?)
    && (exists id :: 0 <= id < classes && IsId(line[0], id))
    && 0.0 <= line[1].value <= 1.0 && 0.0 <= line[2].value <= 1.0
    && 0.0 < line[3].value <= 1.0 && 0.0 < line[4].value <= 1.0
  }

  /** Python's `int` of a finite float: the fraction is cut off. */
  function Truncated(x: real): int {
    if x >= 0.0 then x.Floor else -((-x).Floor)
  }

  /** The first thing wrong with a line: each problem means that none before it is there. */
  predicate IsProblem(line: Line, classes: nat, problem: Problem) {
    match problem
    case WrongFieldCount(count) => count == |line| && |line| != 5
    case NonNumeric => |line| == 5 && NotANumber in line
    case NonFiniteClass => |line| == 5 && NotANumber !in line && line[0] == NotFinite
    case InvalidClass =>
      && |line| == 5 && NotANumber !in line && line[0].Finite?
      && forall id :: 0 <= id < classes ==> !IsId(line[0], id)
    case NonFiniteBox =>
      && |line| == 5 && NotANumber !in line && NotFinite in line[1..]
      && exists id :: 0 <= id < classes && IsId(line[0], id)
    case BoxNotNormalized =>
      && |line| == 5 && NotANumber !in line && NotFinite !in line
      && (exists id :: 0 <= id < classes && IsId(line[0], id))
      && !(0.0 <= line[1].value <= 1.0 && 0.0 <= line[2].value <= 1.0 && 0.0 < line[3].value <= 1.0 && 0.0 < line[4].value <= 1.0)
  }

  lemma BoxFields(line: Line)
    requires |line| == 5
    ensures forall i :: 1 <= i < 5 ==> line[i] in line[1..] && line[i] in line
    ensures NotFinite in line[1..] ==> exists i :: 1 <= i < 5 && line[i] == NotFinite
  {
    forall i | 1 <= i < 5 ensures line[i] in line[1..] {
      assert line[1..][i - 1] == line[i];
    }
  }

  /** The checks in their order: the class of a good line, or the first problem of a bad one. */
  function Check(line: Line, classes: nat): (r: Result<nat, Problem>)
    ensures r.Ok? <==> ValidLine(line, classes)
    ensures r.Ok? ==> r.value < classes && line[0].value == r.value as real
    ensures r.Err? ==> IsProblem(line, classes, r.error)
  {
    if |line| != 5 then Err(WrongFieldCount(|line|))
    else if exists i :: 0 <= i < 5 && line[i] == NotANumber then
      assert NotANumber in line;
      Err(NonNumeric)
    else if line[0].NotFinite? then Err(NonFiniteClass)
    else
      assert line[0] != NotANumber && line[1] != NotANumber && line[2] != NotANumber;
      assert line[3] != NotANumber && line[4] != NotANumber;
      var id := Truncated(line[0].value);
      assert forall other :: IsId(line[0], other) ==> other == id;
      if line[0].value != id as real || !(0 <= id < classes) then Err(InvalidClass)
      else
        assert IsId(line[0], id);
        BoxFields(line);
        if exists i :: 1 <= i < 5 && line[i] == NotFinite then Err(NonFiniteBox)
        else if !(WithinUnit(line[1], true) && WithinUnit(line[2], true)
                  && WithinUnit(line[3], false) && WithinUnit(line[4], false)) then Err(BoxNotNormalized)
        else
          assert forall field :: field in line ==> exists i :: 0 <= i < 5 && line[i] == field;
          Ok(id)
  }

  function ProblemOf(line: Line, classes: nat): (r: Option<Problem>)
    ensures r.None? <==> CleanLine(line, classes)
  {
    if line == [] || Check(line, classes).Ok? then None else Some(Check(line, classes).error)
  }

  // ---- What is counted ----

  /** The class of a good line; nothing for a blank or a bad one. */
  function ClassOf(line: Line, classes: nat): (r: seq<nat>)
    ensures |r| == if ValidLine(line, classes) then 1 else 0
  {
    if line != [] && Check(line, classes).Ok? then [Check(line, classes).value] else []
  }

  /** The classes of the good lines, in order. */
  function ClassesOf(lines: seq<Line>, classes: nat): seq<nat> {
    if lines == [] then []
    else ClassesOf(lines[..|lines| - 1], classes) + ClassOf(lines[|lines| - 1], classes)
  }

  function NonBlank(lines: seq<Line>): nat {
    if lines == [] then 0
    else NonBlank(lines[..|lines| - 1]) + if lines[|lines| - 1] == [] then 0 else 1
  }

  function LinesOf(split: Split, image: Image): seq<Line> {
    if image.stem in split.labels then split.labels[image.stem] else []
  }

  /** The classes of all objects, image by image. */
  function Objects(split: Split, images: seq<Image>, classes: nat): seq<nat> {
    if images == [] then []
    else Objects(split, images[..|images| - 1], classes) + ClassesOf(LinesOf(split, images[|images| - 1]), classes)
  }

  function NonBlankLines(split: Split, images: seq<Image>): nat {
    if images == [] then 0
    else NonBlankLines(split, images[..|images| - 1]) + NonBlank(LinesOf(split, images[|images| - 1]))
  }

  function Stems(images: seq<Image>): set<string> {
    set image | image in images :: image.stem
  }

  predicate CleanLine(line: Line, classes: nat) {
    line == [] || ValidLine(line, classes)
  }

  predicate CleanLines(lines: seq<Line>, classes: nat) {
    forall i :: 0 <= i < |lines| ==> CleanLine(lines[i], classes)
  }

  /** Images there are; each has a label file; every non-blank line of it is good; there is no other label file. */
  predicate Clean(split: Split, classes: nat) {
    && split.images != []
    && split.labels.Keys == Stems(split.images)
    && forall image :: image in split.images ==> CleanLines(LinesOf(split, image), classes)
  }

  lemma {:induction false} CleanCounts(lines: seq<Line>, classes: nat)
    requires CleanLines(lines, classes)
    ensures |ClassesOf(lines, classes)| == NonBlank(lines)
  {
    if lines != [] {
      CleanCounts(lines[..|lines| - 1], classes);
      assert CleanLine(lines[|lines| - 1], classes);
    }
  }

  lemma {:induction false} CleanObjects(split: Split, images: seq<Image>, classes: nat)
    requires forall image :: image in images ==> CleanLines(LinesOf(split, image), classes)
    ensures |Objects(split, images, classes)| == NonBlankLines(split, images)
  {
    if images != [] {
      CleanObjects(split, images[..|images| - 1], classes);
      CleanCounts(LinesOf(split, images[|images| - 1]), classes);
    }
  }

  /** Never more label files than images: two images may share one. */
  lemma {:induction false} StemsBounded(images: seq<Image>)
    ensures |Stems(images)| <= |images|
  {
    if images != [] {
      var init, last := images[..|images| - 1], images[|images| - 1];
      StemsBounded(init);
      assert images == init + [last];
      assert Stems(images) == Stems(init) + {last.stem};
    }
  }

  // ---- Counters ----

  type Counter = map<nat, nat>

  function Count(c: Counter, k: nat): nat {
    if k in c then c[k] else 0
  }

  ghost predicate Counts(c: Counter, ids: seq<nat>) {
    forall k: nat :: Count(c, k) == multiset(ids)[k]
  }

  function SumTo(c: Counter, n: nat): nat {
    if n == 0 then 0 else SumTo(c, n - 1) + Count(c, n - 1)
  }

  lemma {:induction false} SumAdd(c: Counter, n: nat, k: nat)
    ensures SumTo(c[k := Count(c, k) + 1], n) == SumTo(c, n) + if k < n then 1 else 0
  {
    if n > 0 {
      SumAdd(c, n - 1, k);
    }
  }

  /** The counters agree with the objects counted so far. */
  ghost predicate Tally(c: Counter, objects: nat, ids: seq<nat>, classes: nat) {
    Counts(c, ids) && objects == |ids| && SumTo(c, classes) == objects
  }

  lemma TallyAdd(c: Counter, objects: nat, ids: seq<nat>, classes: nat, k: nat)
    requires Tally(c, objects, ids, classes) && k < classes
    ensures Tally(c[k := Count(c, k) + 1], objects + 1, ids + [k], classes)
  {
    SumAdd(c, classes, k);
  }

  lemma NextLine(lines: seq<Line>, i: nat, classes: nat)
    requires i < |lines|
    ensures ClassesOf(lines[..i + 1], classes) == ClassesOf(lines[..i], classes) + ClassOf(lines[i], classes)
  {
    var more := lines[..i + 1];
    assert more[..i] == lines[..i] && more[i] == lines[i];
  }

  /** One line: its problem if it has one, or else one more object of its class. */
  method ValidateLine(line: Line, classes: nat, counts: Counter, objects: nat, ghost ids: seq<nat>)
    returns (problem: Option<Problem>, newCounts: Counter, newObjects: nat)
    requires Tally(counts, objects, ids, classes)
    ensures problem == ProblemOf(line, classes)
    ensures Tally(newCounts, newObjects, ids + ClassOf(line, classes), classes)
  {
    problem, newCounts, newObjects := None, counts, objects;
    assert ids + [] == ids;
    if line == [] {
      return;
    }
    var r := Check(line, classes);
    if r.Err? {
      problem := Some(r.error);
      return;
    }
    TallyAdd(counts, objects, ids, classes, r.value);
    newCounts := counts[r.value := Count(counts, r.value) + 1];
    newObjects := objects + 1;
  }

  /** The error is about a line of the file that has just this problem. */
  predicate LineComplaint(file: string, lines: seq<Line>, classes: nat, e: Error) {
    && e.BadLine? && e.file == file && 1 <= e.number <= |lines|
    && ProblemOf(lines[e.number - 1], classes) == Some(e.problem)
  }

  /** The errors are exactly those about a line of the file. */
  ghost predicate LinesReported(file: string, lines: seq<Line>, classes: nat, errors: seq<Error>) {
    forall e :: e in errors <==> LineComplaint(file, lines, classes, e)
  }

  lemma ReportedSnoc(file: string, lines: seq<Line>, i: nat, classes: nat, errors: seq<Error>)
    requires i < |lines| && LinesReported(file, lines[..i], classes, errors)
    ensures LinesReported(file, lines[..i + 1], classes,
              match ProblemOf(lines[i], classes)
              case None => errors
              case Some(problem) => errors + [BadLine(file, i + 1, problem)])
  {
    forall e { NextComplaint(file, lines, i, classes, e); }
  }

  lemma NextComplaint(file: string, lines: seq<Line>, i: nat, classes: nat, e: Error)
    requires i < |lines|
    ensures LineComplaint(file, lines[..i + 1], classes, e)
        <==> LineComplaint(file, lines[..i], classes, e)
             || (ProblemOf(lines[i], classes).Some? && e == BadLine(file, i + 1, ProblemOf(lines[i], classes).value))
  {
    if LineComplaint(file, lines[..i + 1], classes, e) && e.number <= i {
      assert lines[..i + 1][e.number - 1] == lines[..i][e.number - 1];
    }
  }

  lemma LinesCleanIff(file: string, lines: seq<Line>, classes: nat, errors: seq<Error>)
    requires LinesReported(file, lines, classes, errors)
    ensures errors == [] <==> CleanLines(lines, classes)
  {
    if i :| 0 <= i < |lines| && !CleanLine(lines[i], classes) {
      assert LineComplaint(file, lines, classes, BadLine(file, i + 1, ProblemOf(lines[i], classes).value));
    }
    if errors != [] {
      assert errors[0] in errors;
      assert !CleanLine(lines[errors[0].number - 1], classes);
    }
  }

  /** One label file: an error for each bad line and no other, and the counters with its good lines added. */
  method ValidateLines(file: string, lines: seq<Line>, classes: nat, counts: Counter, objects: nat, ghost ids: seq<nat>)
    returns (errors: seq<Error>, newCounts: Counter, newObjects: nat)
    requires Tally(counts, objects, ids, classes)
    ensures LinesReported(file, lines, classes, errors)
    ensures Tally(newCounts, newObjects, ids + ClassesOf(lines, classes), classes)
  {
    errors, newCounts, newObjects := [], counts, objects;
    ghost var done := ids;
    for i := 0 to |lines|
      invariant LinesReported(file, lines[..i], classes, errors)
      invariant done == ids + ClassesOf(lines[..i], classes)
      invariant Tally(newCounts, newObjects, done, classes)
    {
      ReportedSnoc(file, lines, i, classes, errors);
      NextLine(lines, i, classes);
      Regroup(ids, ClassesOf(lines[..i], classes), ClassOf(lines[i], classes));
      var problem;
      problem, newCounts, newObjects := ValidateLine(lines[i], classes, newCounts, newObjects, done);
      done := done + ClassOf(lines[i], classes);
      if problem.Some? {
        errors := errors + [BadLine(file, i + 1, problem.value)];
      }
    }
    assert lines[..|lines|] == lines;
  }

  lemma Regroup(a: seq<nat>, b: seq<nat>, c: seq<nat>)
    ensures a + b + c == a + (b + c)
  {
  }

  // ---- One split ----

  /** The error is about the image: it has no label file, or a bad line in it. */
  predicate ImageComplaint(split: Split, image: Image, classes: nat, e: Error) {
    if image.stem !in split.labels then e == NoLabelFile(image)
    else LineComplaint(image.stem, split.labels[image.stem], classes, e)
  }

  predicate ImagesComplaint(split: Split, images: seq<Image>, classes: nat, e: Error) {
    exists image :: image in images && ImageComplaint(split, image, classes, e)
  }

  /** All there is to complain about in a split. */
  predicate Complaint(split: Split, classes: nat, e: Error) {
    || (split.images == [] && e == NoImages)
    || ImagesComplaint(split, split.images, classes, e)
    || (e.ExtraLabel? && e.file in split.labels.Keys - Stems(split.images))
  }

  lemma NextImage(split: Split, i: nat, classes: nat)
    requires i < |split.images|
    ensures Objects(split, split.images[..i + 1], classes)
         == Objects(split, split.images[..i], classes) + ClassesOf(LinesOf(split, split.images[i]), classes)
    ensures Stems(split.images[..i + 1]) == Stems(split.images[..i]) + {split.images[i].stem}
    ensures forall e :: ImagesComplaint(split, split.images[..i + 1], classes, e)
              <==> ImagesComplaint(split, split.images[..i], classes, e)
                   || ImageComplaint(split, split.images[i], classes, e)
  {
    var more := split.images[..i + 1];
    assert more[..i] == split.images[..i] && more == split.images[..i] + [split.images[i]];
  }

  /** What the report says of a split. */
  datatype Report = Report(images: nat, labels: nat, objects: nat, byClass: map<string, nat>)

  /** One image: its label file has to be there, and its lines to be good. */
  method ValidateImage(split: Split, image: Image, classes: nat, counts: Counter, objects: nat, ghost ids: seq<nat>)
    returns (errors: seq<Error>, newCounts: Counter, newObjects: nat)
    requires Tally(counts, objects, ids, classes)
    ensures forall e :: e in errors <==> ImageComplaint(split, image, classes, e)
    ensures Tally(newCounts, newObjects, ids + ClassesOf(LinesOf(split, image), classes), classes)
  {
    if image.stem !in split.labels {
      assert ids + [] == ids;
      return [NoLabelFile(image)], counts, objects;
    }
    errors, newCounts, newObjects := ValidateLines(image.stem, split.labels[image.stem], classes, counts, objects, ids);
  }

  method ExtraLabels(files: set<string>) returns (errors: seq<Error>)
    ensures forall e :: e in errors <==> e.ExtraLabel? && e.file in files
  {
    errors := [];
    var todo := files;
    while todo != {}
      invariant todo <= files
      invariant forall e :: e in errors <==> e.ExtraLabel? && e.file in files - todo
      decreases |todo|
    {
      var file :| file in todo;
      errors := errors + [ExtraLabel(file)];
      todo := todo - {file};
    }
  }

  /** The loop over the images: the label files expected, and the objects counted. */
  method ValidateImages(split: Split, classes: nat)
    returns (errors: seq<Error>, expected: set<string>, counts: Counter, objects: nat)
    ensures forall e :: e in errors <==> ImagesComplaint(split, split.images, classes, e)
    ensures expected == Stems(split.images)
    ensures Tally(counts, objects, Objects(split, split.images, classes), classes)
  {
    errors, expected, counts, objects := [], {}, map[], 0;
    NoCounts(classes);
    assert split.images[..0] == [];
    for i := 0 to |split.images|
      invariant forall e :: e in errors <==> ImagesComplaint(split, split.images[..i], classes, e)
      invariant expected == Stems(split.images[..i])
      invariant Tally(counts, objects, Objects(split, split.images[..i], classes), classes)
    {
      NextImage(split, i, classes);
      var found;
      expected := expected + {split.images[i].stem};
      found, counts, objects := ValidateImage(split, split.images[i], classes, counts, objects,
        Objects(split, split.images[..i], classes));
      errors := errors + found;
    }
    assert split.images[..|split.images|] == split.images;
  }

  /** One split: its errors are exactly what there is to complain about, none when it is clean; the report's numbers. */
  method ValidateSplit(split: Split, names: seq<string>) returns (errors: seq<Error>, report: Report, counts: Counter)
    ensures forall e :: e in errors <==> Complaint(split, |names|, e)
    ensures errors == [] <==> Clean(split, |names|)
    ensures report.images == |split.images| && report.labels == |split.labels|
    ensures Tally(counts, report.objects, Objects(split, split.images, |names|), |names|)
    ensures report.byClass == ByClass(names, counts, |names|)
  {
    errors := [];
    if split.images == [] {
      errors := [NoImages];
    }
    var found, expected, objects;
    found, expected, counts, objects := ValidateImages(split, |names|);
    var extra := ExtraLabels(split.labels.Keys - expected);
    errors := errors + found + extra;
    CleanIff(split, |names|, errors);
    report := Report(|split.images|, |split.labels|, objects, ByClass(names, counts, |names|));
  }

  lemma NoCounts(n: nat)
    ensures Tally(map[], 0, [], n)
  {
    if n > 0 {
      NoCounts(n - 1);
    }
  }

  lemma CleanMeansNone(split: Split, classes: nat, e: Error)
    requires Clean(split, classes)
    ensures !Complaint(split, classes, e)
  {
    forall image | image in split.images ensures !ImageComplaint(split, image, classes, e) {
      assert image.stem in Stems(split.images);
      assert CleanLines(LinesOf(split, image), classes);
    }
  }

  lemma NoneMeansClean(split: Split, classes: nat)
    requires forall e :: !Complaint(split, classes, e)
    ensures Clean(split, classes)
  {
    assert !Complaint(split, classes, NoImages);
    forall image | image in split.images
      ensures image.stem in split.labels && CleanLines(split.labels[image.stem], classes)
    {
      forall e ensures !ImageComplaint(split, image, classes, e) {
        assert !Complaint(split, classes, e);
        assert !ImagesComplaint(split, split.images, classes, e);
      }
      assert !ImageComplaint(split, image, classes, NoLabelFile(image));
      forall e ensures !LineComplaint(image.stem, split.labels[image.stem], classes, e) {
        assert !ImageComplaint(split, image, classes, e);
      }
      LinesCleanIff(image.stem, split.labels[image.stem], classes, []);
    }
    forall stem | stem in split.labels ensures stem in Stems(split.images) {
      assert !Complaint(split, classes, ExtraLabel(stem));
    }
  }

  lemma CleanIff(split: Split, classes: nat, errors: seq<Error>)
    requires forall e :: e in errors <==> Complaint(split, classes, e)
    ensures errors == [] <==> Clean(split, classes)
  {
    assert errors != [] ==> errors[0] in errors;
    if Clean(split, classes) {
      forall e ensures e !in errors {
        CleanMeansNone(split, classes, e);
      }
    }
    if errors == [] {
      NoneMeansClean(split, classes);
    }
  }

  // ---- Counts by class name ----

  /** `objects_by_class`: of several classes with one name the last one stays. */
  function ByClass(names: seq<string>, counts: Counter, k: nat): map<string, nat>
    requires k <= |names|
  {
    if k == 0 then map[] else ByClass(names, counts, k - 1)[names[k - 1] := Count(counts, k - 1)]
  }

  ghost function SumValues(m: map<string, nat>): nat
    decreases |m|
  {
    if m == map[] then 0
    else
      var k :| k in m;
      assert |m - {k}| < |m| by {
        assert (m - {k}).Keys == m.Keys - {k};
        assert |(m - {k}).Keys| == |m - {k}| && |m.Keys| == |m|;
      }
      m[k] + SumValues(m - {k})
  }

  lemma {:induction false} SumWithout(m: map<string, nat>, k: string)
    requires k in m
    ensures SumValues(m) == m[k] + SumValues(m - {k})
    decreases |m|
  {
    var j :| j in m && SumValues(m) == m[j] + SumValues(m - {j});
    if j != k {
      assert (m - {j}).Keys == m.Keys - {j} && |(m - {j}).Keys| == |m - {j}| && |m.Keys| == |m|;
      SumWithout(m - {j}, k);
      assert (m - {k}).Keys == m.Keys - {k} && |(m - {k}).Keys| == |m - {k}|;
      SumWithout(m - {k}, j);
      assert m - {j} - {k} == m - {k} - {j};
    }
  }

  lemma SumSet(m: map<string, nat>, k: string, v: nat)
    ensures SumValues(m[k := v]) == SumValues(m) + v - if k in m then m[k] else 0
  {
    SumWithout(m[k := v], k);
    if k in m {
      SumWithout(m, k);
      assert m[k := v] - {k} == m - {k};
    } else {
      assert m[k := v] - {k} == m;
    }
  }

  /** No class whose name is used again later has any object. */
  predicate NothingShadowed(names: seq<string>, counts: Counter, k: nat)
    requires k <= |names|
  {
    forall i, j :: 0 <= i < j < k && names[i] == names[j] ==> Count(counts, i) == 0
  }

  lemma {:induction false} ByClassHas(names: seq<string>, counts: Counter, k: nat, name: string)
    requires k <= |names|
    ensures name in ByClass(names, counts, k) <==> exists i :: 0 <= i < k && names[i] == name
    ensures name in ByClass(names, counts, k) ==>
      exists i: nat :: i < k && names[i] == name && ByClass(names, counts, k)[name] == Count(counts, i)
                       && forall j :: i < j < k ==> names[j] != name
  {
    if k > 0 {
      ByClassHas(names, counts, k - 1, name);
    }
  }

  lemma {:induction false} ByClassSum(names: seq<string>, counts: Counter, k: nat)
    requires k <= |names|
    ensures SumValues(ByClass(names, counts, k)) <= SumTo(counts, k)
    ensures SumValues(ByClass(names, counts, k)) == SumTo(counts, k) <==> NothingShadowed(names, counts, k)
  {
    if k > 0 {
      var m, name := ByClass(names, counts, k - 1), names[k - 1];
      ByClassSum(names, counts, k - 1);
      ByClassHas(names, counts, k - 1, name);
      SumSet(m, name, Count(counts, k - 1));
      if name in m {
        var i: nat :| i < k - 1 && names[i] == name && m[name] == Count(counts, i)
          && forall j :: i < j < k - 1 ==> names[j] != name;
        if NothingShadowed(names, counts, k - 1) && Count(counts, i) == 0 {
          forall a, b | 0 <= a < b < k && names[a] == names[b] ensures Count(counts, a) == 0 {
            if b == k - 1 && a != i {
              assert a < i && names[a] == names[i];
            }
          }
        }
      }
    }
  }

  /** Two classes named `car` and one object of the first: the counts by name show none. */
  lemma RepeatedNameLosesObjects()
    ensures var names, counts: Counter := ["car", "car"], map[0 := 1, 1 := 0];
            SumTo(counts, 2) == 1 && SumValues(ByClass(names, counts, 2)) == 0
  {
    var names, counts: Counter := ["car", "car"], map[0 := 1, 1 := 0];
    assert SumTo(counts, 0) == 0 && SumTo(counts, 1) == 1 && SumTo(counts, 2) == 1;
    assert ByClass(names, counts, 0) == map[] && ByClass(names, counts, 1) == map["car" := 1];
    assert ByClass(names, counts, 2) == map["car" := 0];
    SumSet(map[], "car", 0);
    assert SumValues(map[]) == 0 && map[]["car" := 0] == map["car" := 0];
  }

  // ---- The whole dataset ----

  /** What a split's entry in the configuration leads to. */
  datatype Entry = Absent | NotText | Outside | WrongName | NoImageDirectory | NoLabelDirectory | Found(split: Split)

  /** The configuration key of a split, and its name in the report. */
  const SPLITS := [("train", "train"), ("val", "valid"), ("test", "test")]

  type Configuration = map<string, Entry>

  function EntryOf(dataset: Configuration, key: string): Entry {
    if key in dataset then dataset[key] else Absent
  }

  /** The entry raises no error; only the test split may be missing. */
  predicate Accepted(dataset: Configuration, key: string, classes: nat) {
    match EntryOf(dataset, key)
    case Absent => key == "test"
    case Found(split) => Clean(split, classes)
    case _ => false
  }

  /** The report tells the truth about a split without errors. */
  ghost predicate Truthful(report: Report, split: Split, names: seq<string>) {
    && report.images == |split.images|
    && report.labels == |Stems(split.images)| <= report.images
    && report.objects == NonBlankLines(split, split.images)
    && (SumValues(report.byClass) == report.objects <==> NamesTell(names, Objects(split, split.images, |names|)))
  }

  /** No object belongs to a class whose name a later class has again. */
  predicate NamesTell(names: seq<string>, objects: seq<nat>) {
    forall i: nat, j: nat :: i < j < |names| && names[i] == names[j] ==> i !in objects
  }

  lemma ReportIsTruthful(report: Report, split: Split, names: seq<string>, counts: Counter)
    requires Clean(split, |names|)
    requires report.images == |split.images| && report.labels == |split.labels|
    requires Tally(counts, report.objects, Objects(split, split.images, |names|), |names|)
    requires report.byClass == ByClass(names, counts, |names|)
    ensures Truthful(report, split, names)
  {
    var objects := Objects(split, split.images, |names|);
    CleanObjects(split, split.images, |names|);
    StemsBounded(split.images);
    assert |split.labels| == |split.labels.Keys|;
    ByClassSum(names, counts, |names|);
    assert Counts(counts, objects);
    forall i: nat ensures Count(counts, i) == 0 <==> i !in objects {
      assert i in multiset(objects) <==> i in objects;
    }
  }

  /** The errors of a split name the split: their files are paths under its directories. */
  function Tagged(key: string, errors: seq<Error>): (r: seq<Error>)
    ensures |r| == |errors|
    ensures forall e :: e in r <==> e.InSplit? && e.key == key && e.error in errors
  {
    if errors == [] then [] else [InSplit(key, errors[0])] + Tagged(key, errors[1..])
  }

  /** All there is to complain about in one entry of the configuration. */
  predicate EntryComplaint(dataset: Configuration, key: string, classes: nat, e: Error) {
    match EntryOf(dataset, key)
    case Absent => key != "test" && e == MissingEntry(key)
    case NotText => e == BadDirectory(key, "must point to one images directory")
    case Outside => e == BadDirectory(key, "must be inside dataset root")
    case WrongName => e == BadDirectory(key, "must be named 'images' with sibling 'labels'")
    case NoImageDirectory => e == BadDirectory(key, "missing image directory")
    case NoLabelDirectory => e == BadDirectory(key, "missing label directory")
    case Found(split) => e.InSplit? && e.key == key && Complaint(split, classes, e.error)
  }

  /** One split of the configuration: its errors, and its report when there is something to report on. */
  method ValidateEntry(dataset: Configuration, key: string, names: seq<string>)
    returns (errors: seq<Error>, report: Option<Report>)
    ensures errors == [] <==> Accepted(dataset, key, |names|)
    ensures forall e :: e in errors <==> EntryComplaint(dataset, key, |names|, e)
    ensures report.Some? <==> EntryOf(dataset, key).Found?
    ensures errors == [] && report.Some? ==> Truthful(report.value, EntryOf(dataset, key).split, names)
  {
    errors, report := [], None;
    match EntryOf(dataset, key) {
      case Absent =>
        if key != "test" {
          errors := [MissingEntry(key)];
        }
      case NotText => errors := [BadDirectory(key, "must point to one images directory")];
      case Outside => errors := [BadDirectory(key, "must be inside dataset root")];
      case WrongName => errors := [BadDirectory(key, "must be named 'images' with sibling 'labels'")];
      case NoImageDirectory => errors := [BadDirectory(key, "missing image directory")];
      case NoLabelDirectory => errors := [BadDirectory(key, "missing label directory")];
      case Found(split) =>
        var found, numbers, counts := ValidateSplit(split, names);
        errors, report := Tagged(key, found), Some(numbers);
        if found == [] {
          ReportIsTruthful(numbers, split, names, counts);
        }
    }
  }

  /** The splits reported so far are reported on truthfully. */
  ghost predicate Reported(dataset: Configuration, names: seq<string>, reports: map<string, Report>, k: nat)
    requires k <= 3
  {
    forall j :: 0 <= j < k && EntryOf(dataset, SPLITS[j].0).Found? ==>
      SPLITS[j].1 in reports && Truthful(reports[SPLITS[j].1], EntryOf(dataset, SPLITS[j].0).split, names)
  }

  /**
    The dataset is accepted exactly when the train and val splits are there and every split given is clean; then
    the report is true of each split. Otherwise the errors are exactly what there is to complain about.
   */
  method PrepareDataset(dataset: Configuration, names: seq<string>) returns (r: Result<map<string, Report>, seq<Error>>)
    ensures r.Ok? <==>
              && HasGood(dataset, "train", |names|) && HasGood(dataset, "val", |names|)
              && (HasGood(dataset, "test", |names|) || "test" !in dataset || dataset["test"] == Absent)
    ensures r.Ok? ==> forall key :: key in {"train", "val", "test"} && HasGood(dataset, key, |names|) ==>
              var display := if key == "val" then "valid" else key;
              display in r.value && Truthful(r.value[display], dataset[key].split, names)
    ensures r.Ok? <==> forall k :: 0 <= k < 3 ==> Accepted(dataset, SPLITS[k].0, |names|)
    ensures r.Ok? ==> Reported(dataset, names, r.value, 3)
    ensures r.Err? ==> forall e :: e in r.error <==>
              exists k :: 0 <= k < 3 && EntryComplaint(dataset, SPLITS[k].0, |names|, e)
  {
    var errors: seq<Error> := [];
    var reports: map<string, Report> := map[];
    for k := 0 to 3
      invariant errors == [] <==> forall j :: 0 <= j < k ==> Accepted(dataset, SPLITS[j].0, |names|)
      invariant errors == [] ==> Reported(dataset, names, reports, k)
      invariant forall e :: e in errors <==> exists j :: 0 <= j < k && EntryComplaint(dataset, SPLITS[j].0, |names|, e)
    {
      var (key, display) := SPLITS[k];
      var found, report := ValidateEntry(dataset, key, names);
      errors := errors + found;
      DisplayNamesDiffer(k);
      if report.Some? {
        reports := reports[display := report.value];
      }
    }
    r := if errors == [] then Ok(reports) else Err(errors);
    AcceptedMeans(dataset, |names|);
    if errors == [] {
      ReportedMeans(dataset, names, reports);
    }
  }

  /** There is a split of that name, with images, a label file for each and no other, and good or blank lines only. */
  ghost predicate HasGood(dataset: Configuration, key: string, classes: nat) {
    key in dataset && dataset[key].Found? &&
    var split := dataset[key].split;
    && split.images != []
    && (forall stem :: stem in split.labels <==> exists image :: image in split.images && image.stem == stem)
    && (forall stem, line :: stem in split.labels && line in split.labels[stem] ==> line == [] || ValidLine(line, classes))
  }

  lemma CleanMeans(dataset: Configuration, key: string, classes: nat)
    ensures HasGood(dataset, key, classes) <==> key in dataset && dataset[key].Found? && Clean(dataset[key].split, classes)
  {
    if key in dataset && dataset[key].Found? {
      var split := dataset[key].split;
      assert forall stem :: stem in Stems(split.images) <==> exists image :: image in split.images && image.stem == stem;
      if HasGood(dataset, key, classes) {
        assert split.labels.Keys == Stems(split.images);
        forall image | image in split.images ensures CleanLines(LinesOf(split, image), classes) {
          assert image.stem in split.labels;
          forall i | 0 <= i < |split.labels[image.stem]| ensures CleanLine(split.labels[image.stem][i], classes) {
            assert split.labels[image.stem][i] in split.labels[image.stem];
          }
        }
      }
      if Clean(split, classes) {
        forall stem, line | stem in split.labels && line in split.labels[stem] ensures line == [] || ValidLine(line, classes) {
          var image :| image in split.images && image.stem == stem;
          var i :| 0 <= i < |split.labels[stem]| && split.labels[stem][i] == line;
          assert CleanLine(LinesOf(split, image)[i], classes);
        }
      }
    }
  }

  lemma AcceptedMeans(dataset: Configuration, classes: nat)
    ensures (forall k :: 0 <= k < 3 ==> Accepted(dataset, SPLITS[k].0, classes)) <==>
              && HasGood(dataset, "train", classes) && HasGood(dataset, "val", classes)
              && (HasGood(dataset, "test", classes) || "test" !in dataset || dataset["test"] == Absent)
  {
    assert SPLITS[0].0 == "train" && SPLITS[1].0 == "val" && SPLITS[2].0 == "test";
    assert "train"[1] == 'r' && "val"[1] == 'a' && "test"[1] == 'e';
    CleanMeans(dataset, "train", classes);
    CleanMeans(dataset, "val", classes);
    CleanMeans(dataset, "test", classes);
  }

  lemma ReportedMeans(dataset: Configuration, names: seq<string>, reports: map<string, Report>)
    requires Reported(dataset, names, reports, 3)
    ensures forall key :: key in {"train", "val", "test"} && HasGood(dataset, key, |names|) ==>
              var display := if key == "val" then "valid" else key;
              display in reports && Truthful(reports[display], dataset[key].split, names)
  {
    assert "train"[1] == 'r' && "val"[1] == 'a' && "test"[1] == 'e';
    assert SPLITS[0] == ("train", "train") && SPLITS[1] == ("val", "valid") && SPLITS[2] == ("test", "test");
    forall key | key in {"train", "val", "test"} && HasGood(dataset, key, |names|)
      ensures var display := if key == "val" then "valid" else key;
              display in reports && Truthful(reports[display], dataset[key].split, names)
    {
      var j := if key == "train" then 0 else if key == "val" then 1 else 2;
      assert EntryOf(dataset, SPLITS[j].0).Found?;
    }
  }

  lemma DisplayNamesDiffer(k: nat)
    requires k < 3
    ensures forall j :: 0 <= j < k ==> SPLITS[j].1 != SPLITS[k].1
  {
    assert SPLITS[0].1[1] == 'r' && SPLITS[1].1[1] == 'a' && SPLITS[2].1[1] == 'e';
  }
}
