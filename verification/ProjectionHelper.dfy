/** `ProjectionHelper.project`: collect the ids behind proxies, fetch them in chunks, merge in any interleaving. */
module ProjectionHelper {
  import opened Common
  import opened DocSearch
  import opened ProjectionJoin

  /** Some result holds this id at the field's path, and it is not empty. */
  ghost predicate Asked(ds: seq<Doc>, r: RefField, id: string) {
    id != "" && exists k :: 0 <= k < |ds| && Str(id) in Leaves(ds[k], r.path)
  }

  /** Whenever two reference fields hold the same id, both fetches find the same document for it. */
  ghost predicate Consistent(ds: seq<Doc>, refs: seq<RefField>, lookup: Lookup) {
    forall a, b, id :: 0 <= a < |refs| && 0 <= b < |refs| && Asked(ds, refs[a], id) && Asked(ds, refs[b], id)
      ==> Full(lookup, refs[a], id) == Full(lookup, refs[b], id)
  }

  /** In particular the join is right when no id is held by two fields. */
  lemma DisjointIsConsistent(ds: seq<Doc>, refs: seq<RefField>, lookup: Lookup)
    requires forall a, b, id :: 0 <= a < b < |refs| && Asked(ds, refs[a], id) ==> !Asked(ds, refs[b], id)
    ensures Consistent(ds, refs, lookup)
  {
    assert forall a, b, id ::
        0 <= a < |refs| && 0 <= b < |refs| && a != b && Asked(ds, refs[a], id) ==> !Asked(ds, refs[b], id);
  }

  // ---- A user and a project that share an id ----

  const USER := RefField(["user"], "User", {})
  const PROJECT := RefField(["project"], "Project", {})
  const BOTH := Obj(map["user" := Str("x"), "project" := Str("x")])

  /** Every class knows every id, as a document of its own kind with a field of its own. */
  function KindOf(cls: string, only: Option<set<string>>, id: string): Option<Fields> {
    Some(map[ID := Str(id), "kind" := Str(cls), cls := Null])
  }

  lemma NamesDiffer()
    ensures "User" != "Project" && ID !in {"kind", "User", "Project"} && "kind" !in {"User", "Project"}
    ensures "user" != "project" && ["user"] != ["project"]
  {
    assert "User"[0] == 'U' && "Project"[0] == 'P' && "kind"[0] == 'k' && ID[0] == 'i';
    assert "user"[0] == 'u' && "project"[0] == 'p';
    assert ["user"][0] != ["project"][0];
  }

  lemma BothFilled(rule: Rule)
    ensures Join(BOTH, [USER, PROJECT], rule)
         == Obj(map["user" := Fill(rule, USER, Str("x")), "project" := Fill(rule, PROJECT, Str("x"))])
  {
    NamesDiffer();
    var one := Replaced(BOTH, ["user"], Filler(rule, USER));
    assert one == Obj(map["user" := Fill(rule, USER, Str("x")), "project" := Str("x")]);
    var two := Replaced(one, ["project"], Filler(rule, PROJECT));
    assert two == Obj(map["user" := Fill(rule, USER, Str("x")), "project" := Fill(rule, PROJECT, Str("x"))]);
    assert [USER, PROJECT][1..] == [PROJECT] && [PROJECT][1..] == [];
    assert Join(BOTH, [USER, PROJECT], rule) == Join(one, [PROJECT], rule);
    assert Join(one, [PROJECT], rule) == Join(two, [], rule);
  }

  /** What is left in the shared proxy, by the class whose document is merged last. */
  function Mixed(last: string): Fields {
    map[ID := Str("x"), "kind" := Str(last), "User" := Null, "Project" := Null]
  }

  /** The two documents of the id are not the same. */
  lemma SharedIdInconsistent()
    ensures ValidRefs([USER, PROJECT]) && AllJoinable([BOTH], [USER, PROJECT])
    ensures !Consistent([BOTH], [USER, PROJECT], KindOf)
  {
    NamesDiffer();
    assert USER.path[1..] == [] && PROJECT.path[1..] == [];
    assert Leaves(BOTH, USER.path) == [Str("x")] && Leaves(BOTH, PROJECT.path) == [Str("x")];
    assert [BOTH][0] == BOTH && Asked([BOTH], USER, "x") && Asked([BOTH], PROJECT, "x");
    assert [USER, PROJECT][0] == USER && [USER, PROJECT][1] == PROJECT;
    MixedDiffers();
  }

  /** The proxies after both fetches, by the class whose document is merged last. */
  function BothMerged(projectLast: bool): Table {
    var asked := Added(map[], {Some("x")});
    var user, project := KindOf("User", None, "x").value, KindOf("Project", None, "x").value;
    if projectLast then Updated(Updated(asked, user), project) else Updated(Updated(asked, project), user)
  }

  /**
    The reader then sees one mix of the two documents at both fields: every field of both, the fields they share
    from whichever was merged last. Neither field shows what a look-up of its id gives.
   */
  lemma SharedIdMixes(projectLast: bool)
    ensures var mixed := Mixed(if projectLast then "Project" else "User");
            && Show(Join(BOTH, [USER, PROJECT], ByProxy), BothMerged(projectLast))
               == Obj(map["user" := Obj(mixed), "project" := Obj(mixed)])
            && mixed != Full(KindOf, USER, "x") && mixed != Full(KindOf, PROJECT, "x")
  {
    var last := if projectLast then "Project" else "User";
    BothFilled(ByProxy);
    MixedTable(projectLast);
    ShowBoth(BothMerged(projectLast), Mixed(last));
    MixedIsNeither(last);
  }

  lemma ShowBoth(table: Table, held: Fields)
    requires Some("x") in table && table[Some("x")] == held
    ensures Show(Obj(map["user" := Ref(Some("x")), "project" := Ref(Some("x"))]), table)
         == Obj(map["user" := Obj(held), "project" := Obj(held)])
  {
    var proxied := map["user" := Ref(Some("x")), "project" := Ref(Some("x"))];
    forall k | k in proxied ensures Show(proxied[k], table) == Obj(held) {
    }
  }

  lemma MixedIsNeither(last: string)
    ensures Mixed(last) != Full(KindOf, USER, "x") && Mixed(last) != Full(KindOf, PROJECT, "x")
  {
    MixedDiffers();
    assert "User" in Mixed(last) && "Project" in Mixed(last);
  }

  lemma MixedDiffers()
    ensures Full(KindOf, USER, "x")["kind"] == Str("User") && Full(KindOf, PROJECT, "x")["kind"] == Str("Project")
    ensures "Project" !in Full(KindOf, USER, "x") && "User" !in Full(KindOf, PROJECT, "x")
  {
    NamesDiffer();
  }

  lemma MixedTable(projectLast: bool)
    ensures BothMerged(projectLast) == map[Some("x") := Mixed(if projectLast then "Project" else "User")]
  {
    NamesDiffer();
    var asked: Table := Added(map[], {Some("x")});
    var user, project := KindOf("User", None, "x").value, KindOf("Project", None, "x").value;
    assert asked == map[Some("x") := map[ID := Str("x")]];
    var first, second := if projectLast then user else project, if projectLast then project else user;
    assert Updated(asked, first) == map[Some("x") := map[ID := Str("x")] + first];
    assert map[ID := Str("x")] + first + second == Mixed(if projectLast then "Project" else "User");
  }

  ghost predicate AllJoinable(ds: seq<Doc>, refs: seq<RefField>) {
    forall k :: 0 <= k < |ds| ==> RefFree(ds[k]) && forall a :: 0 <= a < |refs| ==> ScalarLeaves(ds[k], refs[a].path)
  }

  /** Every result, with its proxies shown, is what looking each reference up one by one gives. */
  ghost predicate JoinedNaively(before: seq<Doc>, after: seq<Doc>, table: Table, refs: seq<RefField>, lookup: Lookup) {
    && |after| == |before|
    && forall k :: 0 <= k < |before| ==> Show(after[k], table) == Join(before[k], refs, ByLookup(lookup))
  }

  // ---- What the reader sees at a leaf ----

  /** The documents there are, by class and id. */
  type Whole = (string, string) -> Option<Fields>

  /** A look-up answers with the fields it is asked for, or with all, of the one document. */
  ghost predicate AnswersFrom(lookup: Lookup, whole: Whole) {
    && (forall cls, id :: whole(cls, id).Some? ==> "id" in whole(cls, id).value && whole(cls, id).value["id"] == Str(id))
    && (forall cls, id :: lookup(cls, None, id) == whole(cls, id))
    && (forall cls, only, id :: lookup(cls, Some(only), id) ==
          match whole(cls, id)
          case None => None
          case Some(doc) => Some(map f | f in doc && f in only :: doc[f]))
  }

  /**
    A leaf with an id shows the id together with each sub-field asked for that the document has, or the whole document
    when none is asked for; without a document just the id, and without an id nothing.
   */
  ghost predicate ShownLeaf(whole: Whole, cls: string, only: set<string>, leaf: Doc, shown: Doc) {
    shown.Obj? &&
    if leaf.Str? && leaf.s != "" then
      match whole(cls, leaf.s)
      case None => shown.fields == map["id" := Str(leaf.s)]
      case Some(doc) =>
        if exists f :: f in only && f != "" then
          && (forall f :: f in shown.fields <==> f == "id" || (f in only && f != "" && f in doc))
          && (forall f :: f in shown.fields ==> shown.fields[f] == if f == "id" then Str(leaf.s) else doc[f])
        else shown.fields == doc
    else shown.fields == map[]
  }

  lemma FilledIsShown(lookup: Lookup, whole: Whole, r: RefField, leaf: Doc)
    requires AnswersFrom(lookup, whole) && (leaf.Null? || leaf.Str?)
    ensures ShownLeaf(whole, r.cls, r.only, leaf, Fill(ByLookup(lookup), r, leaf))
  {
    var named := r.only - {""};
    if leaf.Str? && leaf.s != "" && whole(r.cls, leaf.s).Some? {
      var doc, shown := whole(r.cls, leaf.s).value, Full(lookup, r, leaf.s);
      if f :| f in r.only && f != "" {
        assert f in named;
        assert DocOnly(r.only) == Some({"id"} + named);
        forall f ensures f in shown <==> f == "id" || (f in r.only && f != "" && f in doc) {
        }
      } else {
        assert named == {};
        assert DocOnly(r.only) == None;
        assert shown == doc;
      }
    }
  }

  /** Each leaf of each result, in its place. */
  ghost predicate LeavesShown(before: seq<Doc>, after: seq<Doc>, table: Table, refs: seq<RefField>, whole: Whole) {
    |after| == |before| && forall k, a :: 0 <= k < |before| && 0 <= a < |refs| ==>
      FieldShown(Leaves(before[k], refs[a].path), Leaves(Show(after[k], table), refs[a].path), refs[a], whole)
  }

  ghost predicate FieldShown(leaves: seq<Doc>, shown: seq<Doc>, r: RefField, whole: Whole) {
    |shown| == |leaves| && forall j :: 0 <= j < |leaves| ==> ShownLeaf(whole, r.cls, r.only, leaves[j], shown[j])
  }

  /** The naive join shows each leaf so. */
  lemma NaiveShows(
    before: seq<Doc>, after: seq<Doc>, table: Table, refs: seq<RefField>, lookup: Lookup, whole: Whole)
    requires ValidRefs(refs) && AllJoinable(before, refs) && AnswersFrom(lookup, whole)
    requires JoinedNaively(before, after, table, refs, lookup)
    ensures LeavesShown(before, after, table, refs, whole)
  {
    forall k, a | 0 <= k < |before| && 0 <= a < |refs|
      ensures FieldShown(Leaves(before[k], refs[a].path), Leaves(Show(after[k], table), refs[a].path), refs[a], whole)
    {
      JoinedLeaves(before[k], refs, ByLookup(lookup), a);
      var leaves := Leaves(before[k], refs[a].path);
      assert ScalarLeaves(before[k], refs[a].path);
      forall j | 0 <= j < |leaves| ensures ShownLeaf(whole, refs[a].cls, refs[a].only, leaves[j], Fill(ByLookup(lookup), refs[a], leaves[j])) {
        assert leaves[j] in leaves;
        FilledIsShown(lookup, whole, refs[a], leaves[j]);
      }
    }
  }

  // ---- The table of proxies ----

  ghost function KeysAt(ds: seq<Doc>, p: GlobPath): set<Key> {
    set d, leaf | d in ds && leaf in Leaves(d, p) :: KeyOf(leaf)
  }

  lemma AddedTwice(table: Table, a: set<Key>, b: set<Key>)
    ensures Added(Added(table, a), b) == Added(table, a + b)
  {
  }

  lemma KeySetConcat(a: seq<Doc>, b: seq<Doc>)
    ensures KeySet(a + b) == KeySet(a) + KeySet(b)
  {
  }

  lemma KeysAtSnoc(ds: seq<Doc>, d: Doc, p: GlobPath)
    ensures KeysAt(ds + [d], p) == KeysAt(ds, p) + KeySet(Leaves(d, p))
  {
    assert forall x :: x in ds + [d] <==> x in ds || x == d;
  }

  /** The leaves found in the items of a list. */
  function LeavesOfAll(items: seq<Doc>, p: GlobPath): seq<Doc> {
    Flatten(seq(|items|, i requires 0 <= i < |items| => Leaves(items[i], p)))
  }

  lemma {:induction false} FlattenSnoc(ss: seq<seq<Doc>>, s: seq<Doc>)
    ensures Flatten(ss + [s]) == Flatten(ss) + s
  {
    if ss == [] {
      assert ([] + [s])[1..] == [] && Flatten<Doc>([]) == [];
    } else {
      assert (ss + [s])[1..] == ss[1..] + [s];
      FlattenSnoc(ss[1..], s);
    }
  }

  lemma LeavesOfAllSnoc(items: seq<Doc>, i: nat, p: GlobPath)
    requires i < |items|
    ensures LeavesOfAll(items[..i + 1], p) == LeavesOfAll(items[..i], p) + Leaves(items[i], p)
  {
    var less, more := items[..i], items[..i + 1];
    var ss := seq(|less|, j requires 0 <= j < |less| => Leaves(less[j], p));
    assert seq(|more|, j requires 0 <= j < |more| => Leaves(more[j], p)) == ss + [Leaves(items[i], p)];
    FlattenSnoc(ss, Leaves(items[i], p));
  }

  // ---- Fetching in chunks ----

  /** The documents one field's fetches return, chunk after chunk. */
  function Stream(fetch: Fetch, r: RefField, ids: seq<string>, page: nat): seq<Fields>
    requires page > 0
    decreases |ids|
  {
    if ids == [] then []
    else
      var n := Min(page, |ids|);
      fetch(r.cls, DocOnly(r.only), ids[..n]) + Stream(fetch, r, ids[n..], page)
  }

  /** Chunking loses nothing: the stream answers the whole list of ids. */
  lemma {:induction false} StreamAnswers(fetch: Fetch, lookup: Lookup, r: RefField, ids: seq<string>, page: nat)
    requires page > 0 && Honest(fetch, lookup, r)
    ensures Answers(Stream(fetch, r, ids, page), lookup, r, ids)
    decreases |ids|
  {
    if ids != [] {
      var n := Min(page, |ids|);
      var head, tail := ids[..n], ids[n..];
      var batch, rest := fetch(r.cls, DocOnly(r.only), head), Stream(fetch, r, tail, page);
      assert Answers(batch, lookup, r, head);
      StreamAnswers(fetch, lookup, r, tail, page);
      assert ids == head + tail;
      forall e | e in batch + rest ensures AnswersOne(e, lookup, r, ids) {
        if e in batch {
          assert AnswersOne(e, lookup, r, head);
        } else {
          assert AnswersOne(e, lookup, r, tail);
        }
      }
    }
  }

  // ---- What the proxies hold while the fetches are being merged ----

  /** Falsy keys still hold their fresh, empty proxy. */
  predicate FalsyFresh(table: Table) {
    forall k :: k in table && !Truthy(k) ==> table[k] == map[]
  }

  /** A proxy asked for by a field holds either only its id or already the field's whole document. */
  ghost predicate HalfFilled(table: Table, ds: seq<Doc>, r: RefField, lookup: Lookup) {
    forall id :: Asked(ds, r, id) ==>
      Some(id) in table && (table[Some(id)] == Proxy(Some(id)) || table[Some(id)] == Full(lookup, r, id))
  }

  /** What is not yet filled is still to come. */
  ghost predicate StillToCome(table: Table, ds: seq<Doc>, r: RefField, lookup: Lookup, pending: seq<Fields>) {
    forall id :: Asked(ds, r, id) ==>
      Some(id) in table && (table[Some(id)] == Full(lookup, r, id)
                            || (Found(lookup, r, id).Some? && Found(lookup, r, id).value in pending))
  }

  ghost predicate OnlyAsked(ds: seq<Doc>, r: RefField, lookup: Lookup, pending: seq<Fields>) {
    forall e :: e in pending ==> exists id :: Asked(ds, r, id) && Found(lookup, r, id) == Some(e)
  }

  ghost predicate AllHalfFilled(table: Table, ds: seq<Doc>, refs: seq<RefField>, lookup: Lookup) {
    forall a :: 0 <= a < |refs| ==> HalfFilled(table, ds, refs[a], lookup)
  }

  ghost predicate AllStillToCome(table: Table, ds: seq<Doc>, refs: seq<RefField>, lookup: Lookup, pending: seq<seq<Fields>>)
    requires |pending| == |refs|
  {
    forall a :: 0 <= a < |refs| ==> StillToCome(table, ds, refs[a], lookup, pending[a])
  }

  ghost predicate AllOnlyAsked(ds: seq<Doc>, refs: seq<RefField>, lookup: Lookup, pending: seq<seq<Fields>>)
    requires |pending| == |refs|
  {
    forall a :: 0 <= a < |refs| ==> OnlyAsked(ds, refs[a], lookup, pending[a])
  }

  /** A document merged for one id leaves the other proxies alone. */
  lemma UpdatedElsewhere(table: Table, e: Fields, i: string, k: Key)
    requires ID in e && e[ID] == Str(i) && k in table && k != Some(i)
    ensures k in Updated(table, e) && Updated(table, e)[k] == table[k]
  {
  }

  /** Merging a field's document into a half filled proxy fills it. */
  lemma UpdatedHere(table: Table, r: RefField, lookup: Lookup, e: Fields, i: string)
    requires Some(i) in table && (table[Some(i)] == Proxy(Some(i)) || table[Some(i)] == Full(lookup, r, i))
    requires Found(lookup, r, i) == Some(e) && ID in e && e[ID] == Str(i)
    ensures Some(i) in Updated(table, e) && Updated(table, e)[Some(i)] == Full(lookup, r, i)
  {
  }

  /** Merging the next document of one field keeps every proxy half filled and nothing is lost. */
  lemma MergeKeeps(table: Table, ds: seq<Doc>, refs: seq<RefField>, lookup: Lookup, pending: seq<seq<Fields>>, b: nat)
    requires |pending| == |refs| && b < |refs| && pending[b] != []
    requires forall a :: 0 <= a < |refs| ==> IdsMatch(lookup, refs[a])
    requires Consistent(ds, refs, lookup)
    requires AllHalfFilled(table, ds, refs, lookup) && AllStillToCome(table, ds, refs, lookup, pending)
    requires AllOnlyAsked(ds, refs, lookup, pending)
    ensures AllHalfFilled(Updated(table, pending[b][0]), ds, refs, lookup)
    ensures AllStillToCome(Updated(table, pending[b][0]), ds, refs, lookup, pending[b := pending[b][1..]])
  {
    var e, next := pending[b][0], pending[b := pending[b][1..]];
    assert OnlyAsked(ds, refs[b], lookup, pending[b]) && e in pending[b];
    var i :| Asked(ds, refs[b], i) && Found(lookup, refs[b], i) == Some(e);
    var after := Updated(table, e);
    assert HalfFilled(table, ds, refs[b], lookup);
    UpdatedHere(table, refs[b], lookup, e, i);
    forall a | 0 <= a < |refs|
      ensures HalfFilled(after, ds, refs[a], lookup)
      ensures StillToCome(after, ds, refs[a], lookup, next[a])
    {
      assert HalfFilled(table, ds, refs[a], lookup) && StillToCome(table, ds, refs[a], lookup, pending[a]);
      forall id | Asked(ds, refs[a], id) && id != i
        ensures Some(id) in after && after[Some(id)] == table[Some(id)]
      {
        UpdatedElsewhere(table, e, i, Some(id));
      }
      assert forall x :: x in pending[a] && x != e ==> x in next[a];
    }
  }

  lemma OnlyAskedKept(ds: seq<Doc>, refs: seq<RefField>, lookup: Lookup, pending: seq<seq<Fields>>, b: nat)
    requires |pending| == |refs| && b < |refs| && pending[b] != []
    requires AllOnlyAsked(ds, refs, lookup, pending)
    ensures AllOnlyAsked(ds, refs, lookup, pending[b := pending[b][1..]])
  {
    var next := pending[b := pending[b][1..]];
    forall a | 0 <= a < |refs| ensures OnlyAsked(ds, refs[a], lookup, next[a]) {
      assert OnlyAsked(ds, refs[a], lookup, pending[a]);
      assert forall e :: e in next[a] ==> e in pending[a];
    }
  }

  /** No merge touches the proxies of empty ids, or asks for new ones. */
  lemma MergeKeepsFalsy(table: Table, ds: seq<Doc>, r: RefField, lookup: Lookup, pending: seq<Fields>)
    requires pending != [] && OnlyAsked(ds, r, lookup, pending) && IdsMatch(lookup, r) && FalsyFresh(table)
    ensures FalsyFresh(Updated(table, pending[0])) && Updated(table, pending[0]).Keys == table.Keys
  {
    assert pending[0] in pending;
    var i :| Asked(ds, r, i) && Found(lookup, r, i) == Some(pending[0]);
  }

  // ---- What the table means for the result ----

  /** The proxies hold each asked id's whole document, and nothing for empty ids. */
  ghost predicate Filled(table: Table, ds: seq<Doc>, refs: seq<RefField>, lookup: Lookup) {
    && FalsyFresh(table)
    && (forall a, id :: 0 <= a < |refs| && Asked(ds, refs[a], id) ==>
         Some(id) in table && table[Some(id)] == Full(lookup, refs[a], id))
  }

  ghost predicate AllKeysIn(ds: seq<Doc>, refs: seq<RefField>, table: Table) {
    forall a :: 0 <= a < |refs| ==> KeysAt(ds, refs[a].path) <= table.Keys
  }

  lemma ShownByTable(ds: seq<Doc>, refs: seq<RefField>, table: Table, k: nat)
    requires ValidRefs(refs) && AllJoinable(ds, refs) && AllKeysIn(ds, refs, table) && k < |ds|
    ensures Show(Join(ds[k], refs, ByProxy), table) == Join(ds[k], refs, ByTable(table))
  {
    forall a | 0 <= a < |refs|
      ensures Clear(ds[k], refs[a].path) && KeySet(Leaves(ds[k], refs[a].path)) <= table.Keys
    {
      RefFreeIsClear(ds[k], refs[a].path);
      assert ds[k] in ds && KeysAt(ds, refs[a].path) <= table.Keys;
      assert forall leaf :: leaf in Leaves(ds[k], refs[a].path) ==> KeyOf(leaf) in KeysAt(ds, refs[a].path);
    }
    ShowJoin(ds[k], refs, table);
    ShowRefFree(ds[k], table);
  }

  lemma FilledIsNaive(ds: seq<Doc>, refs: seq<RefField>, table: Table, lookup: Lookup, k: nat)
    requires ValidRefs(refs) && AllJoinable(ds, refs) && AllKeysIn(ds, refs, table) && k < |ds|
    requires Filled(table, ds, refs, lookup)
    ensures Join(ds[k], refs, ByTable(table)) == Join(ds[k], refs, ByLookup(lookup))
  {
    forall a | 0 <= a < |refs| ensures FillsAlike(Leaves(ds[k], refs[a].path), refs[a], ByTable(table), ByLookup(lookup)) {
      var leaves := Leaves(ds[k], refs[a].path);
      assert ScalarLeaves(ds[k], refs[a].path);
      assert KeysAt(ds, refs[a].path) <= table.Keys;
      forall leaf | leaf in leaves ensures Fill(ByTable(table), refs[a], leaf) == Fill(ByLookup(lookup), refs[a], leaf) {
        assert ds[k] in ds && KeyOf(leaf) in KeysAt(ds, refs[a].path);
        if Truthy(KeyOf(leaf)) {
          assert Asked(ds, refs[a], leaf.s);
        }
      }
    }
    AlikeJoins(ds[k], refs, ByTable(table), ByLookup(lookup));
  }

  /** A table cannot hold two different documents for one id. */
  lemma NaiveIsConsistent(ds: seq<Doc>, refs: seq<RefField>, table: Table, lookup: Lookup)
    requires ValidRefs(refs) && AllKeysIn(ds, refs, table)
    requires forall k :: 0 <= k < |ds| ==> Join(ds[k], refs, ByTable(table)) == Join(ds[k], refs, ByLookup(lookup))
    ensures Consistent(ds, refs, lookup)
  {
    forall a, id | 0 <= a < |refs| && Asked(ds, refs[a], id)
      ensures Some(id) in table && table[Some(id)] == Full(lookup, refs[a], id)
    {
      var k :| 0 <= k < |ds| && Str(id) in Leaves(ds[k], refs[a].path);
      assert ds[k] in ds && KeyOf(Str(id)) in KeysAt(ds, refs[a].path);
      assert KeysAt(ds, refs[a].path) <= table.Keys;
      HeldIsFull(ds[k], refs, table, lookup, a, id);
    }
  }

  /** A leaf that the table and the look-up fill alike: its proxy holds what the look-up finds. */
  lemma HeldIsFull(d: Doc, refs: seq<RefField>, table: Table, lookup: Lookup, a: nat, id: string)
    requires ValidRefs(refs) && Join(d, refs, ByTable(table)) == Join(d, refs, ByLookup(lookup))
    requires a < |refs| && id != "" && Str(id) in Leaves(d, refs[a].path) && Some(id) in table
    ensures table[Some(id)] == Full(lookup, refs[a], id)
  {
    JoinsAgreeIff(d, refs, ByTable(table), ByLookup(lookup));
    assert FillsAlike(Leaves(d, refs[a].path), refs[a], ByTable(table), ByLookup(lookup));
    assert Fill(ByTable(table), refs[a], Str(id)) == Fill(ByLookup(lookup), refs[a], Str(id));
  }

  lemma AskedKeys(ds: seq<Doc>, r: RefField)
    requires forall k :: 0 <= k < |ds| ==> ScalarLeaves(ds[k], r.path)
    ensures forall id :: Asked(ds, r, id) <==> id != "" && Some(id) in KeysAt(ds, r.path)
  {
    forall id ensures Asked(ds, r, id) <==> id != "" && Some(id) in KeysAt(ds, r.path) {
      if Some(id) in KeysAt(ds, r.path) {
        var d, leaf :| d in ds && leaf in Leaves(d, r.path) && KeyOf(leaf) == Some(id);
        assert leaf == Str(id);
      }
      if Asked(ds, r, id) {
        var k :| 0 <= k < |ds| && Str(id) in Leaves(ds[k], r.path);
        assert ds[k] in ds && KeyOf(Str(id)) == Some(id);
      }
    }
  }

  /** The lists of the first fields hold exactly the ids asked for. */
  ghost predicate AsksListed(ds: seq<Doc>, refs: seq<RefField>, ids: seq<seq<string>>)
    requires |ids| <= |refs|
  {
    forall b, id :: 0 <= b < |ids| ==> (id in ids[b] <==> Asked(ds, refs[b], id))
  }

  /** No document has been merged yet. */
  predicate Untouched(table: Table) {
    forall key :: key in table ==> table[key] == Proxy(key)
  }

  /** The state between two collections: fields from `a` on are still to be replaced. */
  ghost predicate Between(before: seq<Doc>, current: seq<Doc>, refs: seq<RefField>, a: nat)
    requires a <= |refs|
  {
    && |current| == |before|
    && forall k :: 0 <= k < |before| ==>
         && Join(current[k], refs[a..], ByProxy) == Join(before[k], refs, ByProxy)
         && forall b :: a <= b < |refs| ==> Leaves(current[k], refs[b].path) == Leaves(before[k], refs[b].path)
  }

  lemma BetweenStep(before: seq<Doc>, current: seq<Doc>, next: seq<Doc>, refs: seq<RefField>, a: nat)
    requires ValidRefs(refs) && a < |refs| && Between(before, current, refs, a)
    requires |next| == |current|
    requires forall k :: 0 <= k < |next| ==> next[k] == Replaced(current[k], refs[a].path, Filler(ByProxy, refs[a]))
    ensures Between(before, next, refs, a + 1)
  {
    assert refs[a..][0] == refs[a] && refs[a..][1..] == refs[a + 1..];
    forall k | 0 <= k < |before|
      ensures Join(next[k], refs[a + 1..], ByProxy) == Join(before[k], refs, ByProxy)
      ensures forall b :: a < b < |refs| ==> Leaves(next[k], refs[b].path) == Leaves(before[k], refs[b].path)
    {
      forall b | a < b < |refs| ensures Leaves(next[k], refs[b].path) == Leaves(before[k], refs[b].path) {
        OtherPathKept(current[k], refs[a].path, refs[b].path, Filler(ByProxy, refs[a]));
      }
    }
  }

  /** A field not yet replaced still holds the same ids. */
  lemma BetweenAsks(before: seq<Doc>, current: seq<Doc>, refs: seq<RefField>, a: nat)
    requires a < |refs| && Between(before, current, refs, a)
    ensures KeysAt(current, refs[a].path) == KeysAt(before, refs[a].path)
    ensures forall id :: Asked(current, refs[a], id) <==> Asked(before, refs[a], id)
  {
    KeysCarryOver(before, current, refs[a].path);
    KeysCarryOver(current, before, refs[a].path);
    assert forall k :: 0 <= k < |before| ==> Leaves(current[k], refs[a].path) == Leaves(before[k], refs[a].path);
  }

  lemma KeysCarryOver(one: seq<Doc>, two: seq<Doc>, p: GlobPath)
    requires |one| == |two| && forall k :: 0 <= k < |one| ==> Leaves(one[k], p) == Leaves(two[k], p)
    ensures KeysAt(one, p) <= KeysAt(two, p)
  {
    forall key | key in KeysAt(one, p) ensures key in KeysAt(two, p) {
      var d, leaf :| d in one && leaf in Leaves(d, p) && key == KeyOf(leaf);
      var k :| 0 <= k < |one| && one[k] == d;
      assert two[k] in two && leaf in Leaves(two[k], p);
    }
  }

  ghost predicate KeysKnown(ds: seq<Doc>, refs: seq<RefField>, a: nat, table: Table)
    requires a <= |refs|
  {
    forall b :: 0 <= b < a ==> KeysAt(ds, refs[b].path) <= table.Keys
  }

  lemma KeysMore(ds: seq<Doc>, refs: seq<RefField>, a: nat, table: Table, keys: set<Key>)
    requires a < |refs| && KeysKnown(ds, refs, a, table) && KeysAt(ds, refs[a].path) <= keys
    ensures KeysKnown(ds, refs, a + 1, Added(table, keys))
    ensures Untouched(table) ==> Untouched(Added(table, keys))
  {
    assert Added(table, keys).Keys == table.Keys + keys;
  }

  /** What holds after the collection of the first fields. */
  ghost predicate Collecting(before: seq<Doc>, current: seq<Doc>, refs: seq<RefField>, ids: seq<seq<string>>, table: Table) {
    && |ids| <= |refs|
    && AsksListed(before, refs, ids)
    && Between(before, current, refs, |ids|)
    && KeysKnown(before, refs, |ids|, table)
    && Untouched(table)
  }

  lemma AsksSnoc(before: seq<Doc>, refs: seq<RefField>, ids: seq<seq<string>>, found: seq<string>)
    requires |ids| < |refs| && AsksListed(before, refs, ids)
    requires forall id :: id in found <==> Asked(before, refs[|ids|], id)
    ensures AsksListed(before, refs, ids + [found])
  {
    var more := ids + [found];
    forall b, id | 0 <= b < |more| ensures id in more[b] <==> Asked(before, refs[b], id) {
      if b < |ids| {
        assert more[b] == ids[b];
      }
    }
  }

  lemma CollectingStep(before: seq<Doc>, current: seq<Doc>, next: seq<Doc>, refs: seq<RefField>, ids: seq<seq<string>>,
                       found: seq<string>, table: Table)
    requires ValidRefs(refs) && |ids| < |refs| && Collecting(before, current, refs, ids, table)
    requires |next| == |current|
    requires forall k :: 0 <= k < |next| ==> next[k] == Replaced(current[k], refs[|ids|].path, Filler(ByProxy, refs[|ids|]))
    requires forall id :: id in found <==> Asked(current, refs[|ids|], id)
    ensures Collecting(before, next, refs, ids + [found], Added(table, KeysAt(current, refs[|ids|].path)))
  {
    var more, fuller := ids + [found], Added(table, KeysAt(current, refs[|ids|].path));
    assert Between(before, next, refs, |more|) by {
      BetweenStep(before, current, next, refs, |ids|);
    }
    assert AsksListed(before, refs, more) && KeysKnown(before, refs, |more|, fuller) && Untouched(fuller) by {
      BetweenAsks(before, current, refs, |ids|);
      AsksSnoc(before, refs, ids, found);
      KeysMore(before, refs, |ids|, table, KeysAt(current, refs[|ids|].path));
    }
  }

  function Total(pending: seq<seq<Fields>>): nat {
    if pending == [] then 0 else |pending[0]| + Total(pending[1..])
  }

  lemma {:induction false} TotalStep(pending: seq<seq<Fields>>, a: nat)
    requires a < |pending| && pending[a] != []
    ensures Total(pending[a := pending[a][1..]]) < Total(pending)
  {
    var next := pending[a := pending[a][1..]];
    if a == 0 {
      assert next[1..] == pending[1..];
    } else {
      assert next[1..] == pending[1..][a - 1 := pending[a][1..]];
      TotalStep(pending[1..], a - 1);
    }
  }

  /** What the fetches return is asked for, and is everything that was asked for. */
  lemma Fetched(ds: seq<Doc>, refs: seq<RefField>, fetch: Fetch, lookup: Lookup, ids: seq<seq<string>>, page: nat,
                fetched: seq<seq<Fields>>, table: Table)
    requires page > 0 && |ids| == |refs| == |fetched|
    requires forall a :: 0 <= a < |refs| ==> Honest(fetch, lookup, refs[a])
    requires AsksListed(ds, refs, ids)
    requires forall a :: 0 <= a < |refs| ==> fetched[a] == Stream(fetch, refs[a], ids[a], page)
    requires AllKeysIn(ds, refs, table)
    requires Untouched(table)
    ensures AllOnlyAsked(ds, refs, lookup, fetched)
    ensures FalsyFresh(table) && AllHalfFilled(table, ds, refs, lookup) && AllStillToCome(table, ds, refs, lookup, fetched)
  {
    forall a | 0 <= a < |refs|
      ensures OnlyAsked(ds, refs[a], lookup, fetched[a])
      ensures HalfFilled(table, ds, refs[a], lookup) && StillToCome(table, ds, refs[a], lookup, fetched[a])
    {
      StreamAnswers(fetch, lookup, refs[a], ids[a], page);
      assert KeysAt(ds, refs[a].path) <= table.Keys;
      forall id | Asked(ds, refs[a], id) ensures Some(id) in table && id in ids[a] {
        var k :| 0 <= k < |ds| && Str(id) in Leaves(ds[k], refs[a].path);
        assert ds[k] in ds && KeyOf(Str(id)) == Some(id);
      }
      forall e | e in fetched[a] ensures exists id :: Asked(ds, refs[a], id) && Found(lookup, refs[a], id) == Some(e) {
        assert AnswersOne(e, lookup, refs[a], ids[a]);
      }
    }
  }

  lemma Joined(ds: seq<Doc>, after: seq<Doc>, refs: seq<RefField>, table: Table, lookup: Lookup)
    requires ValidRefs(refs) && AllJoinable(ds, refs) && AllKeysIn(ds, refs, table)
    requires |after| == |ds| && forall k :: 0 <= k < |ds| ==> after[k] == Join(ds[k], refs, ByProxy)
    requires Consistent(ds, refs, lookup) ==> Filled(table, ds, refs, lookup)
    ensures JoinedNaively(ds, after, table, refs, lookup) <==> Consistent(ds, refs, lookup)
  {
    forall k | 0 <= k < |ds| ensures Show(after[k], table) == Join(ds[k], refs, ByTable(table)) {
      ShownByTable(ds, refs, table, k);
    }
    if Consistent(ds, refs, lookup) {
      forall k | 0 <= k < |ds| ensures Join(ds[k], refs, ByTable(table)) == Join(ds[k], refs, ByLookup(lookup)) {
        FilledIsNaive(ds, refs, table, lookup, k);
      }
    }
    if JoinedNaively(ds, after, table, refs, lookup) {
      NaiveIsConsistent(ds, refs, table, lookup);
    }
  }

  // ---- The helper ----

  class ProjectionHelper {
    const manager: ProxyManager
    const refs: seq<RefField>
    const page: nat

    constructor (refs: seq<RefField>, page: nat)
      ensures this.refs == refs && this.page == page
      ensures fresh(manager) && manager.proxies == map[]
    {
      this.refs := refs;
      this.page := page;
      this.manager := new ProxyManager();
    }

    /** `_search` with the manager's `add` as factory. */
    method SearchAndReplace(target: Doc, r: RefField, p: GlobPath) returns (replaced: Doc, values: seq<Doc>)
      requires Proper(p)
      modifies manager
      ensures replaced == Replaced(target, p, Filler(ByProxy, r))
      ensures values == Leaves(target, p)
      ensures manager.proxies == Added(old(manager.proxies), KeySet(values))
      decreases |p|, 0
    {
      if target.Obj? && p[0] in target.fields {
        var value := target.fields[p[0]];
        if |p| == 1 {
          assert p[1..] == [];
          var proxy := manager.Add(KeyOf(value));
          replaced, values := Obj(target.fields[p[0] := proxy]), [value];
          assert KeySet([value]) == {KeyOf(value)};
        } else {
          var inner;
          inner, values := SearchAndReplace(value, r, p[1..]);
          replaced := Obj(target.fields[p[0] := inner]);
        }
      } else if target.Arr? && p[0] == STAR {
        var items;
        items, values := SearchInList(target.items, r, p[1..]);
        replaced := Arr(items);
      } else {
        replaced, values := target, [];
      }
    }

    /** The search in every item of a list, the values found one after the other. */
    method SearchInList(targets: seq<Doc>, r: RefField, p: GlobPath) returns (items: seq<Doc>, values: seq<Doc>)
      requires Proper(p)
      modifies manager
      ensures |items| == |targets|
      ensures forall j :: 0 <= j < |targets| ==> items[j] == Replaced(targets[j], p, Filler(ByProxy, r))
      ensures values == LeavesOfAll(targets, p)
      ensures manager.proxies == Added(old(manager.proxies), KeySet(values))
      decreases |p|, 1
    {
      items, values := [], [];
      assert targets[..0] == [];
      for i := 0 to |targets|
        invariant |items| == i
        invariant forall j :: 0 <= j < i ==> items[j] == Replaced(targets[j], p, Filler(ByProxy, r))
        invariant values == LeavesOfAll(targets[..i], p)
        invariant manager.proxies == Added(old(manager.proxies), KeySet(values))
      {
        var item, found := SearchAndReplace(targets[i], r, p);
        KeySetConcat(values, found);
        AddedTwice(old(manager.proxies), KeySet(values), KeySet(found));
        LeavesOfAllSnoc(targets, i, p);
        items := items + [item];
        values := values + found;
      }
      assert targets[..|targets|] == targets;
    }

    /** The ids of a set of keys, without the falsy ones, in any order. */
    static method Listed(keys: set<Key>) returns (ids: seq<string>)
      ensures forall id :: id in ids <==> id != "" && Some(id) in keys
    {
      ids := [];
      var todo := set key | key in keys && Truthy(key);
      while todo != {}
        invariant todo <= keys
        invariant forall key :: key in todo ==> Truthy(key)
        invariant forall id :: id in ids ==> id != "" && Some(id) in keys
        invariant forall id :: id != "" && Some(id) in keys ==> Some(id) in todo || id in ids
        decreases |todo|
      {
        var key :| key in todo;
        ids := ids + [key.value];
        todo := todo - {key};
      }
    }

    /** Collects the distinct ids at one field of all results, leaving a proxy in place of each. */
    method CollectIds(results: array<Doc>, r: RefField) returns (ids: seq<string>)
      requires Proper(r.path)
      requires forall k :: 0 <= k < results.Length ==> ScalarLeaves(results[k], r.path)
      modifies manager, results
      ensures forall k :: 0 <= k < results.Length ==> results[k] == Replaced(old(results[k]), r.path, Filler(ByProxy, r))
      ensures manager.proxies == Added(old(manager.proxies), KeysAt(old(results[..]), r.path))
      ensures forall id :: id in ids <==> Asked(old(results[..]), r, id)
    {
      ghost var before := results[..];
      var keys: set<Key> := {};
      for k := 0 to results.Length
        invariant forall j :: 0 <= j < k ==> results[j] == Replaced(before[j], r.path, Filler(ByProxy, r))
        invariant forall j :: k <= j < results.Length ==> results[j] == before[j]
        invariant keys == KeysAt(before[..k], r.path)
        invariant manager.proxies == Added(old(manager.proxies), keys)
      {
        var replaced, values := SearchAndReplace(results[k], r, r.path);
        assert before[..k + 1] == before[..k] + [before[k]];
        KeysAtSnoc(before[..k], before[k], r.path);
        AddedTwice(old(manager.proxies), keys, KeySet(values));
        results[k] := replaced;
        keys := keys + set v | v in values :: KeyOf(v);
      }
      assert before[..results.Length] == before;
      AskedKeys(before, r);
      ids := Listed(keys);
    }

    /** Collects every field in turn. */
    method CollectAll(results: array<Doc>) returns (ids: seq<seq<string>>)
      requires ValidRefs(refs) && AllJoinable(results[..], refs) && manager.proxies == map[]
      modifies manager, results
      ensures |ids| == |refs|
      ensures AsksListed(old(results[..]), refs, ids)
      ensures forall k :: 0 <= k < results.Length ==> results[k] == Join(old(results[k]), refs, ByProxy)
      ensures AllKeysIn(old(results[..]), refs, manager.proxies)
      ensures Untouched(manager.proxies)
    {
      ghost var before := results[..];
      ids := [];
      assert refs[0..] == refs;
      for a := 0 to |refs|
        invariant |ids| == a && Collecting(before, results[..], refs, ids, manager.proxies)
      {
        ghost var current, table := results[..], manager.proxies;
        BetweenAsks(before, current, refs, a);
        var found := CollectIds(results, refs[a]);
        CollectingStep(before, current, results[..], refs, ids, found, table);
        ids := ids + [found];
      }
      assert refs[|refs|..] == [];
    }

    /** Merges the fetched documents: the fields' fetches run side by side, so any of them may be next. */
    method MergeAll(fetched: seq<seq<Fields>>, ghost ds: seq<Doc>, ghost lookup: Lookup)
      requires |fetched| == |refs| && AllOnlyAsked(ds, refs, lookup, fetched)
      requires forall a :: 0 <= a < |refs| ==> IdsMatch(lookup, refs[a])
      requires FalsyFresh(manager.proxies)
      requires AllHalfFilled(manager.proxies, ds, refs, lookup) && AllStillToCome(manager.proxies, ds, refs, lookup, fetched)
      modifies manager
      ensures manager.proxies.Keys == old(manager.proxies.Keys)
      ensures Consistent(ds, refs, lookup) ==> Filled(manager.proxies, ds, refs, lookup)
    {
      var pending := fetched;
      while exists a :: 0 <= a < |pending| && pending[a] != []
        invariant |pending| == |refs| && AllOnlyAsked(ds, refs, lookup, pending)
        invariant FalsyFresh(manager.proxies) && manager.proxies.Keys == old(manager.proxies.Keys)
        invariant Consistent(ds, refs, lookup) ==>
          AllHalfFilled(manager.proxies, ds, refs, lookup) && AllStillToCome(manager.proxies, ds, refs, lookup, pending)
        decreases Total(pending)
      {
        var a: nat :| a < |pending| && pending[a] != [];
        if Consistent(ds, refs, lookup) {
          MergeKeeps(manager.proxies, ds, refs, lookup, pending, a);
        }
        OnlyAskedKept(ds, refs, lookup, pending, a);
        assert OnlyAsked(ds, refs[a], lookup, pending[a]);
        MergeKeepsFalsy(manager.proxies, ds, refs[a], lookup, pending[a]);
        TotalStep(pending, a);
        manager.Update(pending[a][0]);
        pending := pending[a := pending[a][1..]];
      }
      if Consistent(ds, refs, lookup) {
        forall a, id | 0 <= a < |refs| && Asked(ds, refs[a], id)
          ensures Some(id) in manager.proxies && manager.proxies[Some(id)] == Full(lookup, refs[a], id)
        {
          assert StillToCome(manager.proxies, ds, refs[a], lookup, pending[a]);
        }
      }
    }

    /**
      The batched join is the naive one, for any results, chunk size, order of the answers and interleaving of
      the fields' fetches, exactly when fields that share an id find the same document for it.
     */
    method Project(results: array<Doc>, fetch: Fetch, ghost lookup: Lookup, ghost whole: Whole)
      requires ValidRefs(refs) && page > 0 && AllJoinable(results[..], refs) && manager.proxies == map[]
      requires forall a :: 0 <= a < |refs| ==> Honest(fetch, lookup, refs[a])
      modifies manager, results
      ensures JoinedNaively(old(results[..]), results[..], manager.proxies, refs, lookup)
         <==> Consistent(old(results[..]), refs, lookup)
      ensures Consistent(old(results[..]), refs, lookup) && AnswersFrom(lookup, whole) ==>
                LeavesShown(old(results[..]), results[..], manager.proxies, refs, whole)
    {
      ghost var ds := results[..];
      var ids := CollectAll(results);
      ghost var after := results[..];
      var fetched: seq<seq<Fields>> := [];
      for a := 0 to |refs|
        invariant |fetched| == a
        invariant forall b :: 0 <= b < a ==> fetched[b] == Stream(fetch, refs[b], ids[b], page)
      {
        fetched := fetched + [Stream(fetch, refs[a], ids[a], page)];
      }
      Fetched(ds, refs, fetch, lookup, ids, page, fetched, manager.proxies);
      MergeAll(fetched, ds, lookup);
      Joined(ds, after, refs, manager.proxies, lookup);
      if Consistent(ds, refs, lookup) && AnswersFrom(lookup, whole) {
        NaiveShows(ds, after, manager.proxies, refs, lookup, whole);
      }
    }
  }
}
