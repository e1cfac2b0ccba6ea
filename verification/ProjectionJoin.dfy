/**
  The batched join of a query's results with the documents they refer to.

  Every reference leaf is replaced by a shared proxy dictionary; the ids are fetched per reference field, in
  chunks, and each fetched document is merged into the proxy of its id.
 */
module ProjectionJoin {
  import opened Common
  import opened DocSearch

  /** The id found at a reference leaf: `None` for a null. */
  type Key = Option<string>

  type Fields = map<string, Doc>

  /** The proxy manager's dictionary: what each proxy currently holds. */
  type Table = map<Key, Fields>

  const ID := "id"

  /** Python's truth of an id. */
  predicate Truthy(id: Key) {
    id.Some? && id.value != ""
  }

  /** A new `_ReferenceProxy`. */
  function Proxy(id: Key): Fields {
    if Truthy(id) then map[ID := Str(id.value)] else map[]
  }

  function KeyOf(leaf: Doc): Key {
    if leaf.Str? then Some(leaf.s) else None
  }

  predicate Scalar(leaf: Doc) {
    leaf.Null? || leaf.Str?
  }

  function KeySet(leaves: seq<Doc>): set<Key> {
    set leaf | leaf in leaves :: KeyOf(leaf)
  }

  /** The table after asking for the proxies of some keys. */
  function Added(table: Table, keys: set<Key>): Table {
    map k | k in table.Keys + keys :: if k in table then table[k] else Proxy(k)
  }

  /** `result.get("id")` */
  function ResultKey(result: Fields): Key {
    if ID in result then KeyOf(result[ID]) else None
  }

  /** The table after one fetched document: merged into the proxy of its id, when there is one. */
  function Updated(table: Table, result: Fields): Table {
    var key := ResultKey(result);
    if key in table then table[key := table[key] + result] else table
  }

  class ProxyManager {
    var proxies: Table

    constructor ()
      ensures proxies == map[]
    {
      proxies := map[];
    }

    method Add(id: Key) returns (proxy: Doc)
      modifies this
      ensures proxy == Ref(id)
      ensures proxies == Added(old(proxies), {id})
      ensures id in old(proxies) ==> proxies == old(proxies)
      ensures id !in old(proxies) ==>
                proxies == old(proxies)[id := if id == None || id == Some("") then map[] else map["id" := Str(id.value)]]
    {
      if id !in proxies {
        proxies := proxies[id := Proxy(id)];
      }
      proxy := Ref(id);
    }

    method Update(result: Fields)
      modifies this
      ensures proxies == Updated(old(proxies), result)
      ensures forall id :: "id" in result && result["id"] == Str(id) && Some(id) in old(proxies) ==>
                proxies == old(proxies)[Some(id) := old(proxies)[Some(id)] + result]
      ensures forall id :: "id" in result && result["id"] == Str(id) && Some(id) !in old(proxies) ==> proxies == old(proxies)
    {
      var key := ResultKey(result);
      if key in proxies {
        proxies := proxies[key := proxies[key] + result];
      }
    }
  }

  // ---- Reference fields, the fetch, and the three ways of filling a leaf ----

  /** A joined reference field: its glob path, the class it refers to, and the sub-fields asked for. */
  datatype RefField = RefField(path: GlobPath, cls: string, only: set<string>)

  /** A path the search replaces values on: it names a field last. */
  predicate Proper(p: GlobPath) {
    p != [] && p[|p| - 1] != STAR
  }

  /** The fields asked for: always with the id, and everything when none is named. */
  function DocOnly(only: set<string>): Option<set<string>> {
    var named := only - {""};
    if named == {} then None else Some({ID} + named)
  }

  /** `projection_func`: class, fields and ids to documents. */
  type Fetch = (string, Option<set<string>>, seq<string>) -> seq<Fields>

  /** What `projection_func` knows of one id. */
  type Lookup = (string, Option<set<string>>, string) -> Option<Fields>

  function Found(lookup: Lookup, r: RefField, id: string): Option<Fields> {
    lookup(r.cls, DocOnly(r.only), id)
  }

  /** `{"id": id}` extended with what was found for the id. */
  function Full(lookup: Lookup, r: RefField, id: string): Fields {
    var found := Found(lookup, r, id);
    if found.Some? then Proxy(Some(id)) + found.value else Proxy(Some(id))
  }

  /** A batch answers a request when it holds, in any order, exactly what is known of each id asked for. */
  ghost predicate Answers(batch: seq<Fields>, lookup: Lookup, r: RefField, ids: seq<string>) {
    && (forall id :: id in ids && Found(lookup, r, id).Some? ==> Found(lookup, r, id).value in batch)
    && (forall e :: e in batch ==> AnswersOne(e, lookup, r, ids))
  }

  ghost predicate AnswersOne(e: Fields, lookup: Lookup, r: RefField, ids: seq<string>) {
    exists id :: id in ids && Found(lookup, r, id) == Some(e)
  }

  /** What is known of an id carries that id. */
  ghost predicate IdsMatch(lookup: Lookup, r: RefField) {
    forall id :: Found(lookup, r, id).Some? ==>
      ID in Found(lookup, r, id).value && Found(lookup, r, id).value[ID] == Str(id)
  }

  ghost predicate Honest(fetch: Fetch, lookup: Lookup, r: RefField) {
    && IdsMatch(lookup, r)
    && forall ids: seq<string> :: Answers(fetch(r.cls, DocOnly(r.only), ids), lookup, r, ids)
  }

  /** How a leaf is filled: by its proxy, by what the proxy holds, or by looking its id up on the spot. */
  datatype Rule = ByProxy | ByTable(table: Table) | ByLookup(lookup: Lookup)

  function Fill(rule: Rule, r: RefField, leaf: Doc): Doc {
    match rule
    case ByProxy => Ref(KeyOf(leaf))
    case ByTable(table) => if KeyOf(leaf) in table then Obj(table[KeyOf(leaf)]) else leaf
    case ByLookup(lookup) => if Truthy(KeyOf(leaf)) then Obj(Full(lookup, r, leaf.s)) else Obj(map[])
  }

  function Filler(rule: Rule, r: RefField): Doc -> Doc {
    leaf => Fill(rule, r, leaf)
  }

  /** Every reference field's leaves filled, field by field. With `ByLookup` this is the naive join. */
  function Join(d: Doc, refs: seq<RefField>, rule: Rule): Doc
    decreases |refs|
  {
    if refs == [] then d
    else Join(Replaced(d, refs[0].path, Filler(rule, refs[0])), refs[1..], rule)
  }

  /** The document as its reader sees it: each proxy shown with what it holds. */
  function Show(d: Doc, table: Table): Doc {
    match d
    case Obj(fields) => Obj(map k | k in fields :: Show(fields[k], table))
    case Arr(items) => Arr(seq(|items|, i requires 0 <= i < |items| => Show(items[i], table)))
    case Ref(id) => if id in table then Obj(table[id]) else d
    case _ => d
  }

  predicate RefFree(d: Doc) {
    match d
    case Obj(fields) => forall k :: k in fields ==> RefFree(fields[k])
    case Arr(items) => forall i :: 0 <= i < |items| ==> RefFree(items[i])
    case Ref(_) => false
    case _ => true
  }

  /** Neither path leads into the other. */
  predicate Unrelated(p: GlobPath, q: GlobPath) {
    !(p <= q) && !(q <= p)
  }

  ghost predicate PathsUnrelated(refs: seq<RefField>) {
    forall a, b :: 0 <= a < |refs| && 0 <= b < |refs| && a != b ==> Unrelated(refs[a].path, refs[b].path)
  }

  predicate AllProper(refs: seq<RefField>) {
    forall a :: 0 <= a < |refs| ==> Proper(refs[a].path)
  }

  /** Going down the path never meets a proxy. */
  predicate Clear(d: Doc, p: GlobPath)
    decreases |p|
  {
    && !d.Ref?
    && (p != [] && d.Obj? && p[0] in d.fields ==> Clear(d.fields[p[0]], p[1..]))
    && (p != [] && d.Arr? && p[0] == STAR ==> forall i :: 0 <= i < |d.items| ==> Clear(d.items[i], p[1..]))
  }

  predicate ScalarLeaves(d: Doc, p: GlobPath) {
    forall leaf :: leaf in Leaves(d, p) ==> Scalar(leaf)
  }

  /** The fields can still be joined: no proxy on the way to their leaves, and only ids or nulls there. */
  ghost predicate Joinable(d: Doc, refs: seq<RefField>) {
    && (forall a :: 0 <= a < |refs| ==> Clear(d, refs[a].path))
    && (forall a :: 0 <= a < |refs| ==> ScalarLeaves(d, refs[a].path))
  }

  /** The reference fields of one projection. */
  ghost predicate ValidRefs(refs: seq<RefField>) {
    AllProper(refs) && PathsUnrelated(refs)
  }

  // ---- Reference fields of a class ----

  /** A reference field's translated path ends at the field itself. */
  lemma {:induction false} TranslatedIsProper(schema: Schema, cls: string, parts: seq<string>)
    requires EndsSimple(schema, cls, parts) && parts[|parts| - 1] != STAR
    ensures Translate(schema, Some(cls), parts).Ok? && Proper(Translate(schema, Some(cls), parts).value)
    decreases |parts|
  {
    if |parts| == 1 {
      TranslateLast(schema, cls, parts);
    } else {
      TranslateInner(schema, cls, parts);
      TranslatedIsProper(schema, schema[cls][parts[0]].cls, parts[1..]);
    }
  }

  /** Distinct reference fields of a class never lead into one another, nor do their translated paths. */
  lemma {:induction false} TranslatedAreUnrelated(schema: Schema, cls: string, p: seq<string>, q: seq<string>)
    requires EndsSimple(schema, cls, p) && EndsSimple(schema, cls, q) && p != q
    ensures var tp, tq := Translate(schema, Some(cls), p), Translate(schema, Some(cls), q);
            tp.Ok? && tq.Ok? && Unrelated(tp.value, tq.value)
    decreases |p|
  {
    EndsSimpleTranslates(schema, cls, p);
    EndsSimpleTranslates(schema, cls, q);
    var tp, tq := Translate(schema, Some(cls), p).value, Translate(schema, Some(cls), q).value;
    if p[0] != q[0] {
      assert tp[0] != tq[0];
    } else if |p| > 1 {
      assert p == [p[0]] + p[1..] && q == [q[0]] + q[1..];
      var field := schema[cls][p[0]];
      TranslateInner(schema, cls, p);
      TranslateInner(schema, cls, q);
      TranslatedAreUnrelated(schema, field.cls, p[1..], q[1..]);
      var rp, rq := Translate(schema, Some(field.cls), p[1..]).value, Translate(schema, Some(field.cls), q[1..]).value;
      if field.EmbeddedList? {
        assert tp[2..] == rp && tq[2..] == rq;
      } else {
        assert tp[1..] == rp && tq[1..] == rq;
      }
    }
  }

  /** So any choice of distinct reference fields of a class can be joined. */
  lemma ReferenceFieldsAreValid(schema: Schema, cls: string, names: seq<seq<string>>, refs: seq<RefField>)
    requires |names| == |refs|
    requires forall a :: 0 <= a < |names| ==> EndsSimple(schema, cls, names[a]) && names[a][|names[a]| - 1] != STAR
    requires forall a, b :: 0 <= a < |names| && 0 <= b < |names| && a != b ==> names[a] != names[b]
    requires forall a :: 0 <= a < |names| ==> Translate(schema, Some(cls), names[a]) == Ok(refs[a].path)
    ensures ValidRefs(refs)
  {
    forall a | 0 <= a < |refs| ensures Proper(refs[a].path) {
      TranslatedIsProper(schema, cls, names[a]);
    }
    forall a, b | 0 <= a < |refs| && 0 <= b < |refs| && a != b ensures Unrelated(refs[a].path, refs[b].path) {
      TranslatedAreUnrelated(schema, cls, names[a], names[b]);
    }
  }

  // ---- What replacing along one path does to the leaves of the paths ----

  lemma InFlatten<T>(ss: seq<seq<T>>, x: T)
    ensures x in Flatten(ss) <==> exists i :: 0 <= i < |ss| && x in ss[i]
  {
    if ss != [] {
      InFlatten(ss[1..], x);
      if x in Flatten(ss[1..]) {
        var i :| 0 <= i < |ss[1..]| && x in ss[1..][i];
        assert x in ss[i + 1];
      }
      if i :| 0 <= i < |ss| && x in ss[i] && i > 0 {
        assert x in ss[1..][i - 1];
      }
    }
  }

  lemma RefFreeIsClear(d: Doc, p: GlobPath)
    requires RefFree(d)
    ensures Clear(d, p)
    decreases |p|
  {
  }

  function MapSeq(f: Doc -> Doc, s: seq<Doc>): (r: seq<Doc>)
    ensures |r| == |s| && forall i :: 0 <= i < |s| ==> r[i] == f(s[i])
  {
    seq(|s|, i requires 0 <= i < |s| => f(s[i]))
  }

  /** A path that does not lead into the replaced one sees the document unchanged. */
  lemma {:induction false} OtherPathKept(d: Doc, p: GlobPath, q: GlobPath, f: Doc -> Doc)
    requires Unrelated(p, q)
    ensures Leaves(Replaced(d, p, f), q) == Leaves(d, q)
    ensures Clear(d, q) ==> Clear(Replaced(d, p, f), q)
    decreases |p|
  {
    if p[0] == q[0] {
      assert p == [p[0]] + p[1..] && q == [q[0]] + q[1..];
      assert Unrelated(p[1..], q[1..]);
      if d.Obj? && p[0] in d.fields {
        OtherPathKept(d.fields[p[0]], p[1..], q[1..], f);
      } else if d.Arr? && p[0] == STAR {
        forall i | 0 <= i < |d.items|
          ensures Leaves(Replaced(d.items[i], p[1..], f), q[1..]) == Leaves(d.items[i], q[1..])
          ensures Clear(d.items[i], q[1..]) ==> Clear(Replaced(d.items[i], p[1..], f), q[1..])
        {
          OtherPathKept(d.items[i], p[1..], q[1..], f);
        }
        var after := Replaced(d, p, f).items;
        assert seq(|d.items|, i requires 0 <= i < |d.items| => Leaves(d.items[i], q[1..]))
            == seq(|after|, i requires 0 <= i < |after| => Leaves(after[i], q[1..]));
      }
    }
  }

  lemma {:induction false} FlattenMapped(ss: seq<seq<Doc>>, tt: seq<seq<Doc>>, f: Doc -> Doc)
    requires |ss| == |tt| && forall i :: 0 <= i < |ss| ==> tt[i] == MapSeq(f, ss[i])
    ensures Flatten(tt) == MapSeq(f, Flatten(ss))
  {
    if ss != [] {
      FlattenMapped(ss[1..], tt[1..], f);
    }
  }

  /** The path itself then leads to the replaced leaves, in the same places. */
  lemma {:induction false} OwnPathFilled(d: Doc, p: GlobPath, f: Doc -> Doc)
    requires Proper(p)
    ensures Leaves(Replaced(d, p, f), p) == MapSeq(f, Leaves(d, p))
    decreases |p|
  {
    if d.Obj? && p[0] in d.fields {
      if |p| == 1 {
        assert p[1..] == [];
      } else {
        OwnPathFilled(d.fields[p[0]], p[1..], f);
      }
    } else if d.Arr? && p[0] == STAR {
      var after := Replaced(d, p, f).items;
      var ss := seq(|d.items|, i requires 0 <= i < |d.items| => Leaves(d.items[i], p[1..]));
      var tt := seq(|after|, i requires 0 <= i < |after| => Leaves(after[i], p[1..]));
      forall i | 0 <= i < |ss| ensures tt[i] == MapSeq(f, ss[i]) {
        OwnPathFilled(d.items[i], p[1..], f);
      }
      FlattenMapped(ss, tt, f);
    }
  }

  /** Only the values at the leaves matter to what is replaced. */
  lemma {:induction false} ReplacedAgree(d: Doc, p: GlobPath, f: Doc -> Doc, g: Doc -> Doc)
    requires Proper(p)
    requires forall leaf :: leaf in Leaves(d, p) ==> f(leaf) == g(leaf)
    ensures Replaced(d, p, f) == Replaced(d, p, g)
    decreases |p|
  {
    if d.Obj? && p[0] in d.fields {
      if |p| == 1 {
        assert p[1..] == [];
        assert d.fields[p[0]] in Leaves(d, p);
      } else {
        ReplacedAgree(d.fields[p[0]], p[1..], f, g);
      }
    } else if d.Arr? && p[0] == STAR {
      var ss := seq(|d.items|, i requires 0 <= i < |d.items| => Leaves(d.items[i], p[1..]));
      forall i | 0 <= i < |d.items| ensures Replaced(d.items[i], p[1..], f) == Replaced(d.items[i], p[1..], g) {
        forall leaf | leaf in Leaves(d.items[i], p[1..]) ensures f(leaf) == g(leaf) {
          assert leaf in ss[i];
          InFlatten(ss, leaf);
        }
        ReplacedAgree(d.items[i], p[1..], f, g);
      }
    }
  }

  lemma RestValid(refs: seq<RefField>)
    requires ValidRefs(refs) && refs != []
    ensures ValidRefs(refs[1..])
  {
    var rest := refs[1..];
    forall a, b | 0 <= a < |rest| && 0 <= b < |rest| && a != b ensures Unrelated(rest[a].path, rest[b].path) {
      assert rest[a] == refs[a + 1] && rest[b] == refs[b + 1];
    }
  }

  /** Joining the first field leaves the others as they were. */
  lemma RestKept(d: Doc, refs: seq<RefField>, rule: Rule)
    requires ValidRefs(refs) && refs != []
    ensures ValidRefs(refs[1..])
    ensures var after := Replaced(d, refs[0].path, Filler(rule, refs[0]));
            && (forall a :: 0 < a < |refs| ==> Leaves(after, refs[a].path) == Leaves(d, refs[a].path))
            && (Joinable(d, refs) ==> Joinable(after, refs[1..]))
  {
    RestValid(refs);
    var f := Filler(rule, refs[0]);
    var after := Replaced(d, refs[0].path, f);
    forall a | 0 < a < |refs|
      ensures Leaves(after, refs[a].path) == Leaves(d, refs[a].path)
      ensures Clear(d, refs[a].path) ==> Clear(after, refs[a].path)
    {
      OtherPathKept(d, refs[0].path, refs[a].path, f);
    }
    if Joinable(d, refs) {
      forall a | 0 <= a < |refs[1..]|
        ensures Clear(after, refs[1..][a].path) && ScalarLeaves(after, refs[1..][a].path)
      {
        assert refs[1..][a] == refs[a + 1];
      }
    }
  }

  /** A field's leaves after a join are its leaves before it, each filled by the rule. */
  lemma {:induction false} JoinedLeaves(d: Doc, refs: seq<RefField>, rule: Rule, a: nat)
    requires ValidRefs(refs) && a < |refs|
    ensures Leaves(Join(d, refs, rule), refs[a].path) == MapSeq(Filler(rule, refs[a]), Leaves(d, refs[a].path))
    decreases |refs|
  {
    var f := Filler(rule, refs[0]);
    var after := Replaced(d, refs[0].path, f);
    RestKept(d, refs, rule);
    if a == 0 {
      OwnPathFilled(d, refs[0].path, f);
      PathKept(after, refs[0].path, refs[1..], rule);
    } else {
      JoinedLeaves(after, refs[1..], rule, a - 1);
    }
  }

  /** A path no joined field leads into, or is led into by, has the same leaves after the join. */
  lemma {:induction false} PathKept(d: Doc, q: GlobPath, refs: seq<RefField>, rule: Rule)
    requires forall a :: 0 <= a < |refs| ==> Unrelated(refs[a].path, q)
    ensures Leaves(Join(d, refs, rule), q) == Leaves(d, q)
    decreases |refs|
  {
    if refs != [] {
      OtherPathKept(d, refs[0].path, q, Filler(rule, refs[0]));
      PathKept(Replaced(d, refs[0].path, Filler(rule, refs[0])), q, refs[1..], rule);
    }
  }

  /** Two rules give the same document exactly when they fill every reference leaf the same way. */
  ghost predicate FillAlike(d: Doc, refs: seq<RefField>, one: Rule, two: Rule) {
    forall a :: 0 <= a < |refs| ==> FillsAlike(Leaves(d, refs[a].path), refs[a], one, two)
  }

  predicate FillsAlike(leaves: seq<Doc>, r: RefField, one: Rule, two: Rule) {
    forall leaf :: leaf in leaves ==> Fill(one, r, leaf) == Fill(two, r, leaf)
  }

  lemma {:induction false} AlikeJoins(d: Doc, refs: seq<RefField>, one: Rule, two: Rule)
    requires ValidRefs(refs)
    requires FillAlike(d, refs, one, two)
    ensures Join(d, refs, one) == Join(d, refs, two)
    decreases |refs|
  {
    if refs != [] {
      RestKept(d, refs, one);
      assert FillsAlike(Leaves(d, refs[0].path), refs[0], one, two);
      ReplacedAgree(d, refs[0].path, Filler(one, refs[0]), Filler(two, refs[0]));
      var after := Replaced(d, refs[0].path, Filler(one, refs[0]));
      forall a | 0 <= a < |refs[1..]| ensures FillsAlike(Leaves(after, refs[1..][a].path), refs[1..][a], one, two) {
        assert refs[1..][a] == refs[a + 1];
      }
      AlikeJoins(after, refs[1..], one, two);
    }
  }

  lemma JoinsAgreeIff(d: Doc, refs: seq<RefField>, one: Rule, two: Rule)
    requires ValidRefs(refs)
    ensures Join(d, refs, one) == Join(d, refs, two) <==> FillAlike(d, refs, one, two)
  {
    if FillAlike(d, refs, one, two) {
      AlikeJoins(d, refs, one, two);
    }
    if Join(d, refs, one) == Join(d, refs, two) {
      forall a | 0 <= a < |refs| ensures FillsAlike(Leaves(d, refs[a].path), refs[a], one, two) {
        JoinedLeaves(d, refs, one, a);
        JoinedLeaves(d, refs, two, a);
        var leaves := Leaves(d, refs[a].path);
        var f, g := Filler(one, refs[a]), Filler(two, refs[a]);
        forall leaf | leaf in leaves ensures Fill(one, refs[a], leaf) == Fill(two, refs[a], leaf) {
          var j :| 0 <= j < |leaves| && leaves[j] == leaf;
          assert MapSeq(f, leaves)[j] == f(leaf) && MapSeq(g, leaves)[j] == g(leaf);
        }
      }
    }
  }

  // ---- Showing the proxies ----

  lemma {:induction false} ShowRefFree(d: Doc, table: Table)
    requires RefFree(d)
    ensures Show(d, table) == d
    decreases d
  {
    match d
    case Obj(fields) =>
      forall k | k in fields ensures Show(fields[k], table) == fields[k] {
        ShowRefFree(fields[k], table);
      }
    case Arr(items) =>
      forall i | 0 <= i < |items| ensures Show(items[i], table) == items[i] {
        ShowRefFree(items[i], table);
      }
    case _ =>
  }

  /** The path is free of proxies and leads to ids or nulls the table knows. */
  predicate Fillable(d: Doc, p: GlobPath, table: Table) {
    Clear(d, p) && ScalarLeaves(d, p) && KeySet(Leaves(d, p)) <= table.Keys
  }

  lemma FillableItem(items: seq<Doc>, p: GlobPath, table: Table, i: nat)
    requires p != [] && p[0] == STAR && Fillable(Arr(items), p, table) && i < |items|
    ensures Fillable(items[i], p[1..], table)
  {
    var ss := seq(|items|, j requires 0 <= j < |items| => Leaves(items[j], p[1..]));
    assert Leaves(Arr(items), p) == Flatten(ss);
    forall leaf | leaf in Leaves(items[i], p[1..]) ensures leaf in Leaves(Arr(items), p) && KeyOf(leaf) in table {
      assert leaf in ss[i];
      InFlatten(ss, leaf);
      assert KeyOf(leaf) in KeySet(Leaves(Arr(items), p));
    }
  }

  /** Replacing leaves by proxies and then showing them is showing first and replacing by what the proxies hold. */
  lemma {:induction false} ShowReplaced(d: Doc, r: RefField, p: GlobPath, table: Table)
    requires Proper(p) && Fillable(d, p, table)
    ensures Show(Replaced(d, p, Filler(ByProxy, r)), table) == Replaced(Show(d, table), p, Filler(ByTable(table), r))
    decreases |p|
  {
    if d.Obj? && p[0] in d.fields {
      var value := d.fields[p[0]];
      if |p| == 1 {
        assert p[1..] == [];
        assert value in Leaves(d, p);
        assert KeyOf(value) in KeySet(Leaves(d, p));
      } else {
        ShowReplaced(value, r, p[1..], table);
      }
    } else if d.Arr? && p[0] == STAR {
      forall i | 0 <= i < |d.items|
        ensures Show(Replaced(d.items[i], p[1..], Filler(ByProxy, r)), table)
             == Replaced(Show(d.items[i], table), p[1..], Filler(ByTable(table), r))
      {
        FillableItem(d.items, p, table, i);
        ShowReplaced(d.items[i], r, p[1..], table);
      }
    }
  }

  /** The keys a document's reference leaves hold. */
  ghost predicate KeysIn(d: Doc, refs: seq<RefField>, table: Table) {
    forall a :: 0 <= a < |refs| ==> KeySet(Leaves(d, refs[a].path)) <= table.Keys
  }

  /** The proxied document, shown, is the document with each leaf filled from the table. */
  lemma {:induction false} ShowJoin(d: Doc, refs: seq<RefField>, table: Table)
    requires ValidRefs(refs) && Joinable(d, refs) && KeysIn(d, refs, table)
    ensures Show(Join(d, refs, ByProxy), table) == Join(Show(d, table), refs, ByTable(table))
    decreases |refs|
  {
    if refs != [] {
      RestKept(d, refs, ByProxy);
      var after := Replaced(d, refs[0].path, Filler(ByProxy, refs[0]));
      assert KeysIn(after, refs[1..], table) by {
        forall a | 0 <= a < |refs[1..]| ensures KeySet(Leaves(after, refs[1..][a].path)) <= table.Keys {
          assert refs[1..][a] == refs[a + 1];
        }
      }
      ShowReplaced(d, refs[0], refs[0].path, table);
      ShowJoin(after, refs[1..], table);
    }
  }
}
