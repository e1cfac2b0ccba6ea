/**
  Result documents, the translation of field paths to glob paths, and the glob search with replacement.

  Documents are values; a `Ref` stands for the shared proxy dictionary of an id.
 */
module DocSearch {
  import opened Common

  datatype Doc =
    | Null
    | Str(s: string)
    | Obj(fields: map<string, Doc>)
    | Arr(items: seq<Doc>)
    | Ref(id: Option<string>)

  type GlobPath = seq<string>

  const STAR := "*"

  // ---- Document classes and path translation ----

  /** What a field of a document class holds: anything else, one embedded document, or a list of them. */
  datatype Field = Simple | Embedded(cls: string) | EmbeddedList(cls: string)

  type Schema = map<string, map<string, Field>>

  /** What one part of a field path becomes. */
  function Glob(part: string, field: Field): GlobPath {
    if field.EmbeddedList? then [part, STAR] else [part]
  }

  /** `_translate_fields_path` from a class on; `None` is what follows a field that is not a document. */
  function Translate(schema: Schema, cls: Option<string>, parts: seq<string>): Result<GlobPath, string>
    decreases |parts|
  {
    if parts == [] then Ok([])
    else if cls.None? then Err("Invalid path (non-document encountered)")
    else if cls.value !in schema || parts[0] !in schema[cls.value] then Err("Invalid field path")
    else
      var field := schema[cls.value][parts[0]];
      var next := if field.Simple? then None else Some(field.cls);
      var rest := Translate(schema, next, parts[1..]);
      if rest.Err? then rest
      else Ok(Glob(parts[0], field) + rest.value)
  }

  /**
    The path cache, filled on first use of a path. A class without a cache of its own uses the one it inherits, so
    one dictionary can serve a class and its subclasses.
   */
  class PathCache {
    const schema: Schema
    const family: set<string>
    var cached: map<seq<string>, GlobPath>

    /** Each cached path was translated for some class of the family. */
    ghost predicate Valid()
      reads this
    {
      forall parts :: parts in cached ==> exists c :: c in family && Translate(schema, Some(c), parts) == Ok(cached[parts])
    }

    constructor (schema: Schema, family: set<string>)
      ensures Valid() && this.schema == schema && this.family == family && cached == map[]
    {
      this.schema := schema;
      this.family := family;
      this.cached := map[];
    }

    method TranslateFieldsPath(cls: string, parts: seq<string>) returns (r: Result<GlobPath, string>)
      ensures r == Translate(schema, Some(cls), parts)
    {
      var current := Some(cls);
      var translated: GlobPath := [];
      assert parts[0..] == parts;
      PutIdentity(Translate(schema, current, parts));
      for i := 0 to |parts|
        invariant Translate(schema, Some(cls), parts) == Put(translated, Translate(schema, current, parts[i..]))
      {
        if current.None? {
          return Err("Invalid path (non-document encountered)");
        }
        if current.value !in schema || parts[i] !in schema[current.value] {
          return Err("Invalid field path");
        }
        var field := schema[current.value][parts[i]];
        TranslateStep(schema, current.value, parts, i, translated);
        ghost var before := translated;
        translated := translated + [parts[i]];
        if field.EmbeddedList? {
          translated := translated + [STAR];
        }
        assert translated == before + [parts[i]] + (if field.EmbeddedList? then [STAR] else []);
        current := if field.Simple? then None else Some(field.cls);
      }
      assert parts[|parts|..] == [] && translated + [] == translated;
      r := Ok(translated);
    }

    /** Right for every path the classes that share the cache translate alike, whoever asked for it first. */
    method Get(cls: string, parts: seq<string>) returns (r: Result<GlobPath, string>)
      requires Valid() && cls in family
      modifies this
      ensures Valid()
      ensures Alike(schema, family, parts) ==> r == Translate(schema, Some(cls), parts)
    {
      if parts !in cached {
        r := TranslateFieldsPath(cls, parts);
        if r.Ok? {
          cached := cached[parts := r.value];
        }
      } else {
        r := Ok(cached[parts]);
      }
    }
  }

  ghost predicate Alike(schema: Schema, family: set<string>, parts: seq<string>) {
    forall c, c' :: c in family && c' in family ==> Translate(schema, Some(c), parts) == Translate(schema, Some(c'), parts)
  }

  /** A translated rest behind what is translated already. */
  function Put(translated: GlobPath, rest: Result<GlobPath, string>): Result<GlobPath, string> {
    if rest.Ok? then Ok(translated + rest.value) else rest
  }

  lemma PutIdentity(rest: Result<GlobPath, string>)
    ensures Put([], rest) == rest
  {
    if rest.Ok? {
      assert [] + rest.value == rest.value;
    }
  }

  lemma TranslateStep(schema: Schema, cls: string, parts: seq<string>, i: nat, translated: GlobPath)
    requires i < |parts| && cls in schema && parts[i] in schema[cls]
    ensures var field := schema[cls][parts[i]];
            var next := if field.Simple? then None else Some(field.cls);
            var more := translated + [parts[i]] + (if field.EmbeddedList? then [STAR] else []);
            Put(translated, Translate(schema, Some(cls), parts[i..])) == Put(more, Translate(schema, next, parts[i + 1..]))
  {
    var field := schema[cls][parts[i]];
    var next := if field.Simple? then None else Some(field.cls);
    assert parts[i..][0] == parts[i] && parts[i..][1..] == parts[i + 1..];
    var rest := Translate(schema, next, parts[i + 1..]);
    if rest.Ok? {
      var more := translated + [parts[i]] + (if field.EmbeddedList? then [STAR] else []);
      assert translated + (Glob(parts[i], field) + rest.value) == more + rest.value;
    }
  }

  /** The parts name a field of the class, a field of the document that holds, and so on. */
  predicate IsFieldPath(schema: Schema, cls: string, parts: seq<string>)
    decreases |parts|
  {
    parts == [] ||
    (cls in schema && parts[0] in schema[cls] &&
     (|parts| == 1 || (!schema[cls][parts[0]].Simple? && IsFieldPath(schema, schema[cls][parts[0]].cls, parts[1..]))))
  }

  /** A path translates exactly when it is one of fields; how it fails tells a field that holds no document from an unknown one. */
  lemma {:induction false} TranslatesIff(schema: Schema, cls: string, parts: seq<string>)
    ensures Translate(schema, Some(cls), parts).Ok? <==> IsFieldPath(schema, cls, parts)
    ensures Translate(schema, Some(cls), parts) == Err("Invalid path (non-document encountered)") <==>
              EndsSomewhere(schema, cls, parts)
    ensures Translate(schema, Some(cls), parts).Err? ==>
              Translate(schema, Some(cls), parts).error
              in {"Invalid path (non-document encountered)", "Invalid field path"}
    decreases |parts|
  {
    assert "Invalid path (non-document encountered)" != "Invalid field path" by {
      assert "Invalid path (non-document encountered)"[8] != "Invalid field path"[8];
    }
    if parts != [] && cls in schema && parts[0] in schema[cls] {
      var field := schema[cls][parts[0]];
      if field.Simple? {
        var none: Option<string> := None;
        if |parts| > 1 {
          assert EndsEarly(schema, cls, parts, 0);
          assert Translate(schema, none, parts[1..]) == Err("Invalid path (non-document encountered)");
          assert Translate(schema, Some(cls), parts) == Translate(schema, none, parts[1..]);
        } else {
          assert parts[1..] == [] && Translate(schema, none, parts[1..]) == Ok([]);
        }
      } else {
        TranslatesIff(schema, field.cls, parts[1..]);
        EndsLater(schema, cls, parts);
      }
    }
  }

  ghost predicate EndsSomewhere(schema: Schema, cls: string, parts: seq<string>) {
    exists i: nat :: EndsEarly(schema, cls, parts, i)
  }

  lemma EndsLater(schema: Schema, cls: string, parts: seq<string>)
    requires parts != [] && cls in schema && parts[0] in schema[cls] && !schema[cls][parts[0]].Simple?
    ensures EndsSomewhere(schema, cls, parts) <==> EndsSomewhere(schema, schema[cls][parts[0]].cls, parts[1..])
  {
    var next := schema[cls][parts[0]].cls;
    if i: nat :| EndsEarly(schema, next, parts[1..], i) {
      assert EndsEarly(schema, cls, parts, i + 1);
    }
    if i: nat :| EndsEarly(schema, cls, parts, i) {
      assert i > 0 && EndsEarly(schema, next, parts[1..], i - 1);
    }
  }

  /** Part `i` names a field that holds no document, and more parts follow. */
  predicate EndsEarly(schema: Schema, cls: string, parts: seq<string>, i: nat)
    decreases |parts|
  {
    && i + 1 < |parts| && cls in schema && parts[0] in schema[cls]
    && if i == 0 then schema[cls][parts[0]].Simple?
       else !schema[cls][parts[0]].Simple? && EndsEarly(schema, schema[cls][parts[0]].cls, parts[1..], i - 1)
  }

  /** A field that holds a list of documents takes a star behind it, any other field does not. */
  lemma ListsTakeStars(schema: Schema, cls: string, one: string, two: string)
    requires EndsSimple(schema, cls, [one, two])
    ensures Translate(schema, Some(cls), [one, two])
         == Ok(if schema[cls][one].EmbeddedList? then [one, "*", two] else [one, two])
  {
    assert [one, two][1..] == [two];
    TranslateLast(schema, schema[cls][one].cls, [two]);
    TranslateInner(schema, cls, [one, two]);
    assert [one] + ([STAR] + [two]) == [one, "*", two] && [one] + [two] == [one, two];
  }

  function WithoutStars(p: GlobPath): seq<string> {
    if p == [] then [] else (if p[0] == STAR then [] else [p[0]]) + WithoutStars(p[1..])
  }

  lemma {:induction false} WithoutStarsConcat(a: GlobPath, b: GlobPath)
    ensures WithoutStars(a + b) == WithoutStars(a) + WithoutStars(b)
  {
    if a == [] {
      assert a + b == b;
    } else {
      assert (a + b)[1..] == a[1..] + b;
      WithoutStarsConcat(a[1..], b);
    }
  }

  /** Dropping the stars gives the path back. */
  lemma {:induction false} TranslationDropsBack(schema: Schema, cls: Option<string>, parts: seq<string>)
    requires forall i :: 0 <= i < |parts| ==> parts[i] != STAR
    requires Translate(schema, cls, parts).Ok?
    ensures WithoutStars(Translate(schema, cls, parts).value) == parts
    decreases |parts|
  {
    if parts != [] {
      var field := schema[cls.value][parts[0]];
      var next := if field.Simple? then None else Some(field.cls);
      var head := Glob(parts[0], field);
      TranslationDropsBack(schema, next, parts[1..]);
      WithoutStarsConcat(head, Translate(schema, next, parts[1..]).value);
      assert head[1..] == if field.EmbeddedList? then [STAR] else [];
      assert [STAR][1..] == [];
      assert parts == [parts[0]] + parts[1..];
    }
  }

  // ---- Search ----

  function Flatten<T>(ss: seq<seq<T>>): seq<T> {
    if ss == [] then [] else ss[0] + Flatten(ss[1..])
  }

  /** The values `_search` returns, in order. */
  function Leaves(t: Doc, p: GlobPath): seq<Doc> {
    if p == [] then [t]
    else if t.Obj? && p[0] in t.fields then Leaves(t.fields[p[0]], p[1..])
    else if t.Arr? && p[0] == STAR then Flatten(seq(|t.items|, i requires 0 <= i < |t.items| => Leaves(t.items[i], p[1..])))
    else []
  }

  /** The document after `_search` with a factory: a value is replaced in the dictionary it was found in. */
  function Replaced(t: Doc, p: GlobPath, factory: Doc -> Doc): Doc {
    if p == [] then t
    else if t.Obj? && p[0] in t.fields then
      var value := t.fields[p[0]];
      Obj(t.fields[p[0] := if |p| == 1 then factory(value) else Replaced(value, p[1..], factory)])
    else if t.Arr? && p[0] == STAR then
      Arr(seq(|t.items|, i requires 0 <= i < |t.items| => Replaced(t.items[i], p[1..], factory)))
    else t
  }

  // ---- The schema-directed walk ----

  /** The document is one of its class: embedded fields hold documents of their class, lists of them, or nothing. */
  ghost predicate Conforms(schema: Schema, cls: string, t: Doc)
    decreases t
  {
    && t.Obj?
    && cls in schema
    && forall k :: k in t.fields && k in schema[cls] ==>
         match schema[cls][k]
         case Simple => true
         case Embedded(c) => t.fields[k] == Null || Conforms(schema, c, t.fields[k])
         case EmbeddedList(c) =>
           t.fields[k] == Null
           || (t.fields[k].Arr? && forall i :: 0 <= i < |t.fields[k].items| ==> Conforms(schema, c, t.fields[k].items[i]))
  }

  /** Looks a field path up class by class, without any pattern. */
  function Walk(schema: Schema, cls: string, t: Doc, parts: seq<string>): seq<Doc>
    requires parts != []
    decreases |parts|
  {
    if !(t.Obj? && parts[0] in t.fields && cls in schema && parts[0] in schema[cls]) then []
    else
      var value := t.fields[parts[0]];
      if |parts| == 1 then [value]
      else match schema[cls][parts[0]]
        case Simple => []
        case Embedded(c) => Walk(schema, c, value, parts[1..])
        case EmbeddedList(c) =>
          if value.Arr? then
            Flatten(seq(|value.items|, i requires 0 <= i < |value.items| => Walk(schema, c, value.items[i], parts[1..])))
          else []
  }

  /** The same walk, rebuilding the document with every value it ends at replaced. */
  function WalkReplaced(schema: Schema, cls: string, t: Doc, parts: seq<string>, factory: Doc -> Doc): Doc
    requires parts != []
    decreases |parts|
  {
    if !(t.Obj? && parts[0] in t.fields && cls in schema && parts[0] in schema[cls]) then t
    else
      var value := t.fields[parts[0]];
      Obj(t.fields[parts[0] :=
        if |parts| == 1 then factory(value)
        else match schema[cls][parts[0]]
          case Simple => value
          case Embedded(c) => WalkReplaced(schema, c, value, parts[1..], factory)
          case EmbeddedList(c) =>
            if value.Arr? then
              Arr(seq(|value.items|, i requires 0 <= i < |value.items| =>
                WalkReplaced(schema, c, value.items[i], parts[1..], factory)))
            else value])
  }

  /** The path names a field that is no embedded document. */
  predicate EndsSimple(schema: Schema, cls: string, parts: seq<string>)
    decreases |parts|
  {
    && parts != []
    && cls in schema && parts[0] in schema[cls]
    && if |parts| == 1 then schema[cls][parts[0]].Simple?
       else !schema[cls][parts[0]].Simple? && EndsSimple(schema, schema[cls][parts[0]].cls, parts[1..])
  }

  /** Every path that ends at such a field translates. */
  lemma {:induction false} EndsSimpleTranslates(schema: Schema, cls: string, parts: seq<string>)
    requires EndsSimple(schema, cls, parts)
    ensures var p := Translate(schema, Some(cls), parts);
            p.Ok? && p.value != [] && p.value[0] == parts[0]
    decreases |parts|
  {
    if |parts| > 1 {
      EndsSimpleTranslates(schema, schema[cls][parts[0]].cls, parts[1..]);
    } else {
      assert parts[1..] == [];
    }
  }

  lemma TranslateLast(schema: Schema, cls: string, parts: seq<string>)
    requires EndsSimple(schema, cls, parts) && |parts| == 1
    ensures Translate(schema, Some(cls), parts) == Ok(parts)
  {
    assert parts[1..] == [] && [parts[0]] + [] == parts;
  }

  lemma TranslateInner(schema: Schema, cls: string, parts: seq<string>)
    requires EndsSimple(schema, cls, parts) && |parts| > 1
    ensures var field := schema[cls][parts[0]];
            var rest := Translate(schema, Some(field.cls), parts[1..]);
            && rest.Ok? && rest.value != []
            && Translate(schema, Some(cls), parts)
               == Ok([parts[0]] + (if field.EmbeddedList? then [STAR] + rest.value else rest.value))
  {
    var field := schema[cls][parts[0]];
    EndsSimpleTranslates(schema, field.cls, parts[1..]);
    var rest := Translate(schema, Some(field.cls), parts[1..]).value;
    assert Glob(parts[0], field) + rest == [parts[0]] + (if field.EmbeddedList? then [STAR] + rest else rest);
  }

  /**
    The search is the walk. On a document of its class, the glob search along a translated path returns
    exactly the values the walk over the classes finds, in document order, and with a factory it replaces
    exactly those.
   */
  lemma {:induction false} SearchIsWalk(schema: Schema, cls: string, t: Doc, parts: seq<string>, factory: Doc -> Doc)
    requires EndsSimple(schema, cls, parts) && Conforms(schema, cls, t)
    ensures Translate(schema, Some(cls), parts).Ok?
    ensures var p := Translate(schema, Some(cls), parts).value;
            && Leaves(t, p) == Walk(schema, cls, t, parts)
            && Replaced(t, p, factory) == WalkReplaced(schema, cls, t, parts, factory)
    decreases |parts|, 0
  {
    EndsSimpleTranslates(schema, cls, parts);
    var p := Translate(schema, Some(cls), parts).value;
    if parts[0] in t.fields {
      if |parts| == 1 {
        TranslateLast(schema, cls, parts);
      } else {
        TranslateInner(schema, cls, parts);
        var value := t.fields[parts[0]];
        var field := schema[cls][parts[0]];
        var rest := Translate(schema, Some(field.cls), parts[1..]).value;
        if field.Embedded? {
          assert p[1..] == rest;
          if value != Null {
            SearchIsWalk(schema, field.cls, value, parts[1..], factory);
          }
        } else {
          assert p[1..] == [STAR] + rest;
          SearchIsWalkInList(schema, field.cls, value, parts[1..], factory);
        }
      }
    }
  }

  lemma {:induction false} SearchIsWalkInList(schema: Schema, cls: string, value: Doc, parts: seq<string>, factory: Doc -> Doc)
    requires EndsSimple(schema, cls, parts)
    requires value == Null || (value.Arr? && forall i :: 0 <= i < |value.items| ==> Conforms(schema, cls, value.items[i]))
    ensures Translate(schema, Some(cls), parts).Ok?
    ensures var p := [STAR] + Translate(schema, Some(cls), parts).value;
            && Leaves(value, p) == (if value.Arr? then Flatten(seq(|value.items|, i requires 0 <= i < |value.items| =>
                                      Walk(schema, cls, value.items[i], parts))) else [])
            && Replaced(value, p, factory) == (if value.Arr? then Arr(seq(|value.items|, i requires 0 <= i < |value.items| =>
                                      WalkReplaced(schema, cls, value.items[i], parts, factory))) else value)
    decreases |parts|, 1
  {
    EndsSimpleTranslates(schema, cls, parts);
    var rest := Translate(schema, Some(cls), parts).value;
    assert ([STAR] + rest)[1..] == rest;
    if value.Arr? {
      forall i | 0 <= i < |value.items|
        ensures Leaves(value.items[i], rest) == Walk(schema, cls, value.items[i], parts)
        ensures Replaced(value.items[i], rest, factory) == WalkReplaced(schema, cls, value.items[i], parts, factory)
      {
        SearchIsWalk(schema, cls, value.items[i], parts, factory);
      }
      assert seq(|value.items|, i requires 0 <= i < |value.items| => Leaves(value.items[i], rest))
          == seq(|value.items|, i requires 0 <= i < |value.items| => Walk(schema, cls, value.items[i], parts));
    }
  }
}
