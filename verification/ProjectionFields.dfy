/**
  `_parse_projection`: reducing dotted fields to their topmost ones, and adding the joined reference fields.

  The fields are those to include: a name with the exclusion prefix `-` would be read here as a path of that name.
 */
module ProjectionFields {

  /** `f.startswith(f"{o}.")`: the field lies strictly inside the other. */
  predicate Extends(f: string, o: string) {
    o + "." <= f
  }

  predicate Within(f: string, o: string) {
    f == o || Extends(f, o)
  }

  /** A name taken apart at its dots. */
  function Parts(name: string): (parts: seq<string>)
    ensures |parts| > 0
  {
    if name == "" then [""]
    else if name[0] == '.' then [""] + Parts(name[1..])
    else
      var rest := Parts(name[1..]);
      [[name[0]] + rest[0]] + rest[1..]
  }

  /** One name extends another exactly when it has all its parts, and more behind them. */
  lemma {:induction false} ExtendsIff(f: string, o: string)
    ensures Extends(f, o) <==> |Parts(o)| < |Parts(f)| && Parts(f)[..|Parts(o)|] == Parts(o)
    decreases |o|
  {
    PartsStart(f);
    PartsStart(o);
    if o != "" && f != "" && f[0] == o[0] {
      ExtendsIff(f[1..], o[1..]);
      ExtendsTail(f, o);
      PrefixTail(Parts(f), Parts(o), Parts(f[1..]), Parts(o[1..]), o[0]);
    } else if o == "" {
      assert Extends(f, o) <==> f != "" && f[0] == '.';
      assert |Parts(f)| > 1 ==> (Parts(f)[..1] == [""] <==> Parts(f)[0] == "");
    } else {
      assert f != "" ==> Parts(f)[0] != Parts(o)[0];
      assert |Parts(o)| < |Parts(f)| ==> Parts(f)[..|Parts(o)|][0] == Parts(f)[0];
    }
  }

  lemma PartsStart(s: string)
    ensures s == "" ==> Parts(s) == [""]
    ensures s != "" && s[0] == '.' ==> Parts(s) == [""] + Parts(s[1..])
    ensures s != "" && s[0] != '.' ==> Parts(s)[0] != "" && Parts(s)[0][0] == s[0]
  {
  }

  lemma ExtendsTail(f: string, o: string)
    requires o != "" && f != "" && f[0] == o[0]
    ensures Extends(f, o) <==> Extends(f[1..], o[1..])
  {
    assert (o + ".")[1..] == o[1..] + ".";
    assert f == [f[0]] + f[1..] && o + "." == [o[0]] + (o[1..] + ".");
  }

  /** Putting one character in front changes both lists of parts alike. */
  lemma PrefixTail(f: seq<string>, o: seq<string>, f': seq<string>, o': seq<string>, c: char)
    requires |f'| > 0 && |o'| > 0
    requires if c == '.' then f == [""] + f' && o == [""] + o' else f == [[c] + f'[0]] + f'[1..] && o == [[c] + o'[0]] + o'[1..]
    ensures |o| < |f| && f[..|o|] == o <==> |o'| < |f'| && f'[..|o'|] == o'
  {
    if |o| < |f| {
      if f[..|o|] == o {
        forall i | 0 <= i < |o'| ensures f'[i] == o'[i] {
          if c == '.' {
            assert f[..|o|][i + 1] == o[i + 1];
          } else {
            assert f[..|o|][i] == o[i];
            assert i == 0 ==> ([c] + f'[0])[1..] == f'[0] && ([c] + o'[0])[1..] == o'[0];
          }
        }
      }
      if f'[..|o'|] == o' {
        forall i | 0 <= i < |o| ensures f[i] == o[i] {
          if c == '.' {
            assert i > 0 ==> f'[..|o'|][i - 1] == o'[i - 1];
          } else {
            assert f'[..|o'|][i] == o'[i];
          }
        }
      }
    }
  }

  /** A query with this projection returns the path. */
  predicate Covered(fields: set<string>, path: string) {
    exists f :: f in fields && Within(path, f)
  }

  /** The fields left once every sub-field of another one is dropped. */
  function Reduced(fields: set<string>): set<string> {
    set f | f in fields && !exists o :: o in fields - {f} && Extends(f, o)
  }

  lemma ExtendsTransitive(a: string, b: string, c: string)
    requires Extends(a, b) && Extends(b, c)
    ensures Extends(a, c) && |a| > |b| > |c|
  {
    assert a[..|b| + 1] == b + "." && b[..|c| + 1] == c + ".";
    assert a[..|c| + 1] == c + ".";
  }

  /** Every field lies within a kept one. */
  lemma {:induction false} KeptAncestor(fields: set<string>, f: string)
    requires f in fields
    ensures Covered(Reduced(fields), f)
    decreases |f|
  {
    if f in Reduced(fields) {
      assert Within(f, f);
    } else {
      var o :| o in fields - {f} && Extends(f, o);
      KeptAncestor(fields, o);
      var k :| k in Reduced(fields) && Within(o, k);
      if Extends(o, k) {
        ExtendsTransitive(f, o, k);
      }
      assert Within(f, k);
    }
  }

  /** No kept field lies inside another, so nothing narrows a field that was asked for whole. */
  predicate Independent(fields: set<string>) {
    forall f, o :: f in fields && o in fields ==> !Extends(f, o)
  }

  /** The reduction keeps the meaning: the same paths are returned, by fields none of which narrows another. */
  lemma ReductionKeepsMeaning(fields: set<string>)
    ensures Independent(Reduced(fields))
    ensures forall path :: Covered(Reduced(fields), path) <==> Covered(fields, path)
    ensures Reduced(Reduced(fields)) == Reduced(fields)
  {
    forall path | Covered(fields, path) ensures Covered(Reduced(fields), path) {
      var f :| f in fields && Within(path, f);
      KeptAncestor(fields, f);
      var k :| k in Reduced(fields) && Within(f, k);
      if Extends(path, f) && Extends(f, k) {
        ExtendsTransitive(path, f, k);
      }
      assert Within(path, k);
    }
  }

  /** It is the only choice of fields that does. */
  lemma ReductionIsUnique(fields: set<string>, kept: set<string>)
    requires kept <= fields && Independent(kept)
    requires forall f :: f in fields ==> Covered(kept, f)
    ensures kept == Reduced(fields)
  {
    forall f | f in kept ensures f in Reduced(fields) {
      if o :| o in fields - {f} && Extends(f, o) {
        var k :| k in kept && Within(o, k);
        if Extends(o, k) {
          ExtendsTransitive(f, o, k);
        }
        assert false;
      }
    }
    forall f | f in Reduced(fields) ensures f in kept {
      var k :| k in kept && Within(f, k);
    }
  }

  // ---- Adding the joined reference fields ----

  /** The test that lets a reference field be skipped: some field already there is a prefix of its name. */
  predicate Skipped(doc: set<string>, field: string) {
    exists f :: f in doc && f != "" && f <= field
  }

  /** The reference fields added one after the other. */
  function Joined(doc: set<string>, order: seq<string>): set<string>
    decreases |order|
  {
    if order == [] then doc
    else Joined(if Skipped(doc, order[0]) then doc else doc + {order[0]}, order[1..])
  }

  /** The order lists the set, each element once. */
  ghost predicate Lists(order: seq<string>, fields: set<string>) {
    && (forall f :: f in order <==> f in fields)
    && (forall i, j :: 0 <= i < j < |order| ==> order[i] != order[j])
  }

  ghost predicate CoversAll(doc: set<string>, refs: set<string>) {
    forall r :: r in refs ==> Covered(doc, r)
  }

  /** The final loop, which takes the missing reference fields in no particular order. */
  method AddReferences(doc: set<string>, refs: set<string>) returns (r: set<string>)
    ensures exists order :: Lists(order, refs - doc) && r == Joined(doc, order)
  {
    r := doc;
    var todo := refs - doc;
    ghost var order: seq<string> := [];
    while todo != {}
      invariant forall f :: f in todo || f in order <==> f in refs - doc
      invariant forall f :: f in todo ==> f !in order
      invariant forall i, j :: 0 <= i < j < |order| ==> order[i] != order[j]
      invariant r == Joined(doc, order)
      decreases |todo|
    {
      var field :| field in todo;
      JoinedSnoc(doc, order, field);
      if !exists f :: f in r && f != "" && f <= field {
        r := r + {field};
      }
      order := order + [field];
      todo := todo - {field};
    }
    assert Lists(order, refs - doc);
  }

  lemma {:induction false} JoinedSnoc(doc: set<string>, order: seq<string>, field: string)
    ensures Joined(doc, order + [field])
         == if Skipped(Joined(doc, order), field) then Joined(doc, order) else Joined(doc, order) + {field}
    decreases |order|
  {
    if order == [] {
      assert ([] + [field])[1..] == [];
    } else {
      assert (order + [field])[1..] == order[1..] + [field];
      JoinedSnoc(if Skipped(doc, order[0]) then doc else doc + {order[0]}, order[1..], field);
    }
  }

  /** A reference field no other field's name is a prefix of, unless its parent document is asked for anyway. */
  ghost predicate Safe(doc: set<string>, refs: set<string>, r: string) {
    Covered(doc, r) || !Skipped(doc + refs - {r}, r)
  }

  lemma {:induction false} JoinedBounds(doc: set<string>, order: seq<string>)
    ensures doc <= Joined(doc, order) && forall f :: f in Joined(doc, order) ==> f in doc || f in order
    decreases |order|
  {
    if order != [] {
      JoinedBounds(if Skipped(doc, order[0]) then doc else doc + {order[0]}, order[1..]);
    }
  }

  /** A safe field is covered whatever the order. */
  lemma {:induction false} SafeIsCovered(doc: set<string>, refs: set<string>, order: seq<string>, r: string)
    requires r in order && !Skipped(doc + refs - {r}, r)
    requires forall f :: f in order ==> f in refs
    ensures Covered(Joined(doc, order), r)
    decreases |order|
  {
    var next := if Skipped(doc, order[0]) then doc else doc + {order[0]};
    if order[0] == r {
      JoinedBounds(next, order[1..]);
      assert Within(r, r);
      if Skipped(doc, r) {
        assert forall f :: f in doc && f != r ==> f in doc + refs - {r};
        assert r in doc;
      }
      assert r in Joined(doc, order);
    } else {
      assert forall f :: f in next + refs - {r} ==> f in doc + refs - {r};
      SafeIsCovered(next, refs, order[1..], r);
    }
  }

  /** Once a field is there whose name is a prefix, the reference field is not added any more. */
  lemma {:induction false} SkippedForGood(doc: set<string>, order: seq<string>, r: string)
    requires Skipped(doc, r) && r !in doc
    ensures r !in Joined(doc, order)
    decreases |order|
  {
    if order != [] {
      SkippedForGood(if Skipped(doc, order[0]) then doc else doc + {order[0]}, order[1..], r);
    }
  }

  lemma {:induction false} CanBeListed(fields: set<string>) returns (order: seq<string>)
    ensures Lists(order, fields)
  {
    if fields == {} {
      order := [];
    } else {
      var f :| f in fields;
      var rest := CanBeListed(fields - {f});
      order := [f] + rest;
    }
  }

  /** An unsafe reference field can be left out. */
  lemma UnsafeCanBeLost(doc: set<string>, refs: set<string>, r: string) returns (order: seq<string>)
    requires Independent(refs) && r in refs && !Safe(doc, refs, r)
    ensures Lists(order, refs - doc) && !Covered(Joined(doc, order), r)
  {
    assert Within(r, r);
    var f :| f in doc + refs - {r} && f != "" && f <= r;
    if f in doc {
      order := CanBeListed(refs - doc);
      SkippedForGood(doc, order, r);
    } else {
      var rest := CanBeListed(refs - doc - {f});
      order := [f] + rest;
      var next := if Skipped(doc, f) then doc else doc + {f};
      if g :| g in doc && g != "" && g <= f && Skipped(doc, f) {
        assert g <= r;
      }
      assert order[1..] == rest;
      SkippedForGood(next, rest, r);
    }
    JoinedBounds(doc, order);
    forall g | g in Joined(doc, order) ensures !Within(r, g) {
      if g in refs && g !in doc {
        assert !Extends(r, g);
      }
    }
  }

  /**
    Every joined reference field is returned by the query, whatever the order they are added in, exactly when
    each one is safe. The test compares names as text, so one name can hide another that it only begins.
   */
  lemma JoinCoversIff(doc: set<string>, refs: set<string>)
    requires Independent(refs)
    ensures (forall order :: Lists(order, refs - doc) ==> CoversAll(Joined(doc, order), refs))
       <==> (forall r :: r in refs ==> Safe(doc, refs, r))
  {
    if forall r :: r in refs ==> Safe(doc, refs, r) {
      forall order, r | Lists(order, refs - doc) && r in refs ensures Covered(Joined(doc, order), r) {
        JoinedBounds(doc, order);
        if Covered(doc, r) {
          var f :| f in doc && Within(r, f);
          assert f in Joined(doc, order);
        } else {
          assert Within(r, r);
          assert r in order;
          SafeIsCovered(doc, refs, order, r);
        }
      }
    }
    if r :| r in refs && !Safe(doc, refs, r) {
      var order := UnsafeCanBeLost(doc, refs, r);
      assert !CoversAll(Joined(doc, order), refs);
    }
  }

  /** The part of a field the check for invalid fields looks at. */
  function FirstPart(f: string): string {
    if f == "" || f[0] == '.' then "" else [f[0]] + FirstPart(f[1..])
  }

  /**
    The reference field `execution.queue` of a task is lost beside the unknown sub-field `execution.que`. The check
    for invalid fields lets that name through, because it only looks at the first part.
   */
  lemma QueueIsHidden()
    ensures FirstPart("execution" + ".que") == FirstPart("execution" + ".queue")
    ensures !Covered(Joined({"execution" + ".que"}, ["execution" + ".queue"]), "execution" + ".queue")
  {
    FirstPartOf("execution", "que");
    FirstPartOf("execution", "queue");
    assert "." + "que" == ".que" && "." + "queue" == ".queue";
    assert "execution" + "." + "que" == "execution" + ".que" && "execution" + "." + "queue" == "execution" + ".queue";
    PrefixHides("execution", ".que", ".queue");
  }

  /** A name that only begins another one hides it. */
  lemma PrefixHides(head: string, short: string, long: string)
    requires short != "" && short < long && long[|short|] != '.'
    ensures !Covered(Joined({head + short}, [head + long]), head + long)
  {
    var f, r := head + short, head + long;
    assert f <= r && r[|f|] == long[|short|];
    assert (f + ".")[|f|] == '.';
    assert Skipped({f}, r) && [r][1..] == [];
    assert !Extends(r, f);
  }

  lemma {:induction false} FirstPartOf(head: string, tail: string)
    requires forall i :: 0 <= i < |head| ==> head[i] != '.'
    ensures FirstPart(head + "." + tail) == head
  {
    if head != "" {
      FirstPartOf(head[1..], tail);
      assert (head + "." + tail)[1..] == head[1..] + "." + tail;
    }
  }
}
