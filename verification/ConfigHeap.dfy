/**
  The merge as the program runs it: dictionaries on the heap, written in place.

  With `copy_trees=True` a section of `a` is replaced by a shallow copy before anything below it is
  written, so the merge writes `a` and fresh nodes only, although its result may share subtrees with `b`.
 */
module ConfigHeap {
  import opened ConfigMerge

  datatype Entry = Value(value: string) | Sub(tree: ConfigTree)

  /** An ordered dictionary. Python's `d[key] = value` keeps the place of a key that is already there. */
  class ConfigTree {
    var keys: seq<string>
    var entries: map<string, Entry>

    constructor ()
      ensures keys == [] && entries == map[]
    {
      keys := [];
      entries := map[];
    }

    /** `tree.copy()`: the entries are shared, not copied. */
    constructor Copy(tree: ConfigTree)
      ensures keys == tree.keys && entries == tree.entries
    {
      keys := tree.keys;
      entries := tree.entries;
    }

    method SetItem(key: string, entry: Entry)
      modifies this
      ensures keys == (if key in old(entries) then old(keys) else old(keys) + [key])
      ensures entries == old(entries)[key := entry]
    {
      if key !in entries {
        keys := keys + [key];
      }
      entries := entries[key := entry];
    }
  }

  // ---- Heap trees and the values they stand for ----

  type Entries = map<string, Entry>

  /** A dictionary whose subtrees lie in the region and are at most `depth` deep. */
  ghost predicate Proper(keys: seq<string>, entries: Entries, depth: nat, region: set<ConfigTree>)
    reads region
    decreases depth, 1
  {
    && (forall i, j :: 0 <= i < j < |keys| ==> keys[i] != keys[j])
    && (forall k :: k in keys <==> k in entries)
    && (forall k :: k in entries ==> EntryInside(entries[k], depth, region))
  }

  ghost predicate EntryInside(e: Entry, depth: nat, region: set<ConfigTree>)
    reads region
    decreases depth, 0
  {
    e.Sub? ==> e.tree in region && depth > 0 && Proper(e.tree.keys, e.tree.entries, depth - 1, region)
  }

  ghost function View(keys: seq<string>, entries: Entries, depth: nat, region: set<ConfigTree>): Tree
    requires Proper(keys, entries, depth, region)
    reads region
    decreases depth, 1
  {
    Section(keys, map k | k in entries :: EntryView(entries[k], depth, region))
  }

  ghost function EntryView(e: Entry, depth: nat, region: set<ConfigTree>): Tree
    requires EntryInside(e, depth, region)
    reads region
    decreases depth, 0
  {
    match e
    case Value(v) => Plain(v)
    case Sub(t) => View(t.keys, t.entries, depth - 1, region)
  }

  /** The dictionary stands for the given tree. */
  ghost predicate Means(keys: seq<string>, entries: Entries, depth: nat, region: set<ConfigTree>, tree: Tree)
    reads region
  {
    Proper(keys, entries, depth, region) && View(keys, entries, depth, region) == tree
  }

  ghost predicate Shows(t: ConfigTree, depth: nat, region: set<ConfigTree>, tree: Tree)
    reads t, region
  {
    Means(t.keys, t.entries, depth, region, tree)
  }

  ghost predicate EntryShows(e: Entry, depth: nat, region: set<ConfigTree>, tree: Tree)
    reads region
  {
    EntryInside(e, depth, region) && EntryView(e, depth, region) == tree
  }

  /** Heap trees list each key once, so they stand for well-formed trees. */
  lemma {:induction false} ViewWellFormed(keys: seq<string>, entries: Entries, depth: nat, region: set<ConfigTree>)
    requires Proper(keys, entries, depth, region)
    ensures WellFormed(View(keys, entries, depth, region))
    decreases depth
  {
    forall k | k in entries
      ensures Ordered(EntryView(entries[k], depth, region))
    {
      if entries[k].Sub? {
        ViewWellFormed(entries[k].tree.keys, entries[k].tree.entries, depth - 1, region);
      }
    }
  }

  /** A larger region changes nothing. */
  lemma {:induction false} Widen(
    keys: seq<string>, entries: Entries, depth: nat, region: set<ConfigTree>, region': set<ConfigTree>, tree: Tree)
    requires Means(keys, entries, depth, region, tree) && region <= region'
    ensures Means(keys, entries, depth, region', tree)
    decreases depth, 1
  {
    forall k | k in entries
      ensures EntryShows(entries[k], depth, region', tree.kids[k])
    {
      EntryWidens(entries[k], depth, region, region', tree.kids[k]);
    }
  }

  lemma {:induction false} EntryWidens(
    e: Entry, depth: nat, region: set<ConfigTree>, region': set<ConfigTree>, tree: Tree)
    requires EntryShows(e, depth, region, tree) && region <= region'
    ensures EntryShows(e, depth, region', tree)
    decreases depth, 0
  {
    if e.Sub? {
      Widen(e.tree.keys, e.tree.entries, depth - 1, region, region', tree);
    }
  }

  lemma PutMeans(
    keys: seq<string>, entries: Entries, key: string, e: Entry, depth: nat, region: set<ConfigTree>, now: Tree, tree: Tree)
    requires Means(keys, entries, depth, region, now) && EntryShows(e, depth, region, tree)
    ensures now.Section?
    ensures Means(if key in entries then keys else keys + [key], entries[key := e], depth, region, Put(now, key, tree))
  {
    var keys' := if key in entries then keys else keys + [key];
    var entries' := entries[key := e];
    assert Proper(keys', entries', depth, region);
    assert View(keys', entries', depth, region).kids == now.kids[key := tree];
  }

  // ---- The merge ----

  /**
    `_merge_configs(a, b, copy_trees=True)`. `region` holds every node below `a` and all of `b`, and `a`
    is not among them; `created` are the nodes made on the way. Only `a` is in the frame: no node of the
    region is written.
   */
  method MergeConfigs(a: ConfigTree, b: ConfigTree, ghost depth: nat, ghost region: set<ConfigTree>,
                      ghost av: Tree, ghost bv: Tree)
    returns (ghost created: set<ConfigTree>)
    requires a !in region && b in region
    requires Shows(a, depth, region, av) && Shows(b, depth, region, bv)
    requires WellFormed(bv) && av.Section?
    modifies a
    ensures fresh(created)
    ensures Shows(a, depth, region + created, Merge(av, bv))
    decreases depth, 3
  {
    created := {};
    assert region + created == region;
    ghost var now := av;
    var i := 0;
    while i < |b.keys|
      invariant 0 <= i <= |b.keys|
      invariant fresh(created)
      invariant unchanged(b) && unchanged(region)
      invariant now.Section? && MergeFrom(now, bv, i) == MergeFrom(av, bv, 0)
      invariant Shows(a, depth, region + created, now)
    {
      now, created := MergeEntry(a, b, i, depth, region, created, now, bv);
      i := i + 1;
    }
  }

  /** The entry at a position of `b`, merged into `a`. */
  method MergeEntry(a: ConfigTree, b: ConfigTree, i: nat, ghost depth: nat, ghost region: set<ConfigTree>,
                    ghost made: set<ConfigTree>, ghost now: Tree, ghost bv: Tree)
    returns (ghost next: Tree, ghost created: set<ConfigTree>)
    requires a !in region + made && b in region && i < |b.keys|
    requires Shows(a, depth, region + made, now) && Shows(b, depth, region, bv)
    requires WellFormed(bv) && now.Section?
    modifies a
    ensures made <= created && fresh(created - made)
    ensures next.Section? && i < |bv.keys| && next == MergeStep(now, bv, i)
    ensures Shows(a, depth, region + created, next)
    decreases depth, 2
  {
    var name := b.keys[i];
    MeansEntry(b.keys, b.entries, name, depth, region, bv);
    ghost var wide := region + made;
    EntryWidens(b.entries[name], depth, region, wide, bv.kids[name]);
    ghost var more := MergeItem(a, name, b.entries[name], depth, wide, now, bv.kids[name]);
    created := made + more;
    assert wide + more == region + created;
    next := MergeStep(now, bv, i);
  }

  lemma MeansEntry(keys: seq<string>, entries: Entries, name: string, depth: nat, region: set<ConfigTree>, tree: Tree)
    requires Means(keys, entries, depth, region, tree)
    ensures tree.Section? && tree.keys == keys && (name in tree.kids <==> name in entries) && (name in keys <==> name in entries)
    ensures name in entries ==> EntryShows(entries[name], depth, region, tree.kids[name])
  {
  }

  lemma EntryShape(e: Entry, depth: nat, region: set<ConfigTree>, tree: Tree)
    requires EntryShows(e, depth, region, tree)
    ensures tree.Section? <==> e.Sub?
  {
    if e.Sub? {
      assert tree == View(e.tree.keys, e.tree.entries, depth - 1, region);
    }
  }

  /** One turn of the loop over `b.items()`. */
  method MergeItem(a: ConfigTree, name: string, value: Entry, ghost depth: nat, ghost region: set<ConfigTree>,
                   ghost now: Tree, ghost tree: Tree)
    returns (ghost created: set<ConfigTree>)
    requires a !in region && Shows(a, depth, region, now) && now.Section?
    requires EntryShows(value, depth, region, tree) && (tree.Section? ==> WellFormed(tree))
    modifies a
    ensures fresh(created)
    ensures var key := Stripped(name);
            Shows(a, depth, region + created,
              Put(now, key, if PREFIX <= name then tree else Combined(now, key, tree)))
    decreases depth, 1
  {
    created := {};
    var override := PREFIX <= name;
    var key := if override then name[|PREFIX|..] else name;
    MeansEntry(a.keys, a.entries, key, depth, region, now);
    EntryShape(value, depth, region, tree);
    if key in a.entries {
      EntryShape(a.entries[key], depth, region, now.kids[key]);
    }
    if !override && key in a.entries && a.entries[key].Sub? && value.Sub? {
      created := MergeSub(a, key, value.tree, depth, region, now, tree);
    } else {
      assert region + created == region;
      SetEntry(a, key, value, depth, region, now, tree);
    }
  }

  method SetEntry(a: ConfigTree, key: string, value: Entry, ghost depth: nat, ghost region: set<ConfigTree>,
                  ghost now: Tree, ghost tree: Tree)
    requires a !in region && Shows(a, depth, region, now) && now.Section?
    requires EntryShows(value, depth, region, tree)
    modifies a
    ensures Shows(a, depth, region, Put(now, key, tree))
  {
    PutMeans(a.keys, a.entries, key, value, depth, region, now, tree);
    a.SetItem(key, value);
  }

  ghost predicate Sectioned(t: Tree, key: string) {
    t.Section? && key in t.kids && t.kids[key].Section?
  }

  /** `a[key] = a[key].copy()`, then the merge into the copy. */
  method MergeSub(a: ConfigTree, key: string, value: ConfigTree, ghost depth: nat,
                  ghost region: set<ConfigTree>, ghost now: Tree, ghost tree: Tree)
    returns (ghost created: set<ConfigTree>)
    requires a !in region && Shows(a, depth, region, now) && Sectioned(now, key)
    requires key in a.entries && a.entries[key].Sub?
    requires EntryShows(Sub(value), depth, region, tree) && WellFormed(tree)
    modifies a
    ensures fresh(created)
    ensures Shows(a, depth, region + created, Put(now, key, Merge(now.kids[key], tree)))
    decreases depth, 0
  {
    MeansEntry(a.keys, a.entries, key, depth, region, now);
    var copy := new ConfigTree.Copy(a.entries[key].tree);
    ghost var below := MergeConfigs(copy, value, depth - 1, region, now.kids[key], tree);
    created := below + {copy};
    ghost var wider := region + created;
    Widen(copy.keys, copy.entries, depth - 1, region + below, wider, Merge(now.kids[key], tree));
    Widen(a.keys, a.entries, depth, region, wider, now);
    SetEntry(a, key, Sub(copy), depth, wider, now, Merge(now.kids[key], tree));
  }

  /** One source merged into the result so far. */
  method ReloadNext(result: ConfigTree, source: ConfigTree, ghost depth: nat, ghost region: set<ConfigTree>,
                    ghost made: set<ConfigTree>, ghost now: Tree, ghost view: Tree)
    returns (ghost created: set<ConfigTree>)
    requires result !in region + made && source in region
    requires Shows(result, depth, region + made, now) && Shows(source, depth, region, view)
    requires WellFormed(view) && now.Section?
    modifies result
    ensures made <= created && fresh(created - made)
    ensures Shows(result, depth, region + created, Merge(now, view))
  {
    Widen(source.keys, source.entries, depth, region, region + made, view);
    ghost var more := MergeConfigs(result, source, depth, region + made, now, view);
    assert region + made + more == region + (made + more);
    created := made + more;
  }

  /**
    `_reload`: the fold over the configuration sources. The frame is empty, so whatever the fold does,
    no source tree and no other node that existed before is written.
   */
  method Reload(sources: seq<ConfigTree>, ghost depth: nat, ghost region: set<ConfigTree>, ghost views: seq<Tree>)
    returns (result: ConfigTree, ghost created: set<ConfigTree>)
    requires |views| == |sources|
    requires forall i :: 0 <= i < |sources| ==>
               sources[i] in region && Shows(sources[i], depth, region, views[i]) && WellFormed(views[i])
    ensures fresh(result) && fresh(created)
    ensures Shows(result, depth, region + created, Fold(views))
    ensures forall i :: 0 <= i < |sources| ==> Shows(sources[i], depth, region, views[i])
  {
    result := new ConfigTree();
    created := {};
    var i := 0;
    while i < |sources|
      invariant 0 <= i <= |sources|
      invariant fresh(result) && fresh(created) && result !in created
      invariant Shows(result, depth, region + created, Fold(views[..i]))
    {
      assert views[..i + 1][..i] == views[..i];
      created := ReloadNext(result, sources[i], depth, region, created, Fold(views[..i]), views[i]);
      i := i + 1;
    }
    assert views[..i] == views;
  }
}
