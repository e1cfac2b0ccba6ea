/**
  The configuration merge and the laws of folding it over configuration sources.

  A configuration tree is a plain value or a section: an ordered dictionary of subtrees. `Merge` is
  what `_merge_configs` computes; `ConfigHeap` proves that the in-place method computes it.
 */
module ConfigMerge {
  import opened Common

  datatype Tree = Plain(value: string) | Section(keys: seq<string>, kids: map<string, Tree>)

  const PREFIX := "-"

  const EMPTY := Section([], map[])

  /** The keys list each entry of the dictionary once, at every level. */
  ghost predicate Ordered(t: Tree) {
    t.Section? ==>
      && (forall i, j :: 0 <= i < j < |t.keys| ==> t.keys[i] != t.keys[j])
      && (forall k :: k in t.keys <==> k in t.kids)
      && (forall k :: k in t.kids ==> Ordered(t.kids[k]))
  }

  ghost predicate WellFormed(t: Tree) {
    t.Section? && Ordered(t)
  }

  function Put(t: Tree, key: string, value: Tree): (r: Tree)
    requires t.Section?
    ensures r.Section? && (Ordered(t) && Ordered(value) ==> Ordered(r))
  {
    Section(if key in t.kids then t.keys else t.keys + [key], t.kids[key := value])
  }

  function Stripped(key: string): string {
    if PREFIX <= key then key[|PREFIX|..] else key
  }

  /** The loop over `b.items()` from position `i` on. */
  function MergeFrom(a: Tree, b: Tree, i: nat): (r: Tree)
    requires a.Section? && WellFormed(b) && i <= |b.keys|
    ensures r.Section? && (Ordered(a) ==> Ordered(r))
    decreases b, |b.keys| - i
  {
    if i == |b.keys| then a
    else
      var value := b.kids[b.keys[i]];
      var key := Stripped(b.keys[i]);
      if !(PREFIX <= b.keys[i]) && key in a.kids && a.kids[key].Section? && value.Section? then
        MergeFrom(Put(a, key, MergeFrom(a.kids[key], value, 0)), b, i + 1)
      else
        MergeFrom(Put(a, key, value), b, i + 1)
  }

  function Merge(a: Tree, b: Tree): (r: Tree)
    requires a.Section? && WellFormed(b)
    ensures r.Section? && (Ordered(a) ==> Ordered(r))
  {
    MergeFrom(a, b, 0)
  }

  /** `reduce` over the sources, starting from an empty tree. */
  function Fold(sources: seq<Tree>): (r: Tree)
    requires forall source :: source in sources ==> WellFormed(source)
    ensures WellFormed(r)
  {
    if sources == [] then EMPTY
    else
      var n := |sources| - 1;
      Merge(Fold(sources[..n]), sources[n])
  }

  // ---- Lookup ----

  datatype Binding = Leaf(value: string) | Branch

  function At(t: Tree, p: seq<string>): Option<Binding> {
    if p == [] then Some(if t.Plain? then Leaf(t.value) else Branch)
    else if t.Section? && p[0] in t.kids then At(t.kids[p[0]], p[1..])
    else None
  }

  predicate IsLeaf(binding: Option<Binding>) {
    binding.Some? && binding.value.Leaf?
  }

  /** The tree binds a strict, non-root ancestor of the path to a plain value. */
  ghost predicate Cuts(t: Tree, p: seq<string>) {
    exists n :: 1 <= n < |p| && IsLeaf(At(t, p[..n]))
  }

  /** No key anywhere asks for an override. */
  ghost predicate OverrideFree(t: Tree) {
    t.Section? ==> forall k :: k in t.kids ==> !(PREFIX <= k) && OverrideFree(t.kids[k])
  }

  ghost predicate Source(t: Tree) {
    WellFormed(t) && OverrideFree(t)
  }

  // ---- One level ----

  /** What the loop leaves under a key that no remaining entry addresses: nothing changes. */
  lemma {:induction false} KeyUntouched(a: Tree, b: Tree, i: nat, k: string)
    requires a.Section? && WellFormed(b) && i <= |b.keys|
    requires forall j :: i <= j < |b.keys| ==> Stripped(b.keys[j]) != k
    ensures var r := MergeFrom(a, b, i);
            (k in r.kids <==> k in a.kids) && (k in a.kids ==> r.kids[k] == a.kids[k])
    decreases |b.keys| - i
  {
    if i < |b.keys| {
      KeyUntouched(MergeStep(a, b, i), b, i + 1, k);
    }
  }

  /** One entry of `b.items()`. */
  function MergeStep(a: Tree, b: Tree, i: nat): (r: Tree)
    requires a.Section? && WellFormed(b) && i < |b.keys|
    ensures r.Section? && MergeFrom(a, b, i) == MergeFrom(r, b, i + 1)
  {
    var value := b.kids[b.keys[i]];
    var key := Stripped(b.keys[i]);
    if !(PREFIX <= b.keys[i]) && key in a.kids && a.kids[key].Section? && value.Section? then
      Put(a, key, Merge(a.kids[key], value))
    else
      Put(a, key, value)
  }

  function Combined(a: Tree, key: string, value: Tree): Tree
    requires a.Section? && (value.Section? ==> WellFormed(value))
  {
    if key in a.kids && a.kids[key].Section? && value.Section? then Merge(a.kids[key], value) else value
  }

  /** Without overrides a key addresses itself, and no other entry addresses it. */
  lemma SourceKeys(b: Tree, at: nat)
    requires Source(b) && at < |b.keys|
    ensures b.keys[at] in b.kids && !(PREFIX <= b.keys[at])
    ensures forall j :: 0 <= j < |b.keys| && j != at ==> Stripped(b.keys[j]) != b.keys[at]
  {
    assert b.keys[at] in b.keys;
    forall j | 0 <= j < |b.keys| && j != at ensures Stripped(b.keys[j]) != b.keys[at] {
      assert b.keys[j] in b.keys && b.keys[j] in b.kids && !(PREFIX <= b.keys[j]);
      assert b.keys[if j < at then j else at] != b.keys[if j < at then at else j];
    }
  }

  lemma StepHere(a: Tree, b: Tree, i: nat)
    requires a.Section? && Source(b) && i < |b.keys|
    ensures var k := b.keys[i];
            k in b.kids && k in MergeStep(a, b, i).kids && MergeStep(a, b, i).kids[k] == Combined(a, k, b.kids[k])
  {
    SourceKeys(b, i);
  }

  lemma StepElsewhere(a: Tree, b: Tree, i: nat, k: string)
    requires a.Section? && WellFormed(b) && i < |b.keys| && Stripped(b.keys[i]) != k
    ensures var next := MergeStep(a, b, i);
            (k in next.kids <==> k in a.kids) && (k in a.kids ==> next.kids[k] == a.kids[k])
  {
  }

  lemma {:induction false} KeyMerged(a: Tree, b: Tree, i: nat, at: nat)
    requires a.Section? && Source(b) && i <= at < |b.keys|
    ensures b.keys[at] in b.kids && b.keys[at] in MergeFrom(a, b, i).kids
    ensures MergeFrom(a, b, i).kids[b.keys[at]] == Combined(a, b.keys[at], b.kids[b.keys[at]])
    decreases at - i
  {
    SourceKeys(b, at);
    var next := MergeStep(a, b, i);
    if i < at {
      StepElsewhere(a, b, i, b.keys[at]);
      KeyMerged(next, b, i + 1, at);
    } else {
      StepHere(a, b, i);
      KeyUntouched(next, b, i + 1, b.keys[at]);
    }
  }

  lemma MergeKids(a: Tree, b: Tree, k: string)
    requires a.Section? && Source(b)
    ensures k in Merge(a, b).kids <==> k in a.kids || k in b.kids
    ensures k in b.kids ==> Merge(a, b).kids[k] == Combined(a, k, b.kids[k])
    ensures k in a.kids && k !in b.kids ==> Merge(a, b).kids[k] == a.kids[k]
  {
    if k in b.kids {
      assert k in b.keys;
      var at :| 0 <= at < |b.keys| && b.keys[at] == k;
      KeyMerged(a, b, 0, at);
    } else {
      assert forall j :: 0 <= j < |b.keys| ==> b.keys[j] in b.kids;
      KeyUntouched(a, b, 0, k);
    }
  }

  lemma {:induction false} MergeOverrideFree(a: Tree, b: Tree)
    requires Source(a) && Source(b)
    ensures Source(Merge(a, b))
    decreases b
  {
    forall k | k in Merge(a, b).kids
      ensures !(PREFIX <= k) && OverrideFree(Merge(a, b).kids[k])
    {
      MergeKids(a, b, k);
      if k in a.kids && k in b.kids && a.kids[k].Section? && b.kids[k].Section? {
        MergeOverrideFree(a.kids[k], b.kids[k]);
      }
    }
  }

  // ---- Paths ----

  lemma {:induction false} NothingBelowALeaf(t: Tree, p: seq<string>, n: nat)
    requires n < |p| && IsLeaf(At(t, p[..n]))
    ensures At(t, p) == None
  {
    if n > 0 {
      assert p[..n][0] == p[0] && p[..n][1..] == p[1..][..n - 1];
      NothingBelowALeaf(t.kids[p[0]], p[1..], n - 1);
    }
  }

  lemma CutsBelow(t: Tree, p: seq<string>)
    requires t.Section? && p != [] && p[0] in t.kids
    ensures Cuts(t, p) <==> (|p| > 1 && t.kids[p[0]].Plain?) || Cuts(t.kids[p[0]], p[1..])
  {
    var kid := t.kids[p[0]];
    forall n | 1 <= n < |p|
      ensures At(t, p[..n]) == At(kid, p[1..][..n - 1])
    {
      assert p[..n][0] == p[0] && p[..n][1..] == p[1..][..n - 1];
    }
    if |p| > 1 {
      assert At(t, p[..1]) == At(kid, p[1..][..0]);
    }
    if Cuts(t, p) && !(|p| > 1 && kid.Plain?) {
      var n :| 1 <= n < |p| && IsLeaf(At(t, p[..n]));
      assert IsLeaf(At(kid, p[1..][..n - 1]));
    }
    if Cuts(kid, p[1..]) {
      var m :| 1 <= m < |p[1..]| && IsLeaf(At(kid, p[1..][..m]));
      assert IsLeaf(At(t, p[..m + 1]));
    }
  }

  lemma CutsOutside(t: Tree, p: seq<string>)
    requires t.Section? && p != [] && p[0] !in t.kids
    ensures !Cuts(t, p) && At(t, p) == None
  {
    forall n | 1 <= n < |p|
      ensures At(t, p[..n]) == None
    {
      assert p[..n][0] == p[0];
    }
  }

  /**
    What two sources merge to, at every path: the later source where it binds the path, nothing where
    the later source has a plain value above it, and otherwise the earlier source.
   */
  lemma {:induction false} MergeLaw(a: Tree, b: Tree, p: seq<string>)
    requires a.Section? && Source(b) && p != []
    ensures At(Merge(a, b), p) == if At(b, p).Some? then At(b, p) else if Cuts(b, p) then None else At(a, p)
    decreases |p|
  {
    var k := p[0];
    MergeKids(a, b, k);
    if k in b.kids {
      CutsBelow(b, p);
      if b.kids[k].Section? {
        assert Source(b.kids[k]);
        if |p| > 1 {
          if k in a.kids && a.kids[k].Section? {
            MergeLaw(a.kids[k], b.kids[k], p[1..]);
          } else {
            UncutMeansPlainAbove(a, p);
            if At(b, p).None? && !Cuts(b, p) {
              assert At(a, p) == None;
            }
          }
        }
      } else {
        assert |p| > 1 ==> Cuts(b, p);
      }
    } else {
      CutsOutside(b, p);
    }
  }

  lemma UncutMeansPlainAbove(a: Tree, p: seq<string>)
    requires a.Section? && |p| > 1
    requires p[0] !in a.kids || a.kids[p[0]].Plain?
    ensures At(a, p) == None
  {
  }

  // ---- The fold ----

  lemma {:induction false} FoldIsSource(sources: seq<Tree>)
    requires forall source :: source in sources ==> WellFormed(source) && OverrideFree(source)
    ensures Source(Fold(sources))
  {
    if sources != [] {
      var n := |sources| - 1;
      FoldIsSource(sources[..n]);
      MergeOverrideFree(Fold(sources[..n]), sources[n]);
    }
  }

  ghost predicate Silent(t: Tree, p: seq<string>) {
    At(t, p).None? && !Cuts(t, p)
  }

  /** The source binds the path so, and no later source binds the path or cuts it off. */
  ghost predicate Decides(sources: seq<Tree>, i: nat, p: seq<string>, binding: Binding) {
    && i < |sources|
    && At(sources[i], p) == Some(binding)
    && forall j :: i < j < |sources| ==> Silent(sources[j], p)
  }

  lemma DecidesSnoc(sources: seq<Tree>, p: seq<string>, binding: Binding)
    requires sources != []
    ensures var n := |sources| - 1;
            (exists i :: Decides(sources, i, p, binding)) <==>
              At(sources[n], p) == Some(binding)
              || (Silent(sources[n], p) && exists i :: Decides(sources[..n], i, p, binding))
  {
    var n := |sources| - 1;
    var earlier := sources[..n];
    if At(sources[n], p) == Some(binding) {
      assert Decides(sources, n, p, binding);
    }
    if Silent(sources[n], p) && exists i :: Decides(earlier, i, p, binding) {
      var i: nat :| Decides(earlier, i, p, binding);
      forall j | i < j < |sources|
        ensures Silent(sources[j], p)
      {
        assert j < n ==> earlier[j] == sources[j];
      }
      assert Decides(sources, i, p, binding);
    }
    if exists i :: Decides(sources, i, p, binding) {
      var i: nat :| Decides(sources, i, p, binding);
      if i < n {
        forall j | i < j < n
          ensures Silent(earlier[j], p)
        {
          assert earlier[j] == sources[j];
        }
        assert Decides(earlier, i, p, binding);
      }
    }
  }

  /**
    The law of the fold: a path is bound in the result exactly as in the last source that says anything
    about it, and a plain value at a strict ancestor says that nothing is there.
   */
  lemma {:induction false} FoldLaw(sources: seq<Tree>, p: seq<string>, binding: Binding)
    requires forall source :: source in sources ==> WellFormed(source) && OverrideFree(source)
    requires p != []
    ensures At(Fold(sources), p) == Some(binding) <==> exists i :: Decides(sources, i, p, binding)
  {
    if sources == [] {
    } else {
      var n := |sources| - 1;
      FoldLaw(sources[..n], p, binding);
      MergeLaw(Fold(sources[..n]), sources[n], p);
      DecidesSnoc(sources, p, binding);
    }
  }

  // ---- Identity, idempotence, associativity ----

  /** The same bindings; only the order of the keys may differ. */
  ghost predicate Same(t: Tree, u: Tree) {
    forall p :: p != [] ==> At(t, p) == At(u, p)
  }

  lemma MergeIdentity(a: Tree)
    requires Source(a)
    ensures Same(Merge(EMPTY, a), a) && Merge(a, EMPTY) == a
  {
    forall p | p != []
      ensures At(Merge(EMPTY, a), p) == At(a, p)
    {
      MergeLaw(EMPTY, a, p);
    }
  }

  lemma MergeIdempotent(a: Tree)
    requires Source(a)
    ensures Same(Merge(a, a), a)
  {
    forall p | p != []
      ensures At(Merge(a, a), p) == At(a, p)
    {
      MergeLaw(a, a, p);
      if Cuts(a, p) {
        var n :| 1 <= n < |p| && IsLeaf(At(a, p[..n]));
        NothingBelowALeaf(a, p, n);
      }
    }
  }

  /** `b` has a plain value between a section of `c` and the path that `a` binds and `c` leaves alone. */
  ghost predicate Severed(a: Tree, b: Tree, c: Tree, p: seq<string>, n: nat) {
    && 1 <= n < |p|
    && At(a, p).Some?
    && IsLeaf(At(b, p[..n]))
    && At(c, p[..n]) == Some(Branch)
    && Silent(c, p)
  }

  ghost predicate SeveredAt(a: Tree, b: Tree, c: Tree, p: seq<string>) {
    exists n :: Severed(a, b, c, p, n)
  }

  lemma CutsOfMerge(b: Tree, c: Tree, p: seq<string>)
    requires Source(b) && Source(c) && p != []
    ensures Cuts(Merge(b, c), p) <==>
              Cuts(c, p) || exists n :: 1 <= n < |p| && IsLeaf(At(b, p[..n])) && Silent(c, p[..n])
  {
    forall n | 1 <= n < |p|
      ensures At(Merge(b, c), p[..n]) == if At(c, p[..n]).Some? then At(c, p[..n])
                                         else if Cuts(c, p[..n]) then None else At(b, p[..n])
    {
      MergeLaw(b, c, p[..n]);
    }
    if Cuts(c, p) {
      var n :| 1 <= n < |p| && IsLeaf(At(c, p[..n]));
      assert IsLeaf(At(Merge(b, c), p[..n]));
    }
    if exists n :: 1 <= n < |p| && IsLeaf(At(b, p[..n])) && Silent(c, p[..n]) {
      var n :| 1 <= n < |p| && IsLeaf(At(b, p[..n])) && Silent(c, p[..n]);
      assert IsLeaf(At(Merge(b, c), p[..n]));
    }
    if Cuts(Merge(b, c), p) && !Cuts(c, p) {
      var n :| 1 <= n < |p| && IsLeaf(At(Merge(b, c), p[..n]));
      assert !IsLeaf(At(c, p[..n]));
      assert Silent(c, p[..n]);
    }
  }

  lemma UncutPrefix(t: Tree, p: seq<string>, n: nat)
    requires n <= |p| && !Cuts(t, p)
    ensures !Cuts(t, p[..n])
  {
    forall m | 1 <= m < n
      ensures !IsLeaf(At(t, p[..n][..m]))
    {
      assert p[..n][..m] == p[..m];
    }
  }

  lemma LeafIsUnique(t: Tree, p: seq<string>, n: nat, m: nat)
    requires 1 <= n < |p| && 1 <= m < |p| && IsLeaf(At(t, p[..n])) && IsLeaf(At(t, p[..m]))
    ensures n == m
  {
    if n < m {
      assert p[..m][..n] == p[..n];
      NothingBelowALeaf(t, p[..m], n);
    } else if m < n {
      assert p[..n][..m] == p[..m];
      NothingBelowALeaf(t, p[..n], m);
    }
  }

  lemma LeftNested(a: Tree, b: Tree, c: Tree, p: seq<string>)
    requires Source(a) && Source(b) && Source(c) && p != []
    ensures At(Merge(Merge(a, b), c), p) ==
              if At(c, p).Some? then At(c, p) else if Cuts(c, p) then None
              else if At(b, p).Some? then At(b, p) else if Cuts(b, p) then None
              else At(a, p)
  {
    MergeOverrideFree(a, b);
    MergeLaw(Merge(a, b), c, p);
    MergeLaw(a, b, p);
  }

  lemma RightNested(a: Tree, b: Tree, c: Tree, p: seq<string>)
    requires Source(a) && Source(b) && Source(c) && p != []
    ensures At(Merge(a, Merge(b, c)), p) ==
              if At(c, p).Some? then At(c, p) else if Cuts(c, p) then None
              else if At(b, p).Some? then At(b, p) else if Cuts(Merge(b, c), p) then None
              else At(a, p)
  {
    MergeOverrideFree(b, c);
    MergeLaw(a, Merge(b, c), p);
    MergeLaw(b, c, p);
    CutsOfMerge(b, c, p);
  }

  /** Where only the middle source cuts the path, the last one decides whether the cut survives. */
  lemma CutSurvives(a: Tree, b: Tree, c: Tree, p: seq<string>)
    requires Source(a) && Source(b) && Source(c) && p != []
    requires Silent(c, p) && At(a, p).Some?
    ensures SeveredAt(a, b, c, p) <==> Cuts(b, p) && !Cuts(Merge(b, c), p)
    ensures Cuts(Merge(b, c), p) ==> Cuts(b, p)
  {
    CutsOfMerge(b, c, p);
    if Cuts(b, p) {
      var n :| 1 <= n < |p| && IsLeaf(At(b, p[..n]));
      CutAt(a, b, c, p, n);
    }
  }

  /** The one place where a tree cuts a path decides. */
  lemma CutAt(a: Tree, b: Tree, c: Tree, p: seq<string>, n: nat)
    requires Silent(c, p) && At(a, p).Some? && 1 <= n < |p| && IsLeaf(At(b, p[..n]))
    ensures SeveredAt(a, b, c, p) <==> At(c, p[..n]).Some?
    ensures (exists m :: 1 <= m < |p| && IsLeaf(At(b, p[..m])) && Silent(c, p[..m])) <==> At(c, p[..n]).None?
  {
    UncutPrefix(c, p, n);
    forall m | 1 <= m < |p| && IsLeaf(At(b, p[..m]))
      ensures m == n
    {
      LeafIsUnique(b, p, n, m);
    }
    if At(c, p[..n]).Some? {
      SilentIsBranch(c, p, n);
      assert Severed(a, b, c, p, n);
    } else {
      assert Silent(c, p[..n]);
    }
  }

  /** A tree that does not cut the path has at most a section on it. */
  lemma SilentIsBranch(c: Tree, p: seq<string>, n: nat)
    requires Silent(c, p) && 1 <= n < |p| && At(c, p[..n]).Some?
    ensures At(c, p[..n]) == Some(Branch)
  {
    assert !IsLeaf(At(c, p[..n]));
  }

  /** The two ways to merge three sources differ at a path exactly where the middle one severs it. */
  lemma AssociativeAt(a: Tree, b: Tree, c: Tree, p: seq<string>)
    requires Source(a) && Source(b) && Source(c) && p != []
    ensures At(Merge(Merge(a, b), c), p) == At(Merge(a, Merge(b, c)), p) <==> !SeveredAt(a, b, c, p)
  {
    LeftNested(a, b, c, p);
    RightNested(a, b, c, p);
    if Silent(c, p) && At(a, p).Some? {
      CutSurvives(a, b, c, p);
      forall n | Severed(a, b, c, p, n)
        ensures At(b, p).None?
      {
        NothingBelowALeaf(b, p, n);
      }
    }
  }

  /** Merging is associative exactly when no plain value of the middle source severs a path. */
  lemma MergeAssociative(a: Tree, b: Tree, c: Tree)
    requires Source(a) && Source(b) && Source(c)
    ensures Same(Merge(Merge(a, b), c), Merge(a, Merge(b, c))) <==> forall p :: p != [] ==> !SeveredAt(a, b, c, p)
  {
    forall p | p != []
      ensures At(Merge(Merge(a, b), c), p) == At(Merge(a, Merge(b, c)), p) <==> !SeveredAt(a, b, c, p)
    {
      AssociativeAt(a, b, c, p);
    }
  }

  ghost predicate Clash(b: Tree, c: Tree, p: seq<string>) {
    IsLeaf(At(b, p)) && At(c, p) == Some(Branch)
  }

  /** In particular when no path is a plain value in the middle source and a section in the last. */
  lemma CompatibleIsAssociative(a: Tree, b: Tree, c: Tree)
    requires Source(a) && Source(b) && Source(c)
    requires forall p :: !Clash(b, c, p)
    ensures Same(Merge(Merge(a, b), c), Merge(a, Merge(b, c)))
  {
    forall p, n | Severed(a, b, c, p, n)
      ensures Clash(b, c, p[..n])
    {
    }
    MergeAssociative(a, b, c);
  }

  function Single(key: string, value: Tree): Tree {
    Section([key], map[key := value])
  }

  lemma SingleIsSource(key: string, value: Tree)
    requires !(PREFIX <= key) && Ordered(value) && OverrideFree(value)
    ensures Source(Single(key, value))
  {
  }

  lemma AtSingle(key: string, value: Tree, p: seq<string>)
    ensures At(Single(key, value), [key] + p) == At(value, p)
  {
    assert ([key] + p)[1..] == p;
  }

  /** And it is not associative in general. */
  lemma NotAssociative()
    ensures var a, b, c := Single("k", Single("x", Plain("1"))), Single("k", Plain("2")), Single("k", EMPTY);
            && Source(a) && Source(b) && Source(c)
            && !Same(Merge(Merge(a, b), c), Merge(a, Merge(b, c)))
  {
    var a, b, c := Single("k", Single("x", Plain("1"))), Single("k", Plain("2")), Single("k", EMPTY);
    assert "k"[0] == 'k' && "x"[0] == 'x' && PREFIX[0] == '-';
    SingleIsSource("x", Plain("1"));
    SingleIsSource("k", Single("x", Plain("1")));
    SingleIsSource("k", Plain("2"));
    SingleIsSource("k", EMPTY);
    var p := ["k", "x"];
    assert p == ["k"] + ["x"] && p[..1] == ["k"] + [] && ["x"] == ["x"] + [];
    AtSingle("x", Plain("1"), []);
    AtSingle("k", Single("x", Plain("1")), ["x"]);
    AtSingle("k", Plain("2"), []);
    AtSingle("k", EMPTY, []);
    AtSingle("k", EMPTY, ["x"]);
    DiffersAt(a, b, c, p);
  }

  lemma DiffersAt(a: Tree, b: Tree, c: Tree, p: seq<string>)
    requires Source(a) && Source(b) && Source(c) && p != [] && Severed(a, b, c, p, 1)
    ensures !Same(Merge(Merge(a, b), c), Merge(a, Merge(b, c)))
  {
    AssociativeAt(a, b, c, p);
  }
}
