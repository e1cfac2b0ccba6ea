/** The merge law for sources with override keys at any depth. */
module ConfigOverrides {
  import opened Common
  import opened ConfigMerge

  /** What a section says about a key: nothing, a value, an override, or an override followed by a value. */
  datatype Contribution = Nothing | Plainly(value: Tree) | Wholly(value: Tree) | WhollyThen(over: Tree, value: Tree)

  function Position(keys: seq<string>, key: string): nat {
    if keys == [] || keys[0] == key then 0 else 1 + Position(keys[1..], key)
  }

  /** Only the entries `k` and `-k` of a section address `k`; their order decides when both are there. */
  function Contributed(b: Tree, k: string): Contribution
    requires b.Section?
  {
    var plain := !(PREFIX <= k) && k in b.kids;
    var over := PREFIX + k in b.kids;
    if plain && over then
      if Position(b.keys, PREFIX + k) < Position(b.keys, k) then WhollyThen(b.kids[PREFIX + k], b.kids[k])
      else Wholly(b.kids[PREFIX + k])
    else if over then Wholly(b.kids[PREFIX + k])
    else if plain then Plainly(b.kids[k])
    else Nothing
  }

  /**
    What the merge of two trees binds at a path, read off the two trees by walking down the path: an override
    hides the first tree, a value descends where both sides are sections and otherwise replaces.
   */
  function Layered(a: Tree, b: Tree, p: seq<string>): Option<Binding>
    requires a.Section? && WellFormed(b)
    decreases |p|
  {
    if p == [] then Some(Branch)
    else match Contributed(b, p[0])
      case Nothing => At(a, p)
      case Wholly(value) => At(value, p[1..])
      case Plainly(value) =>
        if p[0] in a.kids && a.kids[p[0]].Section? && value.Section? then Layered(a.kids[p[0]], value, p[1..])
        else At(value, p[1..])
      case WhollyThen(over, value) =>
        if over.Section? && value.Section? then Layered(over, value, p[1..]) else At(value, p[1..])
  }

  // ---- The loop at one key ----

  lemma {:induction false} PositionFinds(keys: seq<string>, key: string, at: nat)
    requires at < |keys| && keys[at] == key
    requires forall i, j :: 0 <= i < j < |keys| ==> keys[i] != keys[j]
    ensures Position(keys, key) == at
  {
    if at > 0 {
      PositionFinds(keys[1..], key, at - 1);
    }
  }

  /** Where a key of a section is. */
  lemma KeyAt(b: Tree, key: string) returns (at: nat)
    requires WellFormed(b) && key in b.kids
    ensures at < |b.keys| && b.keys[at] == key && at == Position(b.keys, key)
  {
    assert key in b.keys;
    at :| at < |b.keys| && b.keys[at] == key;
    PositionFinds(b.keys, key, at);
  }

  /** The entries that address a key are the key itself and its override. */
  lemma Addresses(key: string, k: string)
    ensures Stripped(key) == k <==> key == PREFIX + k || (key == k && !(PREFIX <= k))
  {
    if PREFIX <= key {
      assert key == PREFIX + key[1..];
    }
    assert (PREFIX + k)[1..] == k;
  }

  /** What a tree has under a key. */
  function Under(a: Tree, k: string): Option<Tree>
    requires a.Section?
  {
    if k in a.kids then Some(a.kids[k]) else None
  }

  /** One entry that addresses the key, given what was there. */
  function Entered(was: Option<Tree>, key: string, value: Tree): Tree
    requires value.Section? ==> WellFormed(value)
  {
    if !(PREFIX <= key) && was.Some? && was.value.Section? && value.Section? then Merge(was.value, value) else value
  }

  /** The loop as one key sees it. */
  function KeyFrom(was: Option<Tree>, b: Tree, i: nat, k: string): Option<Tree>
    requires WellFormed(b) && i <= |b.keys|
    decreases |b.keys| - i
  {
    if i == |b.keys| then was
    else
      ValueWellFormed(b, i);
      KeyFrom(if Stripped(b.keys[i]) == k then Some(Entered(was, b.keys[i], b.kids[b.keys[i]])) else was, b, i + 1, k)
  }

  lemma ValueWellFormed(b: Tree, n: nat)
    requires WellFormed(b) && n < |b.keys|
    ensures b.keys[n] in b.kids && (b.kids[b.keys[n]].Section? ==> WellFormed(b.kids[b.keys[n]]))
  {
    assert b.keys[n] in b.keys;
  }

  lemma StepUnder(a: Tree, b: Tree, i: nat, k: string) returns (next: Tree)
    requires a.Section? && WellFormed(b) && i < |b.keys|
    ensures b.keys[i] in b.kids && (b.kids[b.keys[i]].Section? ==> WellFormed(b.kids[b.keys[i]]))
    ensures next.Section? && MergeFrom(a, b, i) == MergeFrom(next, b, i + 1)
    ensures Under(next, k) ==
            if Stripped(b.keys[i]) == k then Some(Entered(Under(a, k), b.keys[i], b.kids[b.keys[i]])) else Under(a, k)
  {
    ValueWellFormed(b, i);
    next := MergeStep(a, b, i);
  }

  lemma {:induction false} LoopAtKey(a: Tree, b: Tree, i: nat, k: string)
    requires a.Section? && WellFormed(b) && i <= |b.keys|
    ensures Under(MergeFrom(a, b, i), k) == KeyFrom(Under(a, k), b, i, k)
    decreases |b.keys| - i
  {
    if i < |b.keys| {
      var next := StepUnder(a, b, i, k);
      LoopAtKey(next, b, i + 1, k);
    }
  }

  /** Entries that do not address the key can be skipped. */
  lemma {:induction false} Skip(was: Option<Tree>, b: Tree, i: nat, n: nat, k: string)
    requires WellFormed(b) && i <= n <= |b.keys|
    requires forall j :: i <= j < n ==> Stripped(b.keys[j]) != k
    ensures KeyFrom(was, b, i, k) == KeyFrom(was, b, n, k)
    decreases n - i
  {
    if i < n {
      Skip(was, b, i + 1, n, k);
    }
  }

  /** One entry that addresses the key. */
  lemma LastEntry(was: Option<Tree>, b: Tree, i: nat, n: nat, k: string)
    requires WellFormed(b) && i <= n < |b.keys| && Stripped(b.keys[n]) == k
    requires forall j :: i <= j < |b.keys| && j != n ==> Stripped(b.keys[j]) != k
    ensures b.keys[n] in b.kids && (b.kids[b.keys[n]].Section? ==> WellFormed(b.kids[b.keys[n]]))
    ensures KeyFrom(was, b, i, k) == Some(Entered(was, b.keys[n], b.kids[b.keys[n]]))
  {
    ValueWellFormed(b, n);
    Skip(was, b, i, n, k);
    Skip(Some(Entered(was, b.keys[n], b.kids[b.keys[n]])), b, n + 1, |b.keys|, k);
  }

  /** Two entries that address it: the second finds what the first left. */
  lemma TwoEntries(was: Option<Tree>, b: Tree, m: nat, n: nat, k: string)
    requires WellFormed(b) && m < n < |b.keys| && Stripped(b.keys[m]) == k && Stripped(b.keys[n]) == k
    requires forall j :: 0 <= j < |b.keys| && j != m && j != n ==> Stripped(b.keys[j]) != k
    ensures b.keys[m] in b.kids && (b.kids[b.keys[m]].Section? ==> WellFormed(b.kids[b.keys[m]]))
    ensures b.keys[n] in b.kids && (b.kids[b.keys[n]].Section? ==> WellFormed(b.kids[b.keys[n]]))
    ensures KeyFrom(was, b, 0, k) ==
            Some(Entered(Some(Entered(was, b.keys[m], b.kids[b.keys[m]])), b.keys[n], b.kids[b.keys[n]]))
  {
    ValueWellFormed(b, m);
    Skip(was, b, 0, m, k);
    LastEntry(Some(Entered(was, b.keys[m], b.kids[b.keys[m]])), b, m + 1, n, k);
  }

  /** What the merge leaves under a key, by what the section says about it. */
  function Settled(a: Tree, c: Contribution, k: string): Option<Tree>
    requires a.Section?
    requires c.Plainly? || c.WhollyThen? ==> (c.value.Section? ==> WellFormed(c.value))
  {
    match c
    case Nothing => if k in a.kids then Some(a.kids[k]) else None
    case Plainly(value) => Some(Combined(a, k, value))
    case Wholly(value) => Some(value)
    case WhollyThen(over, value) => Some(if over.Section? && value.Section? then Merge(over, value) else value)
  }

  /** Which entries address a key, by their positions. */
  lemma OnlyThese(b: Tree, k: string)
    requires WellFormed(b)
    ensures forall j :: 0 <= j < |b.keys| && Stripped(b.keys[j]) == k ==>
              b.keys[j] in b.kids && (b.keys[j] == PREFIX + k || (b.keys[j] == k && !(PREFIX <= k)))
  {
    forall j | 0 <= j < |b.keys| && Stripped(b.keys[j]) == k
      ensures b.keys[j] in b.kids && (b.keys[j] == PREFIX + k || (b.keys[j] == k && !(PREFIX <= k)))
    {
      assert b.keys[j] in b.keys;
      Addresses(b.keys[j], k);
    }
  }

  lemma LevelOne(a: Tree, b: Tree, k: string, key: string)
    requires a.Section? && WellFormed(b) && key in b.kids && Stripped(key) == k
    requires forall j :: 0 <= j < |b.keys| && Stripped(b.keys[j]) == k ==> b.keys[j] == key
    ensures b.kids[key].Section? ==> WellFormed(b.kids[key])
    ensures KeyFrom(Under(a, k), b, 0, k) == Some(Entered(Under(a, k), key, b.kids[key]))
  {
    var n := KeyAt(b, key);
    LastEntry(Under(a, k), b, 0, n, k);
  }

  lemma LevelBoth(a: Tree, b: Tree, k: string)
    requires a.Section? && WellFormed(b) && !(PREFIX <= k) && k in b.kids && PREFIX + k in b.kids
    ensures b.kids[k].Section? ==> WellFormed(b.kids[k])
    ensures KeyFrom(Under(a, k), b, 0, k) == Settled(a, Contributed(b, k), k)
  {
    OnlyThese(b, k);
    Addresses(PREFIX + k, k);
    Addresses(k, k);
    var i := KeyAt(b, k);
    var j := KeyAt(b, PREFIX + k);
    if i < j {
      TwoEntries(Under(a, k), b, i, j, k);
    } else {
      TwoEntries(Under(a, k), b, j, i, k);
    }
  }

  lemma LevelLaw(a: Tree, b: Tree, k: string)
    requires a.Section? && WellFormed(b)
    ensures Settled(a, Contributed(b, k), k) == Under(Merge(a, b), k)
  {
    var plain, over := !(PREFIX <= k) && k in b.kids, PREFIX + k in b.kids;
    LoopAtKey(a, b, 0, k);
    OnlyThese(b, k);
    Addresses(PREFIX + k, k);
    Addresses(k, k);
    if plain && over {
      LevelBoth(a, b, k);
    } else if plain {
      LevelOne(a, b, k, k);
    } else if over {
      LevelOne(a, b, k, PREFIX + k);
    } else {
      Skip(Under(a, k), b, 0, |b.keys|, k);
    }
  }

  /** The merge law, for any two trees and at any path, with override keys in any section of the second. */
  lemma {:induction false} LayeredLaw(a: Tree, b: Tree, p: seq<string>)
    requires a.Section? && WellFormed(b)
    ensures At(Merge(a, b), p) == Layered(a, b, p)
    decreases |p|
  {
    if p != [] {
      LevelLaw(a, b, p[0]);
      match Contributed(b, p[0]) {
        case Plainly(value) =>
          if p[0] in a.kids && a.kids[p[0]].Section? && value.Section? {
            LayeredLaw(a.kids[p[0]], value, p[1..]);
          }
        case WhollyThen(over, value) =>
          if over.Section? && value.Section? {
            LayeredLaw(over, value, p[1..]);
          }
        case _ =>
      }
    }
  }

  /** The path leads through sections of both trees, and the second overrides nothing on the way. */
  ghost predicate Through(a: Tree, b: Tree, q: seq<string>)
    decreases |q|
  {
    && a.Section? && WellFormed(b)
    && (q != [] ==>
         && Contributed(b, q[0]).Plainly?
         && q[0] in a.kids && Through(a.kids[q[0]], b.kids[q[0]], q[1..]))
  }

  /** The section a path leads to. */
  function Sub(t: Tree, q: seq<string>): Tree
    decreases |q|
  {
    if q == [] || !t.Section? || q[0] !in t.kids then t else Sub(t.kids[q[0]], q[1..])
  }

  /** An override in a section that is already there, however deep, replaces its key wholesale. */
  lemma {:induction false} OverrideReplacesBelow(a: Tree, b: Tree, q: seq<string>, k: string, p: seq<string>)
    requires Through(a, b, q) && Sub(b, q).Section? && Contributed(Sub(b, q), k).Wholly?
    ensures At(Merge(a, b), q + [k] + p) == At(b, q + ["-" + k] + p)
    decreases |q|
  {
    LayeredLaw(a, b, q + [k] + p);
    if q == [] {
      assert (q + [k] + p)[0] == k && (q + [k] + p)[1..] == p;
      assert (q + [PREFIX + k] + p)[0] == PREFIX + k && (q + [PREFIX + k] + p)[1..] == p;
    } else {
      assert (q + [k] + p)[0] == q[0] && (q + [k] + p)[1..] == q[1..] + [k] + p;
      assert (q + [PREFIX + k] + p)[0] == q[0] && (q + [PREFIX + k] + p)[1..] == q[1..] + [PREFIX + k] + p;
      LayeredLaw(a.kids[q[0]], b.kids[q[0]], q[1..] + [k] + p);
      OverrideReplacesBelow(a.kids[q[0]], b.kids[q[0]], q[1..], k, p);
    }
  }

  /**
    In particular at the top: whatever `k` was, and whatever the section says about `k` before, `-k` leaves exactly its
    own subtree under `k`, unless a later key of the section names `k` again.
   */
  lemma OverrideReplaces(a: Tree, b: Tree, at: nat, k: string, p: seq<string>)
    requires a.Section? && WellFormed(b) && at < |b.keys| && b.keys[at] == "-" + k
    requires forall j :: at < j < |b.keys| ==> Stripped(b.keys[j]) != k
    ensures At(Merge(a, b), [k] + p) == At(b, ["-" + k] + p)
  {
    assert b.keys[at] in b.keys;
    PositionFinds(b.keys, PREFIX + k, at);
    if !(PREFIX <= k) && k in b.kids {
      var i := KeyAt(b, k);
      Addresses(k, k);
    }
    assert [] + [k] + p == [k] + p && [] + [PREFIX + k] + p == [PREFIX + k] + p;
    OverrideReplacesBelow(a, b, [], k, p);
  }

  // ---- Any list of sources ----

  /** A tree that layers were merged into, one after the other. */
  datatype Stack = Stack(base: Tree, layers: seq<Tree>)

  ghost predicate Proper(s: Stack) {
    (s.layers != [] ==> s.base.Section?) && forall layer :: layer in s.layers ==> WellFormed(layer)
  }

  function Merged(s: Stack): (r: Tree)
    requires Proper(s)
    ensures r.Section? <==> s.base.Section?
    decreases |s.layers|
  {
    if s.layers == [] then s.base
    else
      var n := |s.layers| - 1;
      Merge(Merged(Stack(s.base, s.layers[..n])), s.layers[n])
  }

  /** The stack under a key after one more layer: an override or a change of kind starts it anew, a section is put on top. */
  function Pushed(was: Option<Stack>, c: Contribution): Option<Stack> {
    match c
    case Nothing => was
    case Wholly(value) => Some(Stack(value, []))
    case Plainly(value) =>
      if was.Some? && was.value.base.Section? && value.Section?
      then Some(Stack(was.value.base, was.value.layers + [value]))
      else Some(Stack(value, []))
    case WhollyThen(over, value) => Some(if over.Section? && value.Section? then Stack(over, [value]) else Stack(value, []))
  }

  /** The stack under a key, from what base and layers say about the key. */
  function StackUnder(base: Tree, layers: seq<Tree>, k: string): Option<Stack>
    requires base.Section? && forall layer :: layer in layers ==> WellFormed(layer)
    decreases |layers|
  {
    if layers == [] then if k in base.kids then Some(Stack(base.kids[k], [])) else None
    else
      var last := layers[|layers| - 1];
      assert last in layers && WellFormed(last);
      Pushed(StackUnder(base, layers[..|layers| - 1], k), Contributed(last, k))
  }

  lemma ContributedProper(b: Tree, k: string)
    requires WellFormed(b)
    ensures var c := Contributed(b, k);
            && (c.Plainly? || c.WhollyThen? ==> (c.value.Section? ==> WellFormed(c.value)))
            && (c.Wholly? ==> Ordered(c.value))
  {
  }

  /** The stack under a key is what the merged stack has there. */
  lemma {:induction false} StackUnderMerged(s: Stack, k: string)
    requires Proper(s) && s.base.Section?
    ensures var under := StackUnder(s.base, s.layers, k);
            && (under.Some? ==> Proper(under.value))
            && Under(Merged(s), k) == if under.Some? then Some(Merged(under.value)) else None
    decreases |s.layers|
  {
    if s.layers != [] {
      var n := |s.layers| - 1;
      var less, last := Stack(s.base, s.layers[..n]), s.layers[n];
      StackUnderMerged(less, k);
      ContributedProper(last, k);
      LevelLaw(Merged(less), last, k);
      PushedMerged(Merged(less), StackUnder(s.base, less.layers, k), Contributed(last, k), k);
    }
  }

  lemma PushedMerged(a: Tree, was: Option<Stack>, c: Contribution, k: string)
    requires a.Section? && (was.Some? ==> Proper(was.value))
    requires c.Plainly? || c.WhollyThen? ==> (c.value.Section? ==> WellFormed(c.value))
    requires Under(a, k) == if was.Some? then Some(Merged(was.value)) else None
    ensures var now := Pushed(was, c);
            && (now.Some? ==> Proper(now.value))
            && Settled(a, c, k) == if now.Some? then Some(Merged(now.value)) else None
  {
    match c {
      case Plainly(value) =>
        if was.Some? && was.value.base.Section? && value.Section? {
          var layers := was.value.layers;
          assert (layers + [value])[..|layers|] == layers;
        }
      case WhollyThen(over, value) =>
        if over.Section? && value.Section? {
          assert [value][..0] == [];
        }
      case _ =>
    }
  }

  /** What the merge of all layers binds at a path, read off base and layers by walking down the path. */
  ghost function StackAt(s: Stack, p: seq<string>): Option<Binding>
    requires Proper(s)
    decreases |p|
  {
    if p == [] then Some(if s.base.Plain? then Leaf(s.base.value) else Branch)
    else if s.base.Plain? then None
    else
      StackUnderMerged(s, p[0]);
      match StackUnder(s.base, s.layers, p[0])
      case None => None
      case Some(under) => StackAt(under, p[1..])
  }

  lemma {:induction false} StackLaw(s: Stack, p: seq<string>)
    requires Proper(s)
    ensures At(Merged(s), p) == StackAt(s, p)
    decreases |p|
  {
    if p != [] && s.base.Section? {
      StackUnderMerged(s, p[0]);
      var under := StackUnder(s.base, s.layers, p[0]);
      if under.Some? {
        StackLaw(under.value, p[1..]);
      }
    }
  }

  lemma {:induction false} FoldIsMerged(sources: seq<Tree>)
    requires forall source :: source in sources ==> WellFormed(source)
    ensures Proper(Stack(EMPTY, sources)) && Fold(sources) == Merged(Stack(EMPTY, sources))
    decreases |sources|
  {
    if sources != [] {
      FoldIsMerged(sources[..|sources| - 1]);
    }
  }

  /** The law of the fold for sources with override keys in any section: any list, any path. */
  lemma FoldLayeredLaw(sources: seq<Tree>, p: seq<string>)
    requires forall source :: source in sources ==> WellFormed(source)
    ensures Proper(Stack(EMPTY, sources)) && At(Fold(sources), p) == StackAt(Stack(EMPTY, sources), p)
  {
    FoldIsMerged(sources);
    StackLaw(Stack(EMPTY, sources), p);
  }

  predicate Overrides(b: Tree, k: string) {
    b.Section? && (Contributed(b, k).Wholly? || Contributed(b, k).WhollyThen?)
  }

  lemma {:induction false} StackForgets(sources: seq<Tree>, i: nat, k: string)
    requires i < |sources| && forall source :: source in sources ==> WellFormed(source)
    requires Overrides(sources[i], k)
    ensures forall source :: source in sources[i..] ==> WellFormed(source)
    ensures StackUnder(EMPTY, sources, k) == StackUnder(EMPTY, sources[i..], k)
    decreases |sources|
  {
    var n := |sources| - 1;
    assert sources[i..][|sources[i..]| - 1] == sources[n];
    assert sources[i..][..|sources[i..]| - 1] == sources[i..n] == sources[..n][i..];
    if i < n {
      StackForgets(sources[..n], i, k);
    }
  }

  /** What a source overrides, no earlier source is heard about: under its key the fold is the fold from that source on. */
  lemma OverrideForgets(sources: seq<Tree>, i: nat, k: string, p: seq<string>)
    requires i < |sources| && forall source :: source in sources ==> WellFormed(source)
    requires Overrides(sources[i], k)
    ensures forall source :: source in sources[i..] ==> WellFormed(source)
    ensures At(Fold(sources), [k] + p) == At(Fold(sources[i..]), [k] + p)
  {
    StackForgets(sources, i, k);
    FoldLayeredLaw(sources, [k] + p);
    FoldLayeredLaw(sources[i..], [k] + p);
  }
}
