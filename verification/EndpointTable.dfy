/** The versioned endpoint table, the choice of a version for a request, and the schemas' dual choice. */
module EndpointTable {
  import opened Common

  /** A version, compared first by its major number. */
  datatype Version = Version(major: nat, minor: nat)

  predicate Le(a: Version, b: Version) {
    a.major < b.major || (a.major == b.major && a.minor <= b.minor)
  }

  predicate Lt(a: Version, b: Version) {
    Le(a, b) && a != b
  }

  /** The major number decides, whatever the minor ones; the minor number decides between equal major ones, as numbers. */
  lemma MajorFirst(a: Version, b: Version)
    ensures a.major < b.major ==> Le(a, b) && !Le(b, a)
    ensures a.major == b.major ==> (Le(a, b) <==> b.minor - a.minor >= 0)
    ensures Le(a, b) && Le(b, a) <==> a == b
    ensures Le(Version(2, 9), Version(2, 13)) && !Le(Version(2, 13), Version(2, 9)) && !Le(Version(2, 0), Version(1, 99))
  {
  }

  function Max(a: Version, b: Version): Version {
    if Le(a, b) then b else a
  }

  datatype Endpoint = Endpoint(name: string, version: Version, handler: int)

  type Table = map<string, seq<Endpoint>>

  /** Newest first, no version twice. */
  predicate Descending(s: seq<Endpoint>) {
    forall i, j :: 0 <= i < j < |s| ==> Lt(s[j].version, s[i].version)
  }

  /** Puts an endpoint before the first one that is not newer. */
  function Insert(s: seq<Endpoint>, e: Endpoint): seq<Endpoint> {
    if s == [] || Le(s[0].version, e.version) then [e] + s else [s[0]] + Insert(s[1..], e)
  }

  /** `sort(key=min_version, reverse=True)` */
  function Sorted(s: seq<Endpoint>): seq<Endpoint> {
    if s == [] then [] else Insert(Sorted(s[..|s| - 1]), s[|s| - 1])
  }

  predicate HasVersion(s: seq<Endpoint>, v: Version) {
    exists i :: 0 <= i < |s| && s[i].version == v
  }

  predicate AtMost(s: seq<Endpoint>, v: Version) {
    forall e :: e in s ==> Le(e.version, v)
  }

  /** The endpoints of a name: none when the name is missing. */
  function Versions(t: Table, name: string): seq<Endpoint> {
    if name in t then t[name] else []
  }

  function Register(t: Table, e: Endpoint): Result<Table, string> {
    var known := Versions(t, e.name);
    if HasVersion(known, e.version) then Err("Trying to register an existing endpoint")
    else Ok(t[e.name := Sorted(known + [e])])
  }

  function RegisterAll(t: Table, es: seq<Endpoint>): Result<Table, string>
    decreases |es|
  {
    if es == [] then Ok(t)
    else
      var next := Register(t, es[0]);
      if next.Err? then next else RegisterAll(next.value, es[1..])
  }

  // ---- Sorting ----

  lemma {:induction false} InsertLaws(s: seq<Endpoint>, e: Endpoint)
    requires Descending(s) && !HasVersion(s, e.version)
    ensures Descending(Insert(s, e))
    ensures forall x :: x in Insert(s, e) <==> x in s || x == e
  {
    if s != [] && !Le(s[0].version, e.version) {
      assert forall i :: 0 <= i < |s[1..]| ==> s[1..][i] == s[i + 1];
      InsertLaws(s[1..], e);
      var rest := Insert(s[1..], e);
      forall j | 0 <= j < |rest| ensures Lt(rest[j].version, s[0].version) {
        assert rest[j] in rest;
      }
      assert s == [s[0]] + s[1..];
    }
  }

  lemma {:induction false} SortedIsSame(s: seq<Endpoint>)
    requires Descending(s)
    ensures Sorted(s) == s
  {
    if s != [] {
      var init, last := s[..|s| - 1], s[|s| - 1];
      SortedIsSame(init);
      InsertLast(init, last);
    }
  }

  lemma {:induction false} InsertLast(s: seq<Endpoint>, e: Endpoint)
    requires forall i :: 0 <= i < |s| ==> Lt(e.version, s[i].version)
    ensures Insert(s, e) == s + [e]
  {
    if s != [] {
      InsertLast(s[1..], e);
    }
  }

  /** There is one way to list a set of endpoints newest first. */
  lemma {:induction false} DescendingUnique(a: seq<Endpoint>, b: seq<Endpoint>)
    requires Descending(a) && Descending(b)
    requires forall x :: x in a <==> x in b
    ensures a == b
    decreases |a|
  {
    assert b != [] ==> b[0] in b;
    if a != [] {
      assert a[0] in b;
      assert b != [] && b[0] in a;
      assert a[0] == b[0];
      forall x ensures x in a[1..] <==> x in b[1..] {
        TailMembers(a, x);
        TailMembers(b, x);
      }
      DescendingUnique(a[1..], b[1..]);
      assert a == [a[0]] + a[1..] && b == [b[0]] + b[1..];
    }
  }

  lemma TailMembers(s: seq<Endpoint>, x: Endpoint)
    requires Descending(s) && s != []
    ensures x in s[1..] <==> x in s && x != s[0]
  {
    if x in s && x != s[0] {
      var i :| 0 <= i < |s| && s[i] == x;
      assert s[1..][i - 1] == x;
    }
  }

  // ---- Registration in any order ----

  function Elements(es: multiset<Endpoint>): set<Endpoint> {
    set e | e in es
  }

  /** Every name has a list, newest first, of endpoints of that name. */
  ghost predicate Listed(t: Table) {
    forall name :: name in t ==> t[name] != [] && Descending(t[name]) && AllNamed(t[name], name)
  }

  predicate AllNamed(s: seq<Endpoint>, name: string) {
    forall e :: e in s ==> e.name == name
  }

  /** The table holds exactly these endpoints. */
  ghost predicate Holds(t: Table, es: set<Endpoint>) {
    && Listed(t)
    && forall e :: e in es <==> e in Versions(t, e.name)
  }

  lemma RegisterFails(t: Table, es: set<Endpoint>, e: Endpoint)
    requires Holds(t, es)
    ensures Register(t, e).Err? <==> exists x :: x in es && x.name == e.name && x.version == e.version
  {
    var known := Versions(t, e.name);
    if HasVersion(known, e.version) {
      var i :| 0 <= i < |known| && known[i].version == e.version;
      assert known[i] in known && known[i] in es;
    }
    if x :| x in es && x.name == e.name && x.version == e.version {
      var i :| 0 <= i < |known| && known[i] == x;
    }
  }

  lemma InsertedHolds(t: Table, es: set<Endpoint>, e: Endpoint, eps: seq<Endpoint>)
    requires Holds(t, es) && Descending(eps)
    requires forall x :: x in eps <==> x in Versions(t, e.name) || x == e
    ensures Holds(t[e.name := eps], es + {e})
  {
    var next := t[e.name := eps];
    assert e in eps;
    assert AllNamed(eps, e.name);
    assert Listed(next);
    forall x ensures x in es + {e} <==> x in Versions(next, x.name) {
      assert x in es <==> x in Versions(t, x.name);
      if x.name == e.name {
        assert Versions(next, x.name) == eps;
      }
    }
  }

  lemma RegisterHolds(t: Table, es: set<Endpoint>, e: Endpoint)
    requires Holds(t, es) && Register(t, e).Ok?
    ensures Holds(Register(t, e).value, es + {e})
  {
    var known := Versions(t, e.name);
    assert (known + [e])[..|known|] == known;
    SortedIsSame(known);
    InsertLaws(known, e);
    InsertedHolds(t, es, e, Insert(known, e));
  }

  /** No two of the endpoints, counted with repetition, share a name and a version. */
  ghost predicate NoClash(es: multiset<Endpoint>) {
    && (forall a, b :: a in es && b in es && SameSlot(a, b) ==> a == b)
    && (forall a :: a in es ==> es[a] == 1)
  }

  predicate SameSlot(a: Endpoint, b: Endpoint) {
    a.name == b.name && a.version == b.version
  }

  lemma NoClashAdd(done: multiset<Endpoint>, e: Endpoint)
    requires NoClash(done) && forall x :: x in done ==> !SameSlot(x, e)
    ensures NoClash(done + multiset{e})
  {
    assert e !in done;
  }

  lemma ClashStays(done: multiset<Endpoint>, more: multiset<Endpoint>, x: Endpoint, e: Endpoint)
    requires x in done && e in more && SameSlot(x, e)
    ensures !NoClash(done + more)
  {
    var all := done + more;
    assert x in all && e in all;
    assert x == e ==> all[e] >= 2;
  }

  lemma Regrouped(done: multiset<Endpoint>, es: seq<Endpoint>)
    requires es != []
    ensures done + multiset(es) == done + multiset{es[0]} + multiset(es[1..])
    ensures Elements(done + multiset{es[0]}) == Elements(done) + {es[0]}
    ensures es[0] in multiset(es)
  {
    assert es == [es[0]] + es[1..];
  }

  /** What registering one more endpoint means for the clashes. */
  lemma NextRegistered(t: Table, done: multiset<Endpoint>, es: seq<Endpoint>)
    requires Holds(t, Elements(done)) && NoClash(done) && es != []
    ensures Register(t, es[0]).Ok? ==> NoClash(done + multiset{es[0]})
    ensures Register(t, es[0]).Err? ==> !NoClash(done + multiset(es))
  {
    RegisterFails(t, Elements(done), es[0]);
    Regrouped(done, es);
    if Register(t, es[0]).Ok? {
      forall x | x in done ensures !SameSlot(x, es[0]) {
        assert x in Elements(done);
      }
      NoClashAdd(done, es[0]);
    } else {
      var x :| x in Elements(done) && x.name == es[0].name && x.version == es[0].version;
      ClashStays(done, multiset(es), x, es[0]);
    }
  }

  lemma {:induction false} RegisterAllHolds(t: Table, done: multiset<Endpoint>, es: seq<Endpoint>)
    requires Holds(t, Elements(done)) && NoClash(done)
    ensures RegisterAll(t, es).Ok? <==> NoClash(done + multiset(es))
    ensures RegisterAll(t, es).Ok? ==> Holds(RegisterAll(t, es).value, Elements(done + multiset(es)))
    decreases |es|
  {
    if es == [] {
      assert done + multiset(es) == done;
    } else {
      NextRegistered(t, done, es);
      Regrouped(done, es);
      if Register(t, es[0]).Ok? {
        RegisterHolds(t, Elements(done), es[0]);
        RegisterAllHolds(Register(t, es[0]).value, done + multiset{es[0]}, es[1..]);
      }
    }
  }

  lemma HoldsUnique(a: Table, b: Table, es: set<Endpoint>)
    requires Holds(a, es) && Holds(b, es)
    ensures a == b
  {
    forall name ensures Versions(a, name) == Versions(b, name) {
      forall e ensures e in Versions(a, name) <==> e in Versions(b, name) {
        assert e in es <==> e in Versions(a, e.name);
        assert e in es <==> e in Versions(b, e.name);
      }
      DescendingUnique(Versions(a, name), Versions(b, name));
    }
    forall name ensures name in a <==> name in b {
      assert Versions(a, name) == Versions(b, name);
    }
    assert forall name :: name in a ==> a[name] == Versions(a, name) == Versions(b, name) == b[name];
  }

  /** From an empty table, registration succeeds exactly when no two endpoints clash, and lists them newest first. */
  lemma RegisteredExactly(es: seq<Endpoint>)
    ensures RegisterAll(map[], es).Ok? <==> NoClash(multiset(es))
    ensures RegisterAll(map[], es).Ok? ==> Holds(RegisterAll(map[], es).value, Elements(multiset(es)))
  {
    assert multiset{} + multiset(es) == multiset(es);
    assert Holds(map[], Elements(multiset{}));
    RegisterAllHolds(map[], multiset{}, es);
  }

  /** Registering the same endpoints in another order gives the same table, or fails as well. */
  lemma OrderDoesNotMatter(one: seq<Endpoint>, two: seq<Endpoint>)
    requires multiset(one) == multiset(two)
    ensures RegisterAll(map[], one).Ok? <==> RegisterAll(map[], two).Ok?
    ensures RegisterAll(map[], one).Ok? ==> RegisterAll(map[], one) == RegisterAll(map[], two)
  {
    RegisteredExactly(one);
    RegisteredExactly(two);
    if RegisterAll(map[], one).Ok? {
      HoldsUnique(RegisterAll(map[], one).value, RegisterAll(map[], two).value, Elements(multiset(one)));
    }
  }

  // ---- Lookup ----

  /** The first endpoint that is not newer than the request. */
  function First(s: seq<Endpoint>, v: Version): Option<Endpoint> {
    if s == [] then None else if Le(s[0].version, v) then Some(s[0]) else First(s[1..], v)
  }

  /** `r` is the newest endpoint not newer than the request; `None` says that there is none. */
  ghost predicate Newest(s: seq<Endpoint>, v: Version, r: Option<Endpoint>) {
    match r
    case None => forall e :: e in s ==> !Le(e.version, v)
    case Some(e) => e in s && Le(e.version, v) && forall x :: x in s && Le(x.version, v) ==> Le(x.version, e.version)
  }

  lemma {:induction false} FirstIsNewest(s: seq<Endpoint>, v: Version)
    requires Descending(s)
    ensures Newest(s, v, First(s, v))
  {
    if s != [] {
      FirstIsNewest(s[1..], v);
      assert s == [s[0]] + s[1..];
      forall x | x in s ensures Le(x.version, s[0].version) {
        var i :| 0 <= i < |s| && s[i] == x;
      }
    }
  }

  /** A newer request is served by an endpoint at least as new. */
  lemma LookupMonotone(s: seq<Endpoint>, v: Version, w: Version)
    requires Descending(s) && Le(v, w) && First(s, v).Some?
    ensures First(s, w).Some? && Le(First(s, v).value.version, First(s, w).value.version)
  {
    FirstIsNewest(s, v);
    FirstIsNewest(s, w);
  }

  /** A request reaches the newest endpoint of a name exactly when it is not older than that endpoint. */
  lemma ReachesNewestIff(s: seq<Endpoint>, v: Version)
    requires Descending(s) && s != []
    ensures First(s, v) == Some(s[0]) <==> Le(s[0].version, v)
  {
    FirstIsNewest(s, v);
  }

  class ServiceRepo {
    var endpoints: Table
    var maxVersion: Version

    ghost predicate Valid()
      reads this
    {
      exists es :: Holds(endpoints, es)
    }

    constructor (initial: Version)
      ensures Valid() && endpoints == map[] && maxVersion == initial
    {
      endpoints := map[];
      maxVersion := initial;
      new;
      assert Holds(endpoints, {});
    }

    static method AnyOfVersion(eps: seq<Endpoint>, v: Version) returns (found: bool)
      ensures found == HasVersion(eps, v)
    {
      for i := 0 to |eps|
        invariant forall j :: 0 <= j < i ==> eps[j].version != v
      {
        if eps[i].version == v {
          return true;
        }
      }
      found := false;
    }

    method RegisterEndpoint(e: Endpoint) returns (ok: bool)
      requires Valid()
      modifies this`endpoints
      ensures Valid()
      ensures ok == Register(old(endpoints), e).Ok?
      ensures endpoints == if ok then Register(old(endpoints), e).value else old(endpoints)
    {
      ghost var es :| Holds(endpoints, es);
      if Register(endpoints, e).Ok? {
        RegisterHolds(endpoints, es, e);
      }
      if e.name in endpoints && endpoints[e.name] != [] {
        var known := AnyOfVersion(endpoints[e.name], e.version);
        if known {
          return false;
        }
        endpoints := endpoints[e.name := endpoints[e.name] + [e]];
      } else {
        endpoints := endpoints[e.name := [e]];
        assert [] + [e] == [e];
      }
      endpoints := endpoints[e.name := Sorted(endpoints[e.name])];
      assert endpoints == Register(old(endpoints), e).value;
      assert Holds(endpoints, es + {e});
      ok := true;
    }

    method GetEndpoint(name: string, version: Version) returns (r: Option<Endpoint>)
      requires Valid()
      ensures r == First(Versions(endpoints, name), version)
      ensures Newest(Versions(endpoints, name), version, r)
    {
      ghost var es :| Holds(endpoints, es);
      FirstIsNewest(Versions(endpoints, name), version);
      if name !in endpoints || endpoints[name] == [] {
        return None;
      }
      var versions := endpoints[name];
      assert versions[0..] == versions;
      for i := 0 to |versions|
        invariant First(versions[i..], version) == First(versions, version)
      {
        assert versions[i..][1..] == versions[i + 1..];
        if Le(versions[i].version, version) {
          return Some(versions[i]);
        }
      }
      r := None;
    }

    /** The last step of loading: `max` over no endpoints at all is an error. */
    method UpdateMaxVersion() returns (ok: bool)
      requires Valid()
      modifies this`maxVersion
      ensures ok <==> endpoints != map[]
      ensures !ok ==> maxVersion == old(maxVersion)
      ensures ok ==> Le(old(maxVersion), maxVersion)
      ensures ok ==> forall name :: name in endpoints ==> AtMost(endpoints[name], maxVersion)
      ensures ok && maxVersion != old(maxVersion) ==>
        exists name :: name in endpoints && HasVersion(endpoints[name], maxVersion)
    {
      if endpoints == map[] {
        return false;
      }
      var todo := endpoints.Keys;
      while todo != {}
        invariant todo <= endpoints.Keys
        invariant Le(old(maxVersion), maxVersion)
        invariant forall name :: name in endpoints && name !in todo ==> AtMost(endpoints[name], maxVersion)
        invariant maxVersion == old(maxVersion) || exists name :: name in endpoints && HasVersion(endpoints[name], maxVersion)
        decreases |todo|
      {
        var name :| name in todo;
        todo := todo - {name};
        maxVersion := NewestOf(endpoints[name], maxVersion);
      }
      ok := true;
    }

    /** The newest of a version and those of some endpoints. */
    static method NewestOf(eps: seq<Endpoint>, v: Version) returns (r: Version)
      ensures Le(v, r) && AtMost(eps, r)
      ensures r == v || HasVersion(eps, r)
    {
      r := v;
      for i := 0 to |eps|
        invariant Le(v, r) && (r == v || HasVersion(eps, r))
        invariant forall j :: 0 <= j < i ==> Le(eps[j].version, r)
      {
        r := Max(r, eps[i].version);
      }
    }

    /** After loading, a path without a version reaches the newest endpoint of every name. */
    method GetUnversioned(name: string) returns (r: Option<Endpoint>)
      requires Valid()
      requires forall n :: n in endpoints ==> AtMost(endpoints[n], maxVersion)
      ensures r.Some? <==> name in endpoints
      ensures r.Some? ==> r.value in endpoints[name]
      ensures r.Some? ==> forall e :: e in endpoints[name] ==> Le(e.version, r.value.version)
    {
      ghost var es :| Holds(endpoints, es);
      r := GetEndpoint(name, maxVersion);
      if name in endpoints {
        assert endpoints[name][0] in endpoints[name];
      }
    }
  }

  // ---- The schemas' endpoint versions ----

  /** Oldest first. */
  predicate Ascending(s: seq<Endpoint>) {
    forall i, j :: 0 <= i < j < |s| ==> Le(s[i].version, s[j].version)
  }

  /** `sorted(key=attrgetter("version"))`, one endpoint at a time: after those that are not newer. */
  function Placed(s: seq<Endpoint>, e: Endpoint): seq<Endpoint> {
    if s == [] || !Le(s[0].version, e.version) then [e] + s else [s[0]] + Placed(s[1..], e)
  }

  lemma {:induction false} PlacedLaws(s: seq<Endpoint>, e: Endpoint)
    requires Ascending(s)
    ensures Ascending(Placed(s, e))
    ensures forall x :: x in Placed(s, e) <==> x in s || x == e
  {
    if s != [] && Le(s[0].version, e.version) {
      var rest := Placed(s[1..], e);
      PlacedLaws(s[1..], e);
      forall j | 0 <= j < |rest| ensures Le(s[0].version, rest[j].version) {
        assert rest[j] in rest;
        if rest[j] in s[1..] {
          var i :| 0 <= i < |s[1..]| && s[1..][i] == rest[j];
          assert s[i + 1] == rest[j];
        }
      }
      assert s == [s[0]] + s[1..];
    }
  }

  /** The endpoint one entry of the configuration stands for: a version key and its schema. */
  predicate Configured(conf: map<string, int>, parse: string -> Option<Version>, e: Endpoint) {
    e.name in conf && parse(e.name) == Some(e.version) && e.handler == conf[e.name]
  }

  class EndpointVersionsGroup {
    var endpoints: seq<Endpoint>

    constructor ()
      ensures endpoints == []
    {
      endpoints := [];
    }

    /** `_init_endpoints`: a key that is no version raises before anything is set. */
    method InitEndpoints(conf: map<string, int>, parse: string -> Option<Version>) returns (ok: bool)
      modifies this
      ensures ok <==> forall key :: key in conf ==> parse(key).Some?
      ensures !ok ==> endpoints == old(endpoints)
      ensures ok ==> Ascending(endpoints) && forall e :: e in endpoints <==> Configured(conf, parse, e)
    {
      var sorted: seq<Endpoint> := [];
      var todo := conf.Keys;
      while todo != {}
        invariant todo <= conf.Keys && Ascending(sorted) && endpoints == old(endpoints)
        invariant forall key :: key in conf.Keys - todo ==> parse(key).Some?
        invariant forall e :: e in sorted <==> e.name !in todo && Configured(conf, parse, e)
        decreases |todo|
      {
        var key :| key in todo;
        todo := todo - {key};
        if parse(key).None? {
          return false;
        }
        var e := Endpoint(key, parse(key).value, conf[key]);
        PlacedLaws(sorted, e);
        sorted := Placed(sorted, e);
      }
      endpoints := sorted;
      ok := true;
    }

    /** The oldest schema not older than the version, or an error when there is none. */
    method GetForVersion(minVersion: Version) returns (r: Result<Endpoint, string>)
      requires Ascending(endpoints)
      ensures r.Err? <==> forall e :: e in endpoints ==> !Le(minVersion, e.version)
      ensures r.Ok? ==> r.value in endpoints && Le(minVersion, r.value.version)
      ensures r.Ok? ==> forall e :: e in endpoints && Le(minVersion, e.version) ==> Le(r.value.version, e.version)
    {
      if endpoints == [] {
        return Err("endpoint group has no versions");
      }
      for i := 0 to |endpoints|
        invariant forall j :: 0 <= j < i ==> !Le(minVersion, endpoints[j].version)
      {
        if Le(minVersion, endpoints[i].version) {
          return Ok(endpoints[i]);
        }
      }
      r := Err("min_version is higher than highest version in group");
    }
  }
}
