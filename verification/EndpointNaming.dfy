/** Naming of external endpoints: the runtime properties of a task double as the registry of its endpoints. */
module EndpointNaming {
  import opened Common

  datatype Value = Num(n: int) | Text(s: string)

  type Properties = map<string, Value>

  /** The endpoints of one protocol: suffix to port. */
  type Registry = map<string, Value>

  datatype Protocol = Http | Tcp

  datatype Route = Route(kind: string, name: string)

  const DEFAULT_ENDPOINT_NAME := ""
  const SEPARATOR := "__"

  function Parse(protocol: string): Option<Protocol> {
    if protocol == "http" then Some(Http) else if protocol == "tcp" then Some(Tcp) else None
  }

  /** The property names an endpoint is stored under. */
  datatype Key = ServiceKey | HttpAddress | HttpPort | TcpAddress | TcpPort | TcpInternal | RouteMode | RouteParam

  function Name(k: Key): string {
    match k
    case ServiceKey => "_SERVICE"
    case HttpAddress => "_ADDRESS"
    case HttpPort => "_PORT"
    case TcpAddress => "external_address"
    case TcpPort => "external_tcp_port"
    case TcpInternal => "upstream_task_port"
    case RouteMode => "_ROUTER_ENDPOINT_MODE"
    case RouteParam => "_ROUTER_ENDPOINT_MODE_PARAM"
  }

  function PortKey(p: Protocol): Key {
    if p.Http? then HttpPort else TcpPort
  }

  function AddressKey(p: Protocol): Key {
    if p.Http? then HttpAddress else TcpAddress
  }

  function InternalPortKey(p: Protocol): Key {
    if p.Http? then HttpPort else TcpInternal
  }

  /** What the port properties of suffixed endpoints start with. */
  function Prefix(p: Protocol): string {
    Name(PortKey(p)) + SEPARATOR
  }

  function Service(p: Protocol): string {
    if p.Http? then "EXTERNAL" else "EXTERNAL_TCP"
  }

  /** `_compose_runtime_key` */
  function Compose(base: string, suffix: string): string {
    if suffix == "" then base else base + SEPARATOR + suffix
  }

  /** The properties one request sets. */
  function Request(p: Protocol, suffix: string, address: string, port: int, route: Option<Route>): Properties {
    map[Compose(Name(ServiceKey), suffix) := Text(Service(p)),
        Compose(Name(AddressKey(p)), suffix) := Text(address),
        Compose(Name(PortKey(p)), suffix) := Num(port)]
    + (if InternalPortKey(p) != PortKey(p) then map[Compose(Name(InternalPortKey(p)), suffix) := Num(port)] else map[])
    + (if route.Some? then
         map[Compose(Name(RouteMode), suffix) := Text(route.value.kind),
             Compose(Name(RouteParam), suffix) := Text(route.value.name)]
       else map[])
  }

  /** A request in its own words: what it writes for a protocol's name, every property with the suffix behind it. */
  function Written(protocol: string, suffix: string, address: string, port: int, route: Option<Route>): Properties {
    var tail := if suffix == "" then "" else "__" + suffix;
    (if protocol == "http" then
       map["_SERVICE" + tail := Text("EXTERNAL"), "_ADDRESS" + tail := Text(address), "_PORT" + tail := Num(port)]
     else
       map["_SERVICE" + tail := Text("EXTERNAL_TCP"), "external_address" + tail := Text(address),
           "external_tcp_port" + tail := Num(port)]
       + map["upstream_task_port" + tail := Num(port)])
    + (if route.Some? then
         map["_ROUTER_ENDPOINT_MODE" + tail := Text(route.value.kind),
             "_ROUTER_ENDPOINT_MODE_PARAM" + tail := Text(route.value.name)]
       else map[])
  }

  lemma Composed(base: string, suffix: string)
    ensures Compose(base, suffix) == base + if suffix == "" then "" else "__" + suffix
  {
    assert base + "" == base;
  }

  lemma RequestIsWritten(protocol: string, suffix: string, address: string, port: int, route: Option<Route>)
    ensures Parse(protocol).Some? <==> protocol == "http" || protocol == "tcp"
    ensures Parse(protocol).Some? ==>
              Request(Parse(protocol).value, suffix, address, port, route) == Written(protocol, suffix, address, port, route)
  {
    if Parse(protocol).Some? {
      forall k {
        Composed(Name(k), suffix);
      }
    }
  }

  /** What belongs to an endpoint of the registry: the bare port property, or one with a separator and the suffix. */
  lemma SuffixIff(protocol: string, key: string, suffix: string)
    requires Parse(protocol).Some?
    ensures var port := if protocol == "http" then "_PORT" else "external_tcp_port";
            SuffixOf(Parse(protocol).value, key) == Some(suffix) <==>
              (key == port && suffix == "") || key == port + "__" + suffix
  {
    var p := Parse(protocol).value;
    var prefix := Prefix(p);
    assert Name(PortKey(p)) + "__" + suffix == prefix + suffix;
    if prefix <= key {
      assert key == prefix + key[|prefix|..];
    }
    assert (prefix + suffix)[|prefix|..] == suffix && prefix <= prefix + suffix;
    assert |prefix + suffix| > |Name(PortKey(p))|;
  }

  // ---- The registry read back from the properties ----

  /** The endpoint a property key belongs to, as `_collect_endpoint_suffixes` sees it. */
  function SuffixOf(p: Protocol, key: string): Option<string> {
    if key == Name(PortKey(p)) then Some(DEFAULT_ENDPOINT_NAME)
    else if Prefix(p) <= key then Some(key[|Prefix(p)|..])
    else None
  }

  /** What collecting may return: one entry per suffix, from some property that has it. */
  ghost predicate IsRegistry(props: Properties, p: Protocol, reg: Registry) {
    && (forall key :: key in props && SuffixOf(p, key).Some? ==> SuffixOf(p, key).value in reg)
    && (forall s :: s in reg ==> exists key :: key in props && SuffixOf(p, key) == Some(s) && props[key] == reg[s])
  }

  /** No property is named like an endpoint with an empty suffix; only outside writers could make one. */
  predicate NoBareKeys(props: Properties) {
    Prefix(Http) !in props && Prefix(Tcp) !in props
  }

  lemma SuffixInjective(p: Protocol, a: string, b: string)
    requires SuffixOf(p, a).Some? && SuffixOf(p, a) == SuffixOf(p, b)
    requires a != Prefix(p) && b != Prefix(p)
    ensures a == b
  {
    var prefix := Prefix(p);
    if a != Name(PortKey(p)) {
      assert a == prefix + a[|prefix|..];
    }
    if b != Name(PortKey(p)) {
      assert b == prefix + b[|prefix|..];
    }
  }

  /** Then there is only one registry to collect. */
  lemma RegistryIsUnique(props: Properties, p: Protocol, one: Registry, two: Registry)
    requires NoBareKeys(props) && IsRegistry(props, p, one) && IsRegistry(props, p, two)
    ensures one == two
  {
    forall s | s in one ensures s in two && one[s] == two[s] {
      var a :| a in props && SuffixOf(p, a) == Some(s) && props[a] == one[s];
      var b :| b in props && SuffixOf(p, b) == Some(s) && props[b] == two[s];
      SuffixInjective(p, a, b);
    }
    forall s | s in two ensures s in one {
      var b :| b in props && SuffixOf(p, b) == Some(s) && props[b] == two[s];
    }
  }

  // ---- Composed keys can be taken apart ----

  /** A base key: every underscore is followed by something else, so a separator can only be the one added. */
  predicate Clean(base: string) {
    base != "" && forall i :: 0 <= i < |base| && base[i] == '_' ==> i + 1 < |base| && base[i + 1] != '_'
  }

  lemma NamesAreClean(k: Key)
    ensures Clean(Name(k))
  {
    match k {
      case ServiceKey => assert Clean("_SERVICE");
      case HttpAddress => assert Clean("_ADDRESS");
      case HttpPort => assert Clean("_PORT");
      case TcpAddress => assert Clean("external_address");
      case TcpPort => assert Clean("external_tcp_port");
      case TcpInternal => assert Clean("upstream_task_port");
      case RouteMode => assert Clean("_ROUTER_ENDPOINT_MODE");
      case RouteParam => assert Clean("_ROUTER_ENDPOINT_MODE_PARAM");
    }
  }

  lemma NamesDiffer(a: Key, b: Key)
    requires Name(a) == Name(b)
    ensures a == b
  {
    assert |Name(a)| == |Name(b)|;
    assert Name(ServiceKey)[1] != Name(HttpAddress)[1];
  }

  /** The first separator ends the base. */
  lemma SplitOnce(a: string, x: string, b: string, y: string)
    requires Clean(a) && Clean(b)
    requires a + SEPARATOR + x == b + SEPARATOR + y
    ensures a == b && x == y
  {
    var whole := a + SEPARATOR + x;
    var other := b + SEPARATOR + y;
    assert whole[|a|] == '_' && whole[|a| + 1] == '_';
    assert other[|b|] == '_' && other[|b| + 1] == '_';
    assert forall i :: 0 <= i < |a| ==> whole[i] == a[i];
    assert forall i :: 0 <= i < |b| ==> other[i] == b[i];
    assert a[|a| - 1] != '_' && b[|b| - 1] != '_';
    assert a == whole[..|a|] && b == other[..|b|] && x == whole[|a| + 2..] && y == other[|b| + 2..];
  }

  /** A clean key is no composed one. */
  lemma NotSeparated(a: string, b: string, y: string)
    requires Clean(a)
    ensures a != b + SEPARATOR + y
  {
    var other := b + SEPARATOR + y;
    assert other[|b|] == '_' && other[|b| + 1] == '_';
  }

  /** Keys of different endpoints, or of different property names, are different. */
  lemma ComposeInjective(a: Key, s: string, b: Key, t: string)
    requires Compose(Name(a), s) == Compose(Name(b), t)
    ensures a == b && s == t
  {
    NamesAreClean(a);
    NamesAreClean(b);
    if s == "" && t != "" {
      NotSeparated(Name(a), Name(b), t);
    } else if s != "" && t == "" {
      NotSeparated(Name(b), Name(a), s);
    } else if s != "" {
      SplitOnce(Name(a), s, Name(b), t);
    }
    NamesDiffer(a, b);
  }

  /** Collecting reads a composed key as its suffix if it is a port key, and ignores it otherwise. */
  lemma SuffixOfComposed(p: Protocol, k: Key, suffix: string)
    ensures SuffixOf(p, Compose(Name(k), suffix)) == if k == PortKey(p) then Some(suffix) else None
    ensures Compose(Name(k), suffix) != Prefix(p)
  {
    var key := Compose(Name(k), suffix);
    var prefix := Prefix(p);
    NamesAreClean(k);
    NamesAreClean(PortKey(p));
    if k == PortKey(p) && suffix != "" {
      assert key == prefix + suffix;
    }
    if prefix <= key {
      var rest := key[|prefix|..];
      assert key == Name(PortKey(p)) + SEPARATOR + rest;
      if suffix == "" {
        NotSeparated(Name(k), Name(PortKey(p)), rest);
      } else {
        SplitOnce(Name(k), suffix, Name(PortKey(p)), rest);
        NamesDiffer(k, PortKey(p));
        NotSeparated(Name(PortKey(p)), Name(k), suffix);
      }
    } else if key == Name(PortKey(p)) {
      assert Compose(Name(PortKey(p)), "") == key;
      ComposeInjective(k, suffix, PortKey(p), "");
    }
  }

  // ---- What a request does to the registries ----

  function RequestKeys(p: Protocol, route: Option<Route>): set<Key> {
    {ServiceKey, AddressKey(p), PortKey(p), InternalPortKey(p)} + (if route.Some? then {RouteMode, RouteParam} else {})
  }

  lemma RequestExact(p: Protocol, suffix: string, address: string, port: int, route: Option<Route>)
    ensures forall key :: key in Request(p, suffix, address, port, route)
              <==> exists k :: k in RequestKeys(p, route) && key == Compose(Name(k), suffix)
  {
    var sets := Request(p, suffix, address, port, route);
    forall k | k in RequestKeys(p, route) ensures Compose(Name(k), suffix) in sets {
      assert InternalPortKey(p) == PortKey(p) ==> Compose(Name(InternalPortKey(p)), suffix) in sets;
    }
  }

  /** What a request means a property of its endpoint to hold. */
  function Meant(p: Protocol, k: Key, address: string, port: int, route: Option<Route>): Option<Value> {
    if k == ServiceKey then Some(Text(Service(p)))
    else if k == AddressKey(p) then Some(Text(address))
    else if k == PortKey(p) || k == InternalPortKey(p) then Some(Num(port))
    else if k == RouteMode && route.Some? then Some(Text(route.value.kind))
    else if k == RouteParam && route.Some? then Some(Text(route.value.name))
    else None
  }

  /** No property of a request overwrites another: each reads back as it was meant. */
  lemma RequestReadsBack(p: Protocol, suffix: string, address: string, port: int, route: Option<Route>, k: Key)
    ensures var sets := Request(p, suffix, address, port, route);
            var key := Compose(Name(k), suffix);
            (if key in sets then Some(sets[key]) else None) == Meant(p, k, address, port, route)
  {
    KeysDiffer(suffix, k);
  }

  lemma KeysDiffer(suffix: string, k: Key)
    ensures forall j :: Compose(Name(j), suffix) == Compose(Name(k), suffix) <==> j == k
  {
    forall j | Compose(Name(j), suffix) == Compose(Name(k), suffix) ensures j == k {
      ComposeInjective(j, suffix, k, suffix);
    }
  }

  lemma OwnPortOnly(p: Protocol, route: Option<Route>, q: Protocol)
    ensures PortKey(q) in RequestKeys(p, route) <==> q == p
  {
  }

  /** What a property set by a request means to a protocol: the request's own port, or nothing. */
  lemma RequestSuffix(p: Protocol, suffix: string, address: string, port: int, route: Option<Route>, q: Protocol, key: string)
    requires key in Request(p, suffix, address, port, route)
    ensures SuffixOf(q, key) ==
            if q == p && key == Compose(Name(PortKey(p)), suffix) then Some(suffix) else None
  {
    RequestExact(p, suffix, address, port, route);
    var k :| k in RequestKeys(p, route) && key == Compose(Name(k), suffix);
    OwnPortOnly(p, route, q);
    KeyMeans(k, suffix, p, q);
  }

  lemma KeyMeans(k: Key, suffix: string, p: Protocol, q: Protocol)
    requires k == PortKey(q) ==> q == p
    ensures SuffixOf(q, Compose(Name(k), suffix)) ==
            if q == p && Compose(Name(k), suffix) == Compose(Name(PortKey(p)), suffix) then Some(suffix) else None
  {
    SuffixOfComposed(q, k, suffix);
    if Compose(Name(k), suffix) == Compose(Name(PortKey(p)), suffix) {
      ComposeInjective(k, suffix, PortKey(p), suffix);
    }
  }

  /** Properties that mean nothing to a protocol leave its registry alone. */
  lemma RegistryKept(props: Properties, sets: Properties, q: Protocol, reg: Registry)
    requires IsRegistry(props, q, reg)
    requires forall key :: key in sets ==> SuffixOf(q, key) == None
    ensures IsRegistry(props + sets, q, reg)
  {
    forall s | s in reg ensures exists key :: key in props + sets && SuffixOf(q, key) == Some(s) && (props + sets)[key] == reg[s] {
      var key :| key in props && SuffixOf(q, key) == Some(s) && props[key] == reg[s];
      assert key !in sets;
    }
  }

  /** One property that means a suffix sets that suffix. */
  lemma RegistrySet(props: Properties, sets: Properties, q: Protocol, reg: Registry, own: string, suffix: string)
    requires IsRegistry(props, q, reg)
    requires own in sets
    requires forall key :: key in sets ==> SuffixOf(q, key) == if key == own then Some(suffix) else None
    ensures IsRegistry(props + sets, q, reg[suffix := sets[own]])
  {
    var next := reg[suffix := sets[own]];
    forall s | s in next ensures exists key :: key in props + sets && SuffixOf(q, key) == Some(s) && (props + sets)[key] == next[s] {
      if s == suffix {
        assert own in props + sets && SuffixOf(q, own) == Some(s);
      } else {
        var key :| key in props && SuffixOf(q, key) == Some(s) && props[key] == reg[s];
        assert key !in sets;
      }
    }
  }

  lemma OwnPortSet(p: Protocol, suffix: string, address: string, port: int, route: Option<Route>)
    ensures var sets := Request(p, suffix, address, port, route);
            Compose(Name(PortKey(p)), suffix) in sets && sets[Compose(Name(PortKey(p)), suffix)] == Num(port)
  {
    RequestReadsBack(p, suffix, address, port, route, PortKey(p));
  }

  /** The request adds its endpoint to its protocol's registry, or replaces it there, and changes nothing else. */
  lemma RegistryAfter(props: Properties, p: Protocol, suffix: string, address: string, port: int, route: Option<Route>,
                      q: Protocol, reg: Registry)
    requires IsRegistry(props, q, reg)
    ensures IsRegistry(props + Request(p, suffix, address, port, route), q,
                       if q == p then reg[suffix := Num(port)] else reg)
  {
    var sets := Request(p, suffix, address, port, route);
    forall key | key in sets
      ensures SuffixOf(q, key) == if q == p && key == Compose(Name(PortKey(p)), suffix) then Some(suffix) else None
    {
      RequestSuffix(p, suffix, address, port, route, q, key);
    }
    if q == p {
      OwnPortSet(p, suffix, address, port, route);
      RegistrySet(props, sets, q, reg, Compose(Name(PortKey(p)), suffix), suffix);
    } else {
      RegistryKept(props, sets, q, reg);
    }
  }

  lemma NoBareKeysKept(props: Properties, p: Protocol, suffix: string, address: string, port: int, route: Option<Route>)
    requires NoBareKeys(props)
    ensures NoBareKeys(props + Request(p, suffix, address, port, route))
  {
    RequestExact(p, suffix, address, port, route);
    forall q, k | k in RequestKeys(p, route) ensures Compose(Name(k), suffix) != Prefix(q) {
      SuffixOfComposed(q, k, suffix);
    }
  }

  /** A property of any endpoint of any protocol after a request: set to what is meant, or left alone. */
  lemma PropertyAfter(props: Properties, p: Protocol, suffix: string, address: string, port: int, route: Option<Route>,
                      k: Key, other: string)
    ensures var key := Compose(Name(k), other);
            var after := props + Request(p, suffix, address, port, route);
            var meant := Meant(p, k, address, port, route);
            if other == suffix && meant.Some? then key in after && after[key] == meant.value
            else SameAt(props, after, key)
  {
    if other == suffix {
      RequestReadsBack(p, suffix, address, port, route, k);
    } else {
      RequestExact(p, suffix, address, port, route);
      forall j | j in RequestKeys(p, route) ensures Compose(Name(j), suffix) != Compose(Name(k), other) {
        if Compose(Name(j), suffix) == Compose(Name(k), other) {
          ComposeInjective(j, suffix, k, other);
        }
      }
    }
  }

  /**
    The endpoint of the other protocol with the same suffix keeps its address and ports. The service property is
    shared and now names this protocol, and so are the route properties, which survive exactly without a route.
   */
  lemma OtherProtocolAfter(props: Properties, p: Protocol, suffix: string, address: string, port: int, route: Option<Route>,
                           q: Protocol, k: Key)
    requires q != p
    ensures var key := Compose(Name(k), suffix);
            var after := props + Request(p, suffix, address, port, route);
            && (k == AddressKey(q) || k == PortKey(q) || k == InternalPortKey(q) ==> SameAt(props, after, key))
            && (k == ServiceKey ==> key in after && after[key] == Text(Service(p)) && after[key] != Text(Service(q)))
            && ((k == RouteMode || k == RouteParam) && route.None? ==> SameAt(props, after, key))
            && (k == RouteMode && route.Some? ==> key in after && after[key] == Text(route.value.kind))
            && (k == RouteParam && route.Some? ==> key in after && after[key] == Text(route.value.name))
  {
    PropertyAfter(props, p, suffix, address, port, route, k, suffix);
    ServicesDiffer();
  }

  lemma ServicesDiffer()
    ensures Service(Http) != Service(Tcp)
  {
    assert |Service(Http)| != |Service(Tcp)|;
  }

  // ---- Choosing a name ----

  function Digit(d: nat): char
    requires d < 10
  {
    "0123456789"[d]
  }

  /** `str(n)` */
  function Decimal(n: nat): (s: string)
    ensures s != ""
  {
    if n < 10 then [Digit(n)] else Decimal(n / 10) + [Digit(n % 10)]
  }

  lemma DigitInjective(a: nat, b: nat)
    requires a < 10 && b < 10 && Digit(a) == Digit(b)
    ensures a == b
  {
  }

  lemma {:induction false} DecimalInjective(a: nat, b: nat)
    requires Decimal(a) == Decimal(b)
    ensures a == b
  {
    if a < 10 && b < 10 {
      DigitInjective(a, b);
    } else if a >= 10 && b >= 10 {
      var s, t := Decimal(a), Decimal(b);
      assert s[..|s| - 1] == Decimal(a / 10) && t[..|t| - 1] == Decimal(b / 10);
      DecimalInjective(a / 10, b / 10);
      assert s[|s| - 1] == Digit(a % 10) && t[|t| - 1] == Digit(b % 10);
      DigitInjective(a % 10, b % 10);
    }
  }

  /** The suffix an unnamed request takes: none if it is free, or else the least free number from 1 on. */
  ghost predicate Chosen(used: set<string>, suffix: string) {
    if DEFAULT_ENDPOINT_NAME !in used then suffix == DEFAULT_ENDPOINT_NAME
    else exists i: nat :: LeastFree(used, i) && suffix == Decimal(i)
  }

  ghost predicate LeastFree(used: set<string>, i: nat) {
    && 1 <= i <= |used|
    && Decimal(i) !in used
    && forall j: nat :: 1 <= j < i ==> Decimal(j) in used
  }

  /** As many names are taken as have been tried. */
  lemma {:induction false} Pigeonhole(used: set<string>, n: nat)
    requires DEFAULT_ENDPOINT_NAME in used
    requires forall j: nat :: 1 <= j <= n ==> Decimal(j) in used
    ensures n < |used|
    decreases n
  {
    if n > 0 {
      var rest := used - {Decimal(n)};
      forall j: nat | 1 <= j <= n - 1 ensures Decimal(j) in rest {
        if Decimal(j) == Decimal(n) {
          DecimalInjective(j, n);
        }
      }
      Pigeonhole(rest, n - 1);
    }
  }

  /** Names taken by unnamed requests alone, one after the other. */
  function AutoName(k: nat): string {
    if k == 0 then DEFAULT_ENDPOINT_NAME else Decimal(k)
  }

  function AutoNames(n: nat): set<string> {
    set k: nat | k < n :: AutoName(k)
  }

  lemma AutoNameInjective(a: nat, b: nat)
    requires AutoName(a) == AutoName(b)
    ensures a == b
  {
    if a > 0 && b > 0 {
      DecimalInjective(a, b);
    }
  }

  /** After `n` unnamed requests the next one takes the next number. */
  lemma UnnamedInOrder(n: nat, suffix: string)
    requires Chosen(AutoNames(n), suffix)
    ensures suffix == AutoName(n) && AutoNames(n) + {suffix} == AutoNames(n + 1)
  {
    if n > 0 {
      assert AutoName(0) in AutoNames(n);
      assert forall k: nat :: k < n ==> AutoName(k) in AutoNames(n);
      var i: nat :| LeastFree(AutoNames(n), i) && suffix == Decimal(i);
      assert i < n ==> AutoName(i) in AutoNames(n);
      if n < i {
        assert Decimal(n) in AutoNames(n);
        var k: nat :| k < n && AutoName(k) == AutoName(n);
        AutoNameInjective(k, n);
      }
    }
  }

  // ---- The task ----

  class Task {
    var runtime: Properties

    constructor ()
      ensures runtime == map[]
    {
      runtime := map[];
    }

    method CollectEndpointSuffixes(p: Protocol) returns (results: Registry)
      ensures IsRegistry(runtime, p, results)
    {
      results := map[];
      var todo := runtime.Keys;
      while todo != {}
        invariant todo <= runtime.Keys
        invariant forall key :: key in runtime && key !in todo && SuffixOf(p, key).Some? ==> SuffixOf(p, key).value in results
        invariant forall s :: s in results ==>
          exists key :: key in runtime && SuffixOf(p, key) == Some(s) && runtime[key] == results[s]
        decreases |todo|
      {
        var key :| key in todo;
        todo := todo - {key};
        if key == Name(PortKey(p)) {
          results := results[DEFAULT_ENDPOINT_NAME := runtime[key]];
        } else if Prefix(p) <= key {
          results := results[key[|Prefix(p)|..] := runtime[key]];
        }
      }
    }

    /** The naming part of a request: the suffix for a given name, or a fresh one. */
    method ChooseSuffix(suffixes: Registry, name: Option<string>) returns (suffix: string)
      ensures name.Some? ==> suffix == name.value
      ensures name.None? ==> Chosen(suffixes.Keys, suffix) && suffix !in suffixes
    {
      suffix := DEFAULT_ENDPOINT_NAME;
      if name.Some? {
        suffix := name.value;
      } else if DEFAULT_ENDPOINT_NAME in suffixes {
        var index: nat := 1;
        Pigeonhole(suffixes.Keys, 0);
        while Decimal(index) in suffixes
          invariant 1 <= index <= |suffixes.Keys|
          invariant forall j: nat :: 1 <= j < index ==> Decimal(j) in suffixes
          decreases |suffixes.Keys| - index
        {
          Pigeonhole(suffixes.Keys, index);
          index := index + 1;
        }
        assert LeastFree(suffixes.Keys, index);
        suffix := Decimal(index);
      }
    }

    /** The properties a request sets, collected in the order they are written. */
    static method PropertiesToSet(p: Protocol, suffix: string, port: int, address: string, route: Option<Route>)
      returns (sets: Properties)
      ensures sets == Request(p, suffix, address, port, route)
    {
      sets := map[Compose("_SERVICE", suffix) := Text(Service(p)),
                  Compose(Name(AddressKey(p)), suffix) := Text(address),
                  Compose(Name(PortKey(p)), suffix) := Num(port)];
      if InternalPortKey(p) != PortKey(p) {
        sets := sets[Compose(Name(InternalPortKey(p)), suffix) := Num(port)];
      }
      if route.Some? {
        sets := sets + map[Compose("_ROUTER_ENDPOINT_MODE", suffix) := Text(route.value.kind),
                           Compose("_ROUTER_ENDPOINT_MODE_PARAM", suffix) := Text(route.value.name)];
      }
    }

    /** A request for an external endpoint, up to the properties it sets. */
    method RequestExternalEndpoint(protocol: string, port: int, name: Option<string>, address: string, route: Option<Route>)
      returns (r: Result<string, string>)
      modifies this
      ensures r.Err? <==> protocol != "http" && protocol != "tcp"
      ensures Parse(protocol).None? <==> r.Err?
      ensures r.Ok? ==> runtime == old(runtime) + Written(protocol, r.value, address, port, route)
      ensures r.Err? ==> runtime == old(runtime)
      ensures r.Ok? && name.Some? ==> r.value == name.value
      ensures r.Ok? && name.None? ==> Fresh(old(runtime), Parse(protocol).value, r.value)
      ensures r.Ok? ==> Registered(old(runtime), runtime, Parse(protocol).value, r.value, port)
      ensures r.Ok? ==> PropertiesExact(old(runtime), runtime, Parse(protocol).value, r.value, address, port, route)
    {
      if Parse(protocol).None? {
        return Err("Invalid protocol: " + protocol);
      }
      var p := Parse(protocol).value;
      var suffixes := CollectEndpointSuffixes(p);
      var suffix := ChooseSuffix(suffixes, name);
      var sets := PropertiesToSet(p, suffix, port, address, route);
      RequestLaws(runtime, p, suffix, address, port, route);
      RequestIsWritten(protocol, suffix, address, port, route);
      runtime := runtime + sets;
      r := Ok(suffix);
    }
  }

  /** The suffix is the one an unnamed request takes, and no endpoint of the protocol has it. */
  ghost predicate Fresh(props: Properties, p: Protocol, suffix: string) {
    exists reg :: IsRegistry(props, p, reg) && Chosen(reg.Keys, suffix) && suffix !in reg
  }

  predicate SameAt(before: Properties, after: Properties, key: string) {
    (key in after <==> key in before) && (key in before ==> after[key] == before[key])
  }

  /**
    The endpoint is now in its protocol's registry with its port; every other entry of that registry and the other
    protocol's registry are as they were.
   */
  ghost predicate Registered(before: Properties, after: Properties, p: Protocol, suffix: string, port: int) {
    && (forall q, reg :: IsRegistry(before, q, reg) ==>
         IsRegistry(after, q, if q == p then reg[suffix := Num(port)] else reg))
    && (NoBareKeys(before) ==> NoBareKeys(after))
  }

  /** The property is one the request means to set. */
  ghost predicate IsMeant(p: Protocol, suffix: string, address: string, port: int, route: Option<Route>, key: string) {
    exists k :: key == Compose(Name(k), suffix) && Meant(p, k, address, port, route).Some?
  }

  /** The endpoint's properties hold what the request meant, and no other property of the task has changed. */
  ghost predicate PropertiesExact(
    before: Properties, after: Properties, p: Protocol, suffix: string, address: string, port: int, route: Option<Route>)
  {
    && (forall k :: Meant(p, k, address, port, route).Some? ==>
         && Compose(Name(k), suffix) in after
         && after[Compose(Name(k), suffix)] == Meant(p, k, address, port, route).value)
    && (forall key :: IsMeant(p, suffix, address, port, route, key) || SameAt(before, after, key))
  }

  lemma KeysAreMeant(p: Protocol, address: string, port: int, route: Option<Route>, k: Key)
    ensures k in RequestKeys(p, route) <==> Meant(p, k, address, port, route).Some?
  {
  }

  lemma OnlyMeantChange(props: Properties, p: Protocol, suffix: string, address: string, port: int, route: Option<Route>,
                        key: string)
    ensures IsMeant(p, suffix, address, port, route, key)
         || SameAt(props, props + Request(p, suffix, address, port, route), key)
  {
    RequestExact(p, suffix, address, port, route);
    if key in Request(p, suffix, address, port, route) {
      var k :| k in RequestKeys(p, route) && key == Compose(Name(k), suffix);
      KeysAreMeant(p, address, port, route, k);
      assert IsMeant(p, suffix, address, port, route, key);
    }
  }

  lemma RequestIsExact(props: Properties, p: Protocol, suffix: string, address: string, port: int, route: Option<Route>)
    ensures PropertiesExact(props, props + Request(p, suffix, address, port, route), p, suffix, address, port, route)
  {
    forall k | Meant(p, k, address, port, route).Some?
      ensures var after := props + Request(p, suffix, address, port, route);
              && Compose(Name(k), suffix) in after
              && after[Compose(Name(k), suffix)] == Meant(p, k, address, port, route).value
    {
      PropertyAfter(props, p, suffix, address, port, route, k, suffix);
    }
    forall key
      ensures IsMeant(p, suffix, address, port, route, key)
           || SameAt(props, props + Request(p, suffix, address, port, route), key)
    {
      OnlyMeantChange(props, p, suffix, address, port, route, key);
    }
  }

  lemma RequestLaws(props: Properties, p: Protocol, suffix: string, address: string, port: int, route: Option<Route>)
    ensures Registered(props, props + Request(p, suffix, address, port, route), p, suffix, port)
    ensures PropertiesExact(props, props + Request(p, suffix, address, port, route), p, suffix, address, port, route)
  {
    RequestIsExact(props, p, suffix, address, port, route);
    var after := props + Request(p, suffix, address, port, route);
    forall q, reg | IsRegistry(props, q, reg)
      ensures IsRegistry(after, q, if q == p then reg[suffix := Num(port)] else reg)
    {
      RegistryAfter(props, p, suffix, address, port, route, q, reg);
    }
    if NoBareKeys(props) {
      NoBareKeysKept(props, p, suffix, address, port, route);
    }
  }
}
