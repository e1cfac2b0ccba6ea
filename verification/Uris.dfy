/** Splitting and quoting of URIs, and what the deletion job makes of a migrated URI. */
module Uris {
  import opened Common

  // ---- urlsplit ----

  /** The index of the first character of `s` that is in `chars`, or the length of `s`. */
  function IndexOfAny(s: string, chars: string): (i: nat)
    ensures i <= |s|
    ensures forall j :: 0 <= j < i ==> s[j] !in chars
    ensures i < |s| ==> s[i] in chars
  {
    if s == [] || s[0] in chars then 0 else 1 + IndexOfAny(s[1..], chars)
  }

  lemma {:induction false} IndexOfAnySkips(a: string, b: string, chars: string)
    requires forall i :: 0 <= i < |a| ==> a[i] !in chars
    ensures IndexOfAny(a + b, chars) == |a| + IndexOfAny(b, chars)
  {
    if a == [] {
      assert a + b == b;
    } else {
      assert (a + b)[1..] == a[1..] + b;
      IndexOfAnySkips(a[1..], b, chars);
    }
  }

  predicate Letter(c: char) {
    'a' <= c <= 'z' || 'A' <= c <= 'Z'
  }

  predicate Digit(c: char) {
    '0' <= c <= '9'
  }

  predicate SchemeName(s: string) {
    s != [] && Letter(s[0]) && forall i :: 0 <= i < |s| ==> Letter(s[i]) || Digit(s[i]) || s[i] in "+-."
  }

  function Lower(s: string): string {
    seq(|s|, i requires 0 <= i < |s| => if 'A' <= s[i] <= 'Z' then s[i] - 'A' + 'a' else s[i])
  }

  datatype Parts = Parts(scheme: string, netloc: string, path: string)

  /** What follows the scheme: the network location and the path, without query and fragment. */
  function SplitRest(rest: string): (string, string) {
    if "//" <= rest then
      var n := IndexOfAny(rest[2..], "/?#");
      (rest[2..2 + n], BeforeQuery(rest[2 + n..]))
    else ("", BeforeQuery(rest))
  }

  function BeforeQuery(s: string): string {
    s[..IndexOfAny(s, "?#")]
  }

  /** `urlsplit`, without the query and the fragment. */
  function Split(url: string): Parts {
    var colon := IndexOfAny(url, ":");
    if colon < |url| && SchemeName(url[..colon]) then
      var (netloc, path) := SplitRest(url[colon + 1..]);
      Parts(Lower(url[..colon]), netloc, path)
    else
      var (netloc, path) := SplitRest(url);
      Parts("", netloc, path)
  }

  lemma SplitScheme(rest: string)
    ensures var url := ['s', '3', ':'] + rest;
            IndexOfAny(url, ":") == 2 && SchemeName(url[..2]) && Lower(url[..2]) == "s3" && url[3..] == rest
  {
    var url := ['s', '3', ':'] + rest;
    IndexOfAnySkips(['s', '3'], [':'] + rest, ":");
    assert url == ['s', '3'] + ([':'] + rest);
    assert url[..2] == ['s', '3'];
    assert Lower(['s', '3']) == ['s', '3'];
  }

  lemma SplitNetloc(host: string, path: string)
    requires forall c :: c in host ==> c !in "/?#"
    requires path != [] && path[0] == '/'
    ensures SplitRest("//" + (host + path)) == (host, BeforeQuery(path))
  {
    var rest := "//" + (host + path);
    assert rest[2..] == host + path;
    IndexOfAnySkips(host, path, "/?#");
    assert IndexOfAny(path, "/?#") == 0;
    assert rest[2..2 + |host|] == host && rest[2 + |host|..] == path;
  }

  /** An `s3://` URI with a plain host and a path splits into just these. */
  lemma SplitS3(host: string, path: string)
    requires forall c :: c in host ==> c !in "/?#"
    requires path != [] && path[0] == '/'
    ensures Split(['s', '3', ':'] + ("//" + (host + path))) == Parts("s3", host, BeforeQuery(path))
  {
    SplitScheme("//" + (host + path));
    SplitNetloc(host, path);
  }

  /** A scheme begins with a letter and goes on with letters, digits, `+`, `-` and `.`, here by their codes. */
  lemma SchemeNameIff(s: string)
    ensures SchemeName(s) <==>
              && s != "" && (65 <= s[0] as int <= 90 || 97 <= s[0] as int <= 122)
              && forall i :: 0 <= i < |s| ==>
                   var c := s[i] as int;
                   65 <= c <= 90 || 97 <= c <= 122 || 48 <= c <= 57 || c == 43 || c == 45 || c == 46
  {
  }

  /** Lowering changes the letters `A` to `Z` only. */
  lemma LowerIs(s: string, i: nat)
    requires i < |s|
    ensures |Lower(s)| == |s|
    ensures Lower(s)[i] as int == s[i] as int + if 65 <= s[i] as int <= 90 then 32 else 0
  {
  }

  /** Without a scheme before its first colon, or without a colon, a URI has none, and its path is all of it before a query. */
  lemma SplitWithoutScheme(a: string, b: string)
    requires ':' !in a && !SchemeName(a) && (b == "" || b[0] == ':') && !("//" <= a + b)
    ensures Split(a + b) == Parts("", "", BeforeQuery(a + b))
  {
    assert forall i :: 0 <= i < |a| ==> a[i] in a;
    IndexOfAnySkips(a, b, ":");
    assert b != "" ==> (a + b)[..|a|] == a;
  }

  /** Any URI with a scheme, a network location and a path is taken apart into these. */
  lemma SplitUri(scheme: string, netloc: string, path: string)
    requires SchemeName(scheme) && ':' !in scheme
    requires forall c :: c in netloc ==> c !in "/?#"
    requires path == "" || path[0] == '/'
    requires forall c :: c in path ==> c !in "?#"
    ensures Split(scheme + ":" + ("//" + (netloc + path))) == Parts(Lower(scheme), netloc, path)
  {
    var rest := "//" + (netloc + path);
    var url := scheme + ":" + rest;
    assert url == scheme + (":" + rest);
    assert forall i :: 0 <= i < |scheme| ==> scheme[i] in scheme;
    IndexOfAnySkips(scheme, ":" + rest, ":");
    assert IndexOfAny(":" + rest, ":") == 0;
    assert url[..|scheme|] == scheme && url[|scheme| + 1..] == rest;
    SplitAuthority(netloc, path);
  }

  lemma SplitAuthority(netloc: string, path: string)
    requires forall c :: c in netloc ==> c !in "/?#"
    requires path == "" || path[0] == '/'
    requires forall c :: c in path ==> c !in "?#"
    ensures SplitRest("//" + (netloc + path)) == (netloc, path)
  {
    var rest := "//" + (netloc + path);
    assert rest[2..] == netloc + path;
    AuthorityEnds(netloc, path);
    assert rest[2..2 + |netloc|] == netloc && rest[2 + |netloc|..] == path;
    NoQuery(path);
  }

  lemma AuthorityEnds(netloc: string, path: string)
    requires forall c :: c in netloc ==> c !in "/?#"
    requires path == "" || path[0] == '/'
    ensures IndexOfAny(netloc + path, "/?#") == |netloc|
  {
    IndexOfAnySkips(netloc, path, "/?#");
  }

  lemma NoQuery(path: string)
    requires forall c :: c in path ==> c !in "?#"
    ensures BeforeQuery(path) == path
  {
    IndexOfAnySkips(path, "", "?#");
    assert path + "" == path;
  }

  // ---- quote ----

  /** A character's UTF-8 encoding: one byte or more. */
  type Encoding = char -> seq<Byte>

  type Byte = b: int | 0 <= b < 256

  ghost predicate Utf8Like(utf8: Encoding) {
    forall c :: |utf8(c)| > 0
  }

  const HEX := "0123456789ABCDEF"

  function Escaped(bytes: seq<Byte>): string {
    if bytes == [] then "" else assert |HEX| == 16; ['%', HEX[bytes[0] / 16], HEX[bytes[0] % 16]] + Escaped(bytes[1..])
  }

  /** The characters `quote(key, safe='/')` leaves alone: unreserved in RFC 3986 section 2.3, or a slash. */
  predicate Kept(c: char) {
    Letter(c) || Digit(c) || c in "_.-~/"
  }

  function Quote(utf8: Encoding, s: string): string {
    if s == [] then "" else (if Kept(s[0]) then [s[0]] else Escaped(utf8(s[0]))) + Quote(utf8, s[1..])
  }

  /** What an unquoted string's bytes are: of `%` and two hexadecimal digits their value, of any other character its code. */
  function Unquoted(s: string): seq<int> {
    if s == "" then []
    else if s[0] == '%' && |s| >= 3 then [16 * HexValue(s[1]) + HexValue(s[2])] + Unquoted(s[3..])
    else [s[0] as int] + Unquoted(s[1..])
  }

  function HexValue(c: char): int {
    if '0' <= c <= '9' then c as int - 48 else c as int - 55
  }

  /** The bytes of a key. */
  function BytesOf(utf8: Encoding, s: string): seq<int> {
    if s == "" then [] else Widened(utf8(s[0])) + BytesOf(utf8, s[1..])
  }

  function Widened(bytes: seq<Byte>): seq<int> {
    seq(|bytes|, i requires 0 <= i < |bytes| => bytes[i])
  }

  /** The characters that are kept are their own bytes, as in UTF-8. */
  ghost predicate AsciiIsKept(utf8: Encoding) {
    forall c :: Kept(c) ==> c as int < 128 && utf8(c) == [c as int]
  }

  lemma HexDigits(n: int)
    requires 0 <= n < 16
    ensures |HEX| == 16 && HexValue(HEX[n]) == n
  {
  }

  lemma OneUnquotes(high: char, low: char, tail: string)
    ensures Unquoted(['%', high, low] + tail) == [16 * HexValue(high) + HexValue(low)] + Unquoted(tail)
  {
    assert (['%', high, low] + tail)[3..] == tail;
  }

  lemma FirstUnquotes(bytes: seq<Byte>, rest: string)
    requires bytes != []
    ensures Unquoted(Escaped(bytes) + rest) == [bytes[0]] + Unquoted(Escaped(bytes[1..]) + rest)
  {
    var high, low := bytes[0] / 16, bytes[0] % 16;
    HexDigits(high);
    HexDigits(low);
    ThreeFirst(HEX[high], HEX[low], Escaped(bytes[1..]), rest);
    OneUnquotes(HEX[high], HEX[low], Escaped(bytes[1..]) + rest);
  }

  lemma ThreeFirst(high: char, low: char, tail: string, rest: string)
    ensures ['%', high, low] + tail + rest == ['%', high, low] + (tail + rest)
  {
  }

  lemma {:induction false} EscapedUnquotes(bytes: seq<Byte>, rest: string)
    ensures Unquoted(Escaped(bytes) + rest) == Widened(bytes) + Unquoted(rest)
  {
    if bytes == [] {
      assert Escaped(bytes) + rest == rest && Widened(bytes) == [];
    } else {
      EscapedUnquotes(bytes[1..], rest);
      FirstUnquotes(bytes, rest);
      assert Widened(bytes) == [bytes[0]] + Widened(bytes[1..]);
    }
  }

  /** Quoting can be undone: the quoted string, unquoted, is the key's bytes. */
  lemma {:induction false} QuoteRoundTrip(utf8: Encoding, s: string)
    requires AsciiIsKept(utf8)
    ensures Unquoted(Quote(utf8, s)) == BytesOf(utf8, s)
  {
    if s != "" {
      var rest := Quote(utf8, s[1..]);
      QuoteRoundTrip(utf8, s[1..]);
      if Kept(s[0]) {
        assert Quote(utf8, s) == [s[0]] + rest && ([s[0]] + rest)[1..] == rest;
        assert Widened(utf8(s[0])) == [s[0] as int];
      } else {
        EscapedUnquotes(utf8(s[0]), rest);
      }
    }
  }

  /** Which characters are kept, by their codes: letters, digits, and `-`, `.`, `/`, `_`, `~`. */
  lemma KeptIff(c: char)
    ensures Kept(c) <==>
              65 <= c as int <= 90 || 97 <= c as int <= 122 || 48 <= c as int <= 57 || c as int in {45, 46, 47, 95, 126}
  {
  }

  lemma {:induction false} EscapedLength(bytes: seq<Byte>)
    ensures |Escaped(bytes)| == 3 * |bytes|
  {
    if bytes != [] {
      EscapedLength(bytes[1..]);
    }
  }

  /** Quoting changes a string exactly when some character is not kept. */
  lemma {:induction false} QuoteChanges(utf8: Encoding, s: string)
    requires Utf8Like(utf8)
    ensures |Quote(utf8, s)| >= |s|
    ensures Quote(utf8, s) == s <==> forall c :: c in s ==> Kept(c)
    ensures (exists c :: c in s && !Kept(c)) ==> |Quote(utf8, s)| > |s|
  {
    if s != [] {
      QuoteChanges(utf8, s[1..]);
      assert forall c :: c in s <==> c == s[0] || c in s[1..];
      assert s == [s[0]] + s[1..];
      if !Kept(s[0]) {
        EscapedLength(utf8(s[0]));
      } else if exists c :: c in s[1..] && !Kept(c) {
        assert |Quote(utf8, s)| > |s|;
      }
    }
  }

  lemma SpaceEncoded(utf8: Encoding)
    requires utf8(' ') == [0x20]
    ensures Quote(utf8, "migrated/a b") == "migrated/a%20b"
  {
    QuoteKeeps(utf8, "migrated/a", " b");
    assert "migrated/a" + " b" == "migrated/a b";
    SpaceQuoted(utf8);
    assert "migrated/a" + ("%20" + "b") == "migrated/a%20b";
  }

  lemma SpaceQuoted(utf8: Encoding)
    requires utf8(' ') == [0x20]
    ensures Quote(utf8, " b") == "%20" + "b"
  {
    assert Escaped([0x20]) == "%20" by {
      assert [0x20][1..] == [] && HEX[2] == '2' && HEX[0] == '0';
    }
    assert " b"[1..] == "b" && "b"[1..] == "";
    assert Quote(utf8, "b") == "b";
  }

  lemma HeadFirst(a: string, b: string)
    requires a != []
    ensures a + b == [a[0]] + (a[1..] + b)
  {
  }

  lemma QuoteCons(utf8: Encoding, c: char, s: string)
    requires Kept(c)
    ensures Quote(utf8, [c] + s) == [c] + Quote(utf8, s)
  {
    assert ([c] + s)[1..] == s;
  }

  lemma {:induction false} QuoteKeeps(utf8: Encoding, a: string, b: string)
    requires forall c :: c in a ==> Kept(c)
    ensures Quote(utf8, a + b) == a + Quote(utf8, b)
  {
    if a == [] {
      assert a + b == b;
    } else {
      HeadFirst(a, b);
      HeadFirst(a, Quote(utf8, b));
      QuoteCons(utf8, a[0], a[1..] + b);
      QuoteKeeps(utf8, a[1..], b);
    }
  }

  // ---- The deletion job on a migrated URI ----

  /** What the job's environment says about RustFS: `host:port` and the bucket. */
  datatype Rustfs = Rustfs(host: string, bucket: string)

  /** `_is_rustfs_url`; both settings are present. */
  predicate IsRustfsUrl(fs: Rustfs, parts: Parts) {
    fs.host != "" && fs.bucket != "" && parts.netloc == fs.host && "/" + fs.bucket + "/" <= parts.path
  }

  function RustfsBase(fs: Rustfs): string {
    "s3://" + fs.host + "/" + fs.bucket
  }

  /** `AWSStorage._resolve_base_url` up to the configured buckets, which are `other`. */
  function ResolveBaseUrl(fs: Rustfs, other: string -> Option<string>, url: string): Option<string> {
    var parts := Split(url);
    if parts.scheme != "s3" then None
    else if IsRustfsUrl(fs, parts) then Some(RustfsBase(fs))
    else other(url)
  }

  /** `AWSStorage.Client.get_path` */
  function GetPath(base: string, url: string): string {
    LStrip(if base <= url then url[|base|..] else url, '/')
  }

  /** The path is what is behind the base, or all of a url that does not begin with it, without the slashes before it. */
  lemma PathBehindBase(base: string, url: string)
    ensures forall rest :: url == base + rest ==> GetPath(base, url) == LStrip(rest, '/')
    ensures (forall rest :: url != base + rest) ==> GetPath(base, url) == LStrip(url, '/')
  {
    forall rest | url == base + rest ensures GetPath(base, url) == LStrip(rest, '/') {
      assert (base + rest)[|base|..] == rest && base <= base + rest;
    }
    if base <= url {
      assert url == base + url[|base|..];
    }
  }

  /** The URI the migration writes for an object key. */
  function MigratedUri(fs: Rustfs, utf8: Encoding, key: string): string {
    RustfsBase(fs) + "/" + Quote(utf8, key)
  }

  ghost predicate Sane(fs: Rustfs) {
    && fs.host != "" && fs.bucket != ""
    && (forall c :: c in fs.host ==> c !in "/?#")
    && (forall c :: c in fs.bucket ==> c !in "?#")
  }

  lemma BeforeQueryKeeps(prefix: string, rest: string)
    requires forall c :: c in prefix ==> c !in "?#"
    ensures prefix <= BeforeQuery(prefix + rest)
  {
    IndexOfAnySkips(prefix, rest, "?#");
    assert (prefix + rest)[..|prefix| + IndexOfAny(rest, "?#")] == prefix + rest[..IndexOfAny(rest, "?#")];
  }

  lemma MigratedUriShape(fs: Rustfs, utf8: Encoding, key: string)
    ensures MigratedUri(fs, utf8, key)
         == ['s', '3', ':'] + ("//" + (fs.host + (("/" + fs.bucket + "/") + Quote(utf8, key))))
  {
    assert "s3://" == ['s', '3', ':'] + "//";
  }

  lemma MigratedUriSplits(fs: Rustfs, utf8: Encoding, key: string)
    requires Sane(fs)
    ensures Split(MigratedUri(fs, utf8, key)).scheme == "s3"
    ensures IsRustfsUrl(fs, Split(MigratedUri(fs, utf8, key)))
  {
    var prefix := "/" + fs.bucket + "/";
    MigratedUriShape(fs, utf8, key);
    SplitS3(fs.host, prefix + Quote(utf8, key));
    BeforeQueryKeeps(prefix, Quote(utf8, key));
  }

  /** The job's path of a URI under its base: one slash is stripped, when the rest does not start with another. */
  lemma PathUnderBase(base: string, rest: string)
    requires rest != [] && rest[0] != '/'
    ensures GetPath(base, base + "/" + rest) == rest
  {
    var uri := base + "/" + rest;
    assert uri[|base|..] == "/" + rest && ("/" + rest)[1..] == rest;
    assert base <= uri;
    assert LStrip("/" + rest, '/') == LStrip(rest, '/') == rest;
  }

  /**
    The migration and the deletion job meet: a migrated URI resolves to the RustFS bucket, and the path
    sent to the bucket is the percent-encoded key. That is the key under which the object was uploaded
    exactly when every character of the key is unreserved or a slash.
   */
  lemma DeletionOfMigrated(fs: Rustfs, other: string -> Option<string>, utf8: Encoding, key: string)
    requires Utf8Like(utf8) && Sane(fs)
    requires key != [] && Kept(key[0]) && key[0] != '/'
    ensures var uri := MigratedUri(fs, utf8, key);
            && ResolveBaseUrl(fs, other, uri) == Some(RustfsBase(fs))
            && GetPath(RustfsBase(fs), uri) == Quote(utf8, key)
            && (GetPath(RustfsBase(fs), uri) == key <==> forall c :: c in key ==> Kept(c))
  {
    MigratedUriSplits(fs, utf8, key);
    assert Quote(utf8, key) == [key[0]] + Quote(utf8, key[1..]);
    PathUnderBase(RustfsBase(fs), Quote(utf8, key));
    QuoteChanges(utf8, key);
  }

  /**
    Which base a URI has: an `s3` URI of the RustFS host and below its bucket has the RustFS one, another `s3` URI what
    the configured buckets say, and a URI of any other scheme none.
   */
  lemma BaseOfUri(fs: Rustfs, other: string -> Option<string>, scheme: string, netloc: string, path: string)
    requires SchemeName(scheme) && ':' !in scheme
    requires forall c :: c in netloc ==> c !in "/?#"
    requires path == "" || path[0] == '/'
    requires forall c :: c in path ==> c !in "?#"
    ensures var uri := scheme + ":" + ("//" + (netloc + path));
            ResolveBaseUrl(fs, other, uri)
            == if Lower(scheme) != "s3" then None
               else if netloc == fs.host && fs.host != "" && fs.bucket != "" && (exists rest :: path == "/" + fs.bucket + "/" + rest)
               then Some("s3://" + fs.host + "/" + fs.bucket) else other(uri)
  {
    SplitUri(scheme, netloc, path);
    BelowBucket("/" + fs.bucket + "/", path);
  }

  lemma BelowBucket(below: string, path: string)
    ensures below <= path <==> exists rest :: path == below + rest
  {
    if below <= path {
      assert path == below + path[|below|..];
    }
  }

  /** A space in the file name is enough: the job then asks for a key that was never uploaded. */
  lemma SpaceIsNotDeleted(fs: Rustfs, other: string -> Option<string>, utf8: Encoding, folder: string, name: string)
    requires Utf8Like(utf8) && Sane(fs)
    requires folder != [] && Kept(folder[0]) && folder[0] != '/' && ' ' in name
    ensures var uri := MigratedUri(fs, utf8, folder + name);
            ResolveBaseUrl(fs, other, uri) == Some(RustfsBase(fs)) && GetPath(RustfsBase(fs), uri) != folder + name
  {
    DeletionOfMigrated(fs, other, utf8, folder + name);
    assert ' ' in folder + name && !Kept(' ');
  }
}
