/** Destinations approved by the gateway operator (apps/routes/destinations.py), and what appending a
    request path to an approved origin can and cannot change. */
module Destinations {
  import opened PyStrings
  import opened Urls

  datatype Origin = Origin(scheme: string, host: string, port: nat)

  /** str.isspace of one character. */
  predicate IsSpace(c: char) {
    var n := c as int;
    || 0x09 <= n <= 0x0D || 0x1C <= n <= 0x20 || n == 0x85 || n == 0xA0 || n == 0x1680
    || 0x2000 <= n <= 0x200A || n == 0x2028 || n == 0x2029 || n == 0x202F || n == 0x205F || n == 0x3000
  }

  predicate BadChar(c: char) { c == '\\' || IsSpace(c) || c < ' ' || c as int == 127 }

  predicate CleanChars(s: string) { forall c <- s :: !BadChar(c) }

  predicate HostEdge(c: char) { 'a' <= c <= 'z' || IsDigit(c) }

  predicate HostName(host: string) {
    && host != "" && HostEdge(host[0]) && HostEdge(host[|host| - 1])
    && forall c <- host :: HostEdge(c) || c == '.' || c == '-'
  }

  /** The lower-cased host, whose zone keeps its case until the caller lowers it too. */
  function Host(netloc: string, lib: Library): string {
    var host := HostInfo(netloc).0;
    lib.lower(if '%' in host then lib.lower(Before(host, '%')) + "%" + After(host, '%') else lib.lower(host))
  }

  function Port(netloc: string, scheme: string): Option<nat> {
    match HostInfo(netloc).1
    case None => Some(if scheme == "https" then 443 else 80)
    case Some(port) => if IsDecimal(port) && Int(port) <= 65535 then Some(Int(port)) else None
  }

  /** The origin named by a scheme and a network location. */
  function NetlocOrigin(scheme: string, netloc: string, lib: Library): Option<Origin> {
    if (scheme != "http" && scheme != "https") || HostInfo(netloc).0 == "" || '@' in netloc then None
    else
      var host := Host(netloc, lib);
      if (if ':' in host then lib.ipv6(host) else HostName(host)) then
        match Port(netloc, scheme)
        case None => None
        case Some(port) => Some(Origin(scheme, host, port))
      else None
  }

  /** _origin; None stands for ValueError. */
  function OriginOf(value: string, lib: Library): Option<Origin> {
    if !CleanChars(value) then None
    else
      match UrlSplit(value, lib)
      case None => None
      case Some(p) => if p.fragment != "" then None else NetlocOrigin(p.scheme, p.netloc, lib)
  }

  /** validate_target_url returns its argument rather than raising. One entry of the allowlist that is
      not an origin makes it refuse everything. */
  predicate TargetAccepted(value: string, allowed: seq<string>, lib: Library) {
    value == "" ||
    (&& OriginOf(value, lib).Some?
     && (forall item <- allowed :: OriginOf(item, lib).Some?)
     && (exists item <- allowed :: OriginOf(item, lib) == OriginOf(value, lib)))
  }

  /** validate_backend_base_url returns its argument rather than raising. */
  predicate BaseAccepted(value: string, allowed: seq<string>, lib: Library) {
    value == "" ||
    match UrlSplit(value, lib)
    case None => false
    case Some(p) =>
      && p.path == "" && p.query == "" && p.fragment == "" && value[|value| - 1] != '/'
      && TargetAccepted(value, allowed, lib)
  }

  // ---- appending a request path to an accepted base ----

  lemma CleanIsQuiet(s: string)
    requires CleanChars(s)
    ensures Quiet(s)
  {
    forall c <- s ensures !C0OrSpace(c) { assert !BadChar(c); }
  }

  /** An accepted base is scheme, "//", network location, and at most a bare '?' or '#'. */
  lemma BaseShape(base: string, allowed: seq<string>, lib: Library) returns (netloc: string, tail: string)
    requires base != "" && BaseAccepted(base, allowed, lib)
    ensures CleanChars(base) && Quiet(base) && HasScheme(base) && StartsWith(AfterScheme(base), "//")
    ensures SplitNetloc(AfterScheme(base)) == (netloc, tail)
    ensures netloc != "" && NetlocAccepted(netloc, lib)
    ensures OriginOf(base, lib) == NetlocOrigin(LowerScheme(base[..Find(base, ':')]), netloc, lib)
    ensures OriginOf(base, lib).Some?
    ensures SplitTail(tail) == ("", "", "")
  {
    CleanIsQuiet(base);
    CleaningQuiet(base);
    netloc, tail := SplitNetloc(AfterScheme(base)).0, SplitNetloc(AfterScheme(base)).1;
    assert HostInfo("") == ("", None);
  }

  lemma InConcat(s: string, t: string, c: char)
    ensures c in s + t <==> c in s || c in t
  {
  }

  lemma CleanConcat(s: string, t: string)
    ensures CleanChars(s + t) <==> CleanChars(s) && CleanChars(t)
  {
    assert forall c :: c in s + t <==> c in s || c in t;
  }

  /** Neither '?' nor '#' occurs in an absolute URL before its tail. */
  lemma MarksInTail(base: string, c: char)
    requires HasScheme(base) && StartsWith(AfterScheme(base), "//") && (c == '?' || c == '#')
    ensures c in base <==> c in SplitNetloc(AfterScheme(base)).1
  {
    var i, rest := Find(base, ':'), AfterScheme(base);
    var e := NetlocEnd(rest[2..]);
    SchemeFree(base[..i], c);
    NetlocFree(rest[2..], c);
    Reassembled(base, i, e);
    InLast(base[..i], rest[2..][..e], rest[2..][e..], c);
  }

  lemma InLast(scheme: string, netloc: string, tail: string, c: char)
    requires c !in scheme && c !in netloc && (c == '?' || c == '#')
    ensures c in scheme + "://" + netloc + tail <==> c in tail
  {
    InConcat(scheme + "://" + netloc, tail, c);
    InConcat(scheme + "://", netloc, c);
    InConcat(scheme, "://", c);
  }

  lemma SchemeFree(scheme: string, c: char)
    requires AllSchemeChars(scheme)
    requires c == '?' || c == '#'
    ensures c !in scheme
  {
  }

  lemma NetlocFree(body: string, c: char)
    requires c == '?' || c == '#'
    ensures c !in body[..NetlocEnd(body)]
  {
  }

  lemma Reassembled(base: string, i: nat, e: nat)
    requires i + 3 + e <= |base| && base[i] == ':' && base[i + 1..][..2] == "//"
    ensures base == base[..i] + "://" + base[i + 1..][2..][..e] + base[i + 1..][2..][e..]
  {
    assert base[i + 1] == base[i + 1..][..2][0] && base[i + 2] == base[i + 1..][..2][1];
  }

  lemma TailShape(tail: string)
    requires SplitTail(tail) == ("", "", "")
    ensures tail == "" || tail == "?" || tail == "#" || tail == "?#"
  {
    var f := Find(tail, '#');
    var before := tail[..f];
    var q := Find(before, '?');
    assert before[..q] == "";
    assert q < |before| ==> before[q + 1..] == "";
    assert before == "" || before == "?" by { if before != "" { assert before == [before[0]]; } }
    assert f < |tail| ==> tail[f + 1..] == "" && tail == before + "#";
  }

  /** Behind an empty tail a path is split at its own marks. */
  lemma PlainTail(path: string)
    ensures SplitTail(path).2 == "" <==> Find(path, '#') >= |path| - 1
    ensures '?' !in path && '#' !in path ==> SplitTail(path).0 == path
  {
    if '?' !in path && '#' !in path {
      assert path[..Find(path, '#')] == path;
      assert path[..Find(path, '?')] == path;
    }
  }

  lemma HashBehindQuery(path: string)
    ensures Find("?" + path, '#') == 1 + Find(path, '#')
  {
    FindAppend("?", path, '#');
  }

  lemma LeadingMark(s: string, c: char)
    requires s != "" && s[0] == c
    ensures Find(s, c) == 0
  {
  }

  lemma QuerySplit(tail: string)
    requires tail != "" && tail[0] == '?'
    ensures SplitTail(tail).0 == ""
    ensures SplitTail(tail).2 == "" <==> Find(tail, '#') >= |tail| - 1
  {
    hide Find;
    assert Find(tail, '#') > 0;
    LeadingMark(tail[..Find(tail, '#')], '?');
  }

  /** Behind a bare '?' it becomes a query. */
  lemma QueryTail(path: string)
    ensures SplitTail("?" + path).0 == ""
    ensures SplitTail("?" + path).2 == "" <==> Find(path, '#') >= |path| - 1
  {
    hide Find, SplitTail;
    HashBehindQuery(path);
    QuerySplit("?" + path);
  }

  /** Behind a '#' it becomes a fragment. */
  lemma FragmentTail(before: string, path: string)
    requires before == "" || before == "?"
    ensures SplitTail(before + "#" + path).0 == "" && SplitTail(before + "#" + path).2 == path
  {
    FindIn(before, '#', path);
    assert (before + "#" + path)[..|before|] == before;
    assert (before + "#" + path)[|before| + 1..] == path;
  }

  lemma TailAppend(tail: string, path: string)
    requires SplitTail(tail) == ("", "", "") && path != "" && path[0] == '/'
    ensures SplitTail(tail + path).2 == "" <==> '#' !in tail && Find(path, '#') >= |path| - 1
    ensures '?' in tail || '#' in tail ==> SplitTail(tail + path).0 == ""
    ensures '?' !in tail && '#' !in tail && '?' !in path && '#' !in path ==> SplitTail(tail + path).0 == path
  {
    hide SplitTail, Find;
    TailShape(tail);
    if tail == "" {
      assert tail + path == path;
      PlainTail(path);
    } else if tail == "?" {
      QueryTail(path);
      assert '?' in tail && '#' !in tail;
    } else {
      var before := tail[..|tail| - 1];
      FragmentTail(before, path);
      assert tail[|tail| - 1] == '#';
      assert before + "#" == tail;
    }
  }

  lemma SplitQuiet(url: string, lib: Library)
    requires Quiet(url) && HasScheme(url) && NetlocAccepted(SplitNetloc(AfterScheme(url)).0, lib)
    ensures var (netloc, tail) := SplitNetloc(AfterScheme(url));
            var (path, query, fragment) := SplitTail(tail);
            UrlSplit(url, lib) == Some(Parts(LowerScheme(url[..Find(url, ':')]), netloc, path, query, fragment))
  {
    CleaningQuiet(url);
  }

  lemma AppendedParts(base: string, path: string, lib: Library)
    requires Quiet(base + path) && HasScheme(base) && StartsWith(AfterScheme(base), "//")
    requires path != "" && path[0] == '/'
    requires NetlocAccepted(SplitNetloc(AfterScheme(base)).0, lib)
    ensures var (netloc, tail) := SplitNetloc(AfterScheme(base));
            var (p, q, f) := SplitTail(tail + path);
            UrlSplit(base + path, lib) == Some(Parts(LowerScheme(base[..Find(base, ':')]), netloc, p, q, f))
  {
    hide UrlSplit, HasScheme, NetlocAccepted, SplitTail, AfterScheme, SplitNetloc;
    SchemeAppend(base, path);
    NetlocAppend(AfterScheme(base), path);
    CutConcat(base, path, Find(base, ':'));
    SplitQuiet(base + path, lib);
  }

  /** Appending a path to an accepted base changes only the tail that is split after its origin. */
  lemma AppendedSplit(base: string, path: string, allowed: seq<string>, lib: Library)
      returns (scheme: string, netloc: string, tail: string)
    requires base != "" && BaseAccepted(base, allowed, lib)
    requires path != "" && path[0] == '/' && CleanChars(path)
    ensures CleanChars(base + path)
    ensures SplitTail(tail) == ("", "", "")
    ensures '#' in base <==> '#' in tail
    ensures '?' in base <==> '?' in tail
    ensures var (p, q, f) := SplitTail(tail + path);
            UrlSplit(base + path, lib) == Some(Parts(scheme, netloc, p, q, f))
    ensures OriginOf(base, lib) == NetlocOrigin(scheme, netloc, lib)
    ensures OriginOf(base, lib).Some?
  {
    netloc, tail := BaseShape(base, allowed, lib);
    scheme := LowerScheme(base[..Find(base, ':')]);
    MarksInTail(base, '#');
    MarksInTail(base, '?');
    CleanConcat(base, path);
    CleanIsQuiet(base + path);
    AppendedParts(base, path, lib);
  }

  /** Appending a rooted path to an accepted base never names another origin; and it names none exactly
      when the path holds a refused character or a fragment appears. */
  lemma AppendedOrigin(base: string, path: string, allowed: seq<string>, lib: Library)
    requires base != "" && BaseAccepted(base, allowed, lib)
    requires path != "" && path[0] == '/'
    ensures OriginOf(base, lib).Some?
    ensures OriginOf(base + path, lib) ==
            if CleanChars(path) && '#' !in base && Find(path, '#') >= |path| - 1 then OriginOf(base, lib) else None
  {
    var _, _ := BaseShape(base, allowed, lib);
    CleanConcat(base, path);
    if CleanChars(path) {
      var scheme, netloc, tail := AppendedSplit(base, path, allowed, lib);
      TailAppend(tail, path);
    }
  }

  /** The request path stays the path of the composed URL exactly when the accepted base has no '?' or '#'. */
  lemma AppendedPath(base: string, path: string, allowed: seq<string>, lib: Library)
    requires base != "" && BaseAccepted(base, allowed, lib)
    requires path != "" && path[0] == '/' && CleanChars(path) && '?' !in path && '#' !in path
    ensures UrlSplit(base + path, lib).Some?
    ensures UrlSplit(base + path, lib).value.path == path <==> '?' !in base && '#' !in base
  {
    var scheme, netloc, tail := AppendedSplit(base, path, allowed, lib);
    TailAppend(tail, path);
  }

  // ---- an accepted base that loses the path ----

  /** A library under which plain host names stay as they are. */
  function PlainLibrary(): Library { Library(s => s, s => false, s => false, s => true) }

  lemma HttpScheme(rest: string)
    ensures HasScheme("http:" + rest) && Find("http:" + rest, ':') == 4
    ensures LowerScheme(("http:" + rest)[..4]) == "http" && AfterScheme("http:" + rest) == rest
  {
    FindIn("http", ':', rest);
    assert "http:" + rest == "http" + [':'] + rest;
    assert ("http:" + rest)[..4] == "http";
  }

  lemma HostA(tail: string)
    requires tail == "" || tail[0] == '?'
    ensures SplitNetloc("//a" + tail) == ("a", tail)
  {
    NetlocEndAppend("a", tail);
    assert ("//a" + tail)[..2] == "//" && ("//a" + tail)[2..] == "a" + tail;
    assert ("a" + tail)[..1] == "a" && ("a" + tail)[1..] == tail;
  }

  lemma OriginA()
    ensures NetlocOrigin("http", "a", PlainLibrary()) == Some(Origin("http", "a", 80))
    ensures NetlocAccepted("a", PlainLibrary())
  {
    assert FindLast("a", '@') == None && Find("a", ':') == 1;
    assert '[' !in "a" && Before("a", ':') == "a" && After("a", ':') == "";
    assert HostInfo("a") == ("a", None);
    assert Host("a", PlainLibrary()) == "a";
    assert HostName("a");
  }

  lemma UrlA(tail: string)
    requires CleanChars("http://a" + tail) && (tail == "" || tail[0] == '?')
    ensures var (path, query, fragment) := SplitTail(tail);
            UrlSplit("http://a" + tail, PlainLibrary()) == Some(Parts("http", "a", path, query, fragment))
  {
    hide UrlSplit, HasScheme, SplitTail, SplitNetloc, AfterScheme, CleanChars, NetlocAccepted, Find, LowerScheme;
    var url := "http:" + ("//a" + tail);
    assert url == "http://a" + tail;
    HttpScheme("//a" + tail);
    HostA(tail);
    OriginA();
    CleanIsQuiet(url);
    SplitQuiet(url, PlainLibrary());
  }

  lemma Tails()
    ensures SplitTail("") == SplitTail("?") == ("", "", "") && SplitTail("?/x") == ("", "/x", "")
  {
    assert Find("?", '#') == 1 && Find("?", '?') == 0;
    assert Find("?/x", '#') == 3 && Find("?/x", '?') == 0;
    assert "?/x"[..3] == "?/x" && "?/x"[1..] == "/x" && "?"[1..] == "";
  }

  lemma PlainAccepted()
    ensures BaseAccepted("http://a", ["http://a"], PlainLibrary())
    ensures OriginOf("http://a", PlainLibrary()) == Some(Origin("http", "a", 80))
  {
    hide UrlSplit, SplitTail, NetlocOrigin;
    Tails();
    OriginA();
    UrlA("");
    assert "http://a" + "" == "http://a" && "http://a" in ["http://a"];
  }

  /** "http://a?" is accepted where "http://a" is approved, and the path of a request for "/x" ends up in the
      query of its target URL. */
  lemma BareQueryAccepted() returns (lib: Library)
    ensures BaseAccepted("http://a?", ["http://a"], lib)
    ensures UrlSplit("http://a?" + "/x", lib) == Some(Parts("http", "a", "", "/x", ""))
  {
    hide UrlSplit, SplitTail, NetlocOrigin;
    lib := PlainLibrary();
    Tails();
    OriginA();
    UrlA("");
    UrlA("?");
    UrlA("?/x");
    assert "http://a" + "" == "http://a" && "http://a" + "?" == "http://a?";
    assert "http://a" + "?/x" == "http://a?" + "/x";
    assert OriginOf("http://a?", lib) == OriginOf("http://a", lib) == Some(Origin("http", "a", 80));
    assert "http://a" in ["http://a"];
  }
}
