/** Splitting undoes composing: what urlsplit finds in a URL put together from its parts, and which composed URLs
    name an approved origin (apps/routes/destinations.py). */
module UrlLaws {
  import opened PyStrings
  import opened Urls
  import opened Destinations

  // ---- splitting ----

  predicate Web(scheme: string) { scheme == "http" || scheme == "https" }

  lemma {:induction false} SmallLetters(s: string)
    requires forall i :: 0 <= i < |s| ==> 'a' <= s[i] <= 'z'
    ensures AllSchemeChars(s) && LowerScheme(s) == s
  {
    if s != "" { SmallLetters(s[1..]); }
  }

  lemma SchemeLetters(scheme: string)
    requires Web(scheme)
    ensures AllSchemeChars(scheme) && LowerScheme(scheme) == scheme && ':' !in scheme && AsciiAlpha(scheme[0])
  {
    SmallLetters(scheme);
  }

  /** Letters of a scheme count in either case. */
  lemma SchemeCase()
    ensures LowerScheme("HTTP") == "http" && LowerScheme("hTTpS") == "https"
  {
    assert LowerScheme("S") == "s" && LowerScheme("pS") == "ps" && LowerScheme("TpS") == "tps";
  }

  lemma SchemeOf(scheme: string, rest: string)
    requires Web(scheme)
    ensures var url := scheme + [':'] + rest;
            && HasScheme(url) && Find(url, ':') == |scheme| && url[..|scheme|] == scheme && AfterScheme(url) == rest
  {
    hide Find, AllSchemeChars, LowerScheme;
    var url := scheme + [':'] + rest;
    SchemeLetters(scheme);
    FindIn(scheme, ':', rest);
    assert url[..|scheme|] == scheme && url[|scheme| + 1..] == rest && url[0] == scheme[0];
  }

  /** Neither '/', '?' nor '#' occurs. */
  predicate Plain(s: string) { forall i :: 0 <= i < |s| ==> s[i] != '/' && s[i] != '?' && s[i] != '#' }

  predicate Rooted(path: string) { path == "" || path[0] == '/' }

  /** A part behind its mark, if there is one. */
  function Mark(c: char, text: string): string { if text == "" then "" else [c] + text }

  function Query(query: string): string { Mark('?', query) }

  function Fragment(fragment: string): string { Mark('#', fragment) }

  lemma {:induction false} PlainEnd(netloc: string, tail: string)
    requires Plain(netloc) && (tail == "" || Delimiter(tail[0]))
    ensures NetlocEnd(netloc + tail) == |netloc|
  {
    if netloc == "" {
      assert netloc + tail == tail;
    } else {
      assert (netloc + tail)[1..] == netloc[1..] + tail;
      PlainEnd(netloc[1..], tail);
    }
  }

  lemma NetlocOf(netloc: string, tail: string)
    requires Plain(netloc) && (tail == "" || Delimiter(tail[0]))
    ensures SplitNetloc("//" + (netloc + tail)) == (netloc, tail)
  {
    hide NetlocEnd;
    var rest := "//" + (netloc + tail);
    assert rest[..2] == "//" && rest[2..] == netloc + tail;
    PlainEnd(netloc, tail);
    assert (netloc + tail)[..|netloc|] == netloc && (netloc + tail)[|netloc|..] == tail;
  }

  /** Cutting at a mark that does not occur before it. */
  lemma CutAt(before: string, c: char, text: string)
    requires c !in before
    ensures var marked := before + Mark(c, text);
            && Find(marked, c) == |before| && marked[..|before|] == before
            && (text == "" ==> |marked| == |before|)
            && (text != "" ==> |marked| > |before| && marked[|before| + 1..] == text)
  {
    if text == "" {
      assert before + "" == before && before[..|before|] == before;
      assert Find(before, c) == |before|;
    } else {
      FindIn(before, c, text);
      var marked := before + [c] + text;
      assert before + ([c] + text) == marked && marked[..|before|] == before && marked[|before| + 1..] == text;
    }
  }

  lemma TailCut(tail: string, before: string, path: string, query: string, fragment: string)
    requires Find(tail, '#') == |before| <= |tail| && tail[..|before|] == before
    requires Find(before, '?') == |path| <= |before| && before[..|path|] == path
    requires if |before| < |tail| then tail[|before| + 1..] == fragment else fragment == ""
    requires if |path| < |before| then before[|path| + 1..] == query else query == ""
    ensures SplitTail(tail) == (path, query, fragment)
  {
    hide Find;
  }

  lemma TailOf(path: string, query: string, fragment: string)
    requires '?' !in path && '#' !in path && '#' !in query
    ensures SplitTail(path + Query(query) + Fragment(fragment)) == (path, query, fragment)
  {
    hide Find, Mark, SplitTail;
    InQuery(path, query);
    CutAt(path + Query(query), '#', fragment);
    CutAt(path, '?', query);
    TailCut(path + Query(query) + Fragment(fragment), path + Query(query), path, query, fragment);
  }

  lemma InQuery(path: string, query: string)
    requires '#' !in path && '#' !in query
    ensures '#' !in path + Query(query)
  {
  }

  /** No tab and no line break occurs. */
  predicate Unbroken(s: string) { forall i :: 0 <= i < |s| ==> s[i] != '\t' && s[i] != '\r' && s[i] != '\n' }

  lemma {:induction false} NothingRemoved(s: string)
    requires Unbroken(s)
    ensures RemoveUnsafe(s) == s
  {
    if s != "" { NothingRemoved(s[1..]); }
  }

  /** Line breaks and tabs inside a URL do not count. */
  lemma {:induction false} BreakRemoved(a: string, c: char, b: string)
    requires c == '\t' || c == '\r' || c == '\n'
    ensures RemoveUnsafe(a + [c] + b) == RemoveUnsafe(a + b)
  {
    if a == "" {
      assert (a + [c] + b)[1..] == b && a + b == b;
    } else {
      assert (a + [c] + b)[1..] == a[1..] + [c] + b && (a + b)[1..] == a[1..] + b;
      BreakRemoved(a[1..], c, b);
    }
  }

  /** Nor do blanks and control characters in front of it. */
  lemma {:induction false} LeadRemoved(lead: string, url: string)
    requires forall i :: 0 <= i < |lead| ==> lead[i] <= ' '
    ensures LStripControls(lead + url) == LStripControls(url)
  {
    if lead == "" {
      assert lead + url == url;
    } else {
      assert (lead + url)[1..] == lead[1..] + url;
      LeadRemoved(lead[1..], url);
    }
  }

  function Compose(scheme: string, netloc: string, path: string, query: string, fragment: string): string {
    scheme + [':'] + ("//" + (netloc + (path + Query(query) + Fragment(fragment))))
  }

  /** urlsplit finds the parts a URL was composed of. */
  lemma SplitComposed(scheme: string, netloc: string, path: string, query: string, fragment: string, lib: Library)
    requires Web(scheme) && Plain(netloc) && Rooted(path)
    requires '?' !in path && '#' !in path && '#' !in query && Unbroken(Compose(scheme, netloc, path, query, fragment))
    requires ('[' in netloc <==> ']' in netloc) && ('[' in netloc ==> lib.bracketed(netloc)) && lib.normalizes(netloc)
    ensures UrlSplit(Compose(scheme, netloc, path, query, fragment), lib) ==
            Some(Parts(scheme, netloc, path, query, fragment))
  {
    hide HasScheme, AfterScheme, SplitNetloc, SplitTail, Find, LowerScheme, RemoveUnsafe, Unbroken, Plain;
    var tail := path + Query(query) + Fragment(fragment);
    var rest := "//" + (netloc + tail);
    var url := scheme + [':'] + rest;
    assert url[0] == scheme[0] == 'h';
    assert LStripControls(url) == url;
    NothingRemoved(url);
    SchemeOf(scheme, rest);
    SchemeLetters(scheme);
    assert tail == "" || Delimiter(tail[0]);
    NetlocOf(netloc, tail);
    TailOf(path, query, fragment);
  }

  // ---- host, port and user of a network location ----

  lemma {:induction false} NoLast(s: string, c: char)
    requires c !in s
    ensures FindLast(s, c) == None
  {
  }

  lemma HostAlone(host: string)
    requires '@' !in host && '[' !in host && ':' !in host
    ensures HostInfo(host) == (host, None) && !HasCredentials(host)
  {
    NoLast(host, '@');
    assert Find(host, ':') == |host| && host[..|host|] == host;
  }

  lemma HostPort(host: string, port: string)
    requires '@' !in host && '[' !in host && ':' !in host && '@' !in port && '[' !in port && port != ""
    ensures HostInfo(host + [':'] + port) == (host, Some(port)) && !HasCredentials(host + [':'] + port)
  {
    hide Find, FindLast;
    var netloc := host + [':'] + port;
    assert '@' !in netloc && '[' !in netloc;
    NoLast(netloc, '@');
    FindIn(host, ':', port);
    assert netloc[..|host|] == host && netloc[|host| + 1..] == port;
  }

  /** A user name or password makes credentials; an empty user field does not. */
  lemma UserGiven(user: string, host: string)
    requires '@' !in host
    ensures HasCredentials(user + ['@'] + host) <==> user != "" && user != ":"
    ensures HostInfo(user + ['@'] + host) == HostInfo(host)
  {
    hide Find;
    var netloc := user + ['@'] + host;
    LastAt(user, host);
    NoLast(host, '@');
    assert netloc[..|user|] == user && netloc[|user| + 1..] == host;
  }

  lemma {:induction false} LastAt(user: string, host: string)
    requires '@' !in host
    ensures FindLast(user + ['@'] + host, '@') == Some(|user|)
  {
    var netloc := user + ['@'] + host;
    if user == "" {
      assert netloc[1..] == host;
      NoLast(host, '@');
    } else {
      assert netloc[1..] == user[1..] + ['@'] + host;
      LastAt(user[1..], host);
    }
  }

  // ---- origins ----

  /** A scheme, a host name and a port. */
  datatype Site = Site(scheme: string, host: string, port: nat)

  predicate HostLetter(c: char) { 'a' <= c <= 'z' || '0' <= c <= '9' }

  /** Lower-case letters, digits, dots and hyphens, with a letter or digit at both ends. */
  predicate Name(host: string) {
    && host != "" && HostLetter(host[0]) && HostLetter(host[|host| - 1])
    && forall i :: 0 <= i < |host| ==> HostLetter(host[i]) || host[i] == '.' || host[i] == '-'
  }

  /** A site of the web whose name the library leaves as it is. */
  predicate Sound(site: Site, lib: Library) {
    && Web(site.scheme) && Name(site.host) && lib.lower(site.host) == site.host
    && lib.normalizes(site.host) && lib.normalizes(site.host + [':'] + Str(site.port))
  }

  lemma NameLetters(host: string, c: char)
    requires Name(host) && !HostLetter(c) && c != '.' && c != '-'
    ensures c !in host
  {
  }

  lemma NamePlain(host: string)
    requires Name(host)
    ensures HostName(host) && Plain(host)
    ensures '@' !in host && '[' !in host && ']' !in host && ':' !in host && '%' !in host
  {
    NameLetters(host, '@');
    NameLetters(host, '[');
    NameLetters(host, ']');
    NameLetters(host, ':');
    NameLetters(host, '%');
  }

  /** The pattern for host names. */
  lemma NameExactly(host: string)
    ensures HostName(host) <==> Name(host)
  {
    if Name(host) { NamePlain(host); }
    if HostName(host) {
      assert forall i :: 0 <= i < |host| ==> host[i] in host;
    }
  }

  lemma NumeralPlain(n: nat, host: string)
    requires Plain(host)
    ensures Plain(host + [':'] + Str(n)) && Str(n) != ""
    ensures '@' !in Str(n) && '[' !in Str(n) && ']' !in Str(n)
  {
    hide Str;
    assert forall i :: 0 <= i < |Str(n)| ==> Str(n)[i] in Str(n) && IsDigit(Str(n)[i]);
  }

  /** The network location of a site, with or without its port. */
  function Location(site: Site, explicit: bool): string {
    if explicit then site.host + [':'] + Str(site.port) else site.host
  }

  function DefaultPort(scheme: string): nat { if scheme == "https" then 443 else 80 }

  lemma LocationOrigin(site: Site, explicit: bool, lib: Library)
    requires Sound(site, lib) && (explicit || site.port == DefaultPort(site.scheme))
    ensures NetlocOrigin(site.scheme, Location(site, explicit), lib) ==
            if site.port <= 65535 then Some(Origin(site.scheme, site.host, site.port)) else None
  {
    hide Str, Find, FindLast, HostName, HostInfo;
    NamePlain(site.host);
    IntStr(site.port);
    NumeralPlain(site.port, site.host);
    if explicit {
      HostPort(site.host, Str(site.port));
      assert '@' !in Location(site, explicit);
    } else {
      HostAlone(site.host);
    }
  }

  /** A host in any case names the origin in lower case. */
  lemma HostLowered(scheme: string, host: string, lib: Library)
    requires Web(scheme) && '@' !in host && '[' !in host && ':' !in host && '%' !in host && host != ""
    requires ':' !in lib.lower(lib.lower(host))
    ensures NetlocOrigin(scheme, host, lib) ==
            if Name(lib.lower(lib.lower(host)))
            then Some(Origin(scheme, lib.lower(lib.lower(host)), DefaultPort(scheme))) else None
  {
    hide Find, FindLast, HostName, HostInfo, Name;
    HostAlone(host);
    NameExactly(lib.lower(lib.lower(host)));
  }

  /** A colon without a number means the default port; a port that is no number names no origin. */
  lemma OddPorts(scheme: string, host: string, port: string, lib: Library)
    requires Web(scheme) && Name(host) && lib.lower(host) == host
    requires '@' !in port && '[' !in port && !IsDecimal(port)
    ensures NetlocOrigin(scheme, host + [':'] + port, lib) ==
            if port == "" then Some(Origin(scheme, host, DefaultPort(scheme))) else None
  {
    hide Find, FindLast, HostName, HostInfo;
    NamePlain(host);
    NameExactly(host);
    assert '@' !in host + [':'] + port;
    if port == "" {
      EmptyPort(host);
      assert host + [':'] + "" == host + [':'];
    } else {
      HostPort(host, port);
    }
  }

  lemma EmptyPort(host: string)
    requires '@' !in host && '[' !in host && ':' !in host
    ensures HostInfo(host + [':']) == (host, None)
  {
    hide Find, FindLast;
    var netloc := host + [':'];
    NoLast(netloc, '@');
    assert netloc == host + [':'] + "";
    FindIn(host, ':', "");
    assert netloc[..|host|] == host && netloc[|host| + 1..] == "" && '[' !in netloc;
  }

  /** What is behind the opening bracket. */
  function Behind(address: string, port: string): string { address + [']'] + Mark(':', port) }

  lemma BehindParts(address: string, port: string)
    requires ']' !in address && ':' !in port
    ensures Before(Behind(address, port), ']') == address
    ensures After(After(Behind(address, port), ']'), ':') == port
  {
    hide Find, Mark;
    var behind := Behind(address, port);
    FindIn(address, ']', Mark(':', port));
    assert behind[..|address|] == address && behind[|address| + 1..] == Mark(':', port);
    AfterColon(port);
  }

  lemma BracketFirst(behind: string)
    ensures After("[" + behind, '[') == behind && '[' in "[" + behind
  {
    assert ("[" + behind)[1..] == behind;
  }

  lemma NoUserBehind(address: string, port: string)
    requires '@' !in address && '@' !in port
    ensures '@' !in "[" + Behind(address, port)
  {
  }

  /** An address in brackets is an IPv6 host, with or without a port. */
  lemma BracketedHost(address: string, port: string)
    requires '@' !in address && '[' !in address && ']' !in address && '@' !in port && ':' !in port
    ensures HostInfo("[" + address + "]" + Mark(':', port)) == (address, if port == "" then None else Some(port))
  {
    hide Find, FindLast, Mark, Before, After;
    var netloc := "[" + Behind(address, port);
    assert "[" + address + "]" + Mark(':', port) == netloc;
    NoUserBehind(address, port);
    NoLast(netloc, '@');
    BracketFirst(Behind(address, port));
    BehindParts(address, port);
  }

  lemma AfterColon(port: string)
    requires ':' !in port
    ensures After(Mark(':', port), ':') == port
  {
    if port == "" {
      assert Find("", ':') == 0;
    } else {
      FindIn([], ':', port);
      assert [] + [':'] + port == [':'] + port;
      assert ([':'] + port)[1..] == port;
    }
  }

  lemma AddressOrigin(scheme: string, address: string, port: nat, lib: Library)
    requires Web(scheme) && '@' !in address && '[' !in address && ']' !in address && '%' !in address && address != ""
    requires ':' in lib.lower(lib.lower(address))
    ensures NetlocOrigin(scheme, "[" + address + "]" + Mark(':', Str(port)), lib) ==
            if lib.ipv6(lib.lower(lib.lower(address))) && port <= 65535
            then Some(Origin(scheme, lib.lower(lib.lower(address)), port)) else None
  {
    hide Str, Find, FindLast, HostInfo, HostName;
    IntStr(port);
    NumeralMarks(port);
    BracketedHost(address, Str(port));
    assert '@' !in "[" + address + "]" + Mark(':', Str(port));
  }

  lemma NumeralMarks(n: nat)
    ensures Str(n) != "" && '@' !in Str(n) && ':' !in Str(n)
  {
    NotInDecimal(n, '@');
    NotInDecimal(n, ':');
  }

  lemma LocationSplits(site: Site, explicit: bool, lib: Library)
    requires Sound(site, lib)
    ensures Plain(Location(site, explicit)) && '[' !in Location(site, explicit) && ']' !in Location(site, explicit)
    ensures lib.normalizes(Location(site, explicit))
  {
    hide Str;
    NamePlain(site.host);
    NumeralPlain(site.port, site.host);
  }

  lemma CleanUnbroken(url: string)
    requires CleanChars(url)
    ensures Unbroken(url)
  {
    forall i | 0 <= i < |url|
      ensures url[i] != '\t' && url[i] != '\r' && url[i] != '\n' { assert url[i] in url && !BadChar(url[i]); }
  }

  /** The origin of a composed URL is its site, if it has no fragment and its port is one. */
  lemma OriginComposed(site: Site, explicit: bool, path: string, query: string, fragment: string, lib: Library)
    requires Sound(site, lib) && (explicit || site.port == DefaultPort(site.scheme))
    requires Rooted(path) && '?' !in path && '#' !in path && '#' !in query
    requires CleanChars(Compose(site.scheme, Location(site, explicit), path, query, fragment))
    ensures OriginOf(Compose(site.scheme, Location(site, explicit), path, query, fragment), lib) ==
            if fragment == "" && site.port <= 65535 then Some(Origin(site.scheme, site.host, site.port)) else None
  {
    hide UrlSplit, CleanChars, NetlocOrigin, Location, Unbroken, Compose, Plain, Name;
    CleanUnbroken(Compose(site.scheme, Location(site, explicit), path, query, fragment));
    LocationSplits(site, explicit, lib);
    SplitComposed(site.scheme, Location(site, explicit), path, query, fragment, lib);
    LocationOrigin(site, explicit, lib);
  }

  /** What names an origin is an http(s) URL without user, fragment or refused characters. */
  lemma OriginSound(url: string, lib: Library)
    requires OriginOf(url, lib).Some?
    ensures CleanChars(url) && UrlSplit(url, lib).Some?
    ensures var p := UrlSplit(url, lib).value;
            Web(p.scheme) && p.fragment == "" && '@' !in p.netloc && HostInfo(p.netloc).0 != ""
    ensures OriginOf(url, lib).value.scheme == UrlSplit(url, lib).value.scheme
    ensures OriginOf(url, lib).value.port <= 65535
  {
    hide UrlSplit, Find, FindLast, HostInfo;
  }

  /** The refused characters: backslash, delete, and everything Python counts as control or space. */
  lemma RefusedCharacters(c: char)
    ensures BadChar(c) <==>
            var n := c as int;
            || n <= 32 || n == 92 || n == 127 || n == 0x85 || n == 0xA0 || n == 0x1680 || 0x2000 <= n <= 0x200A
            || n == 0x2028 || n == 0x2029 || n == 0x202F || n == 0x205F || n == 0x3000
  {
  }

  // ---- the allowlist ----

  /** An explicit URL of a site. */
  function Text(site: Site): string { Compose(site.scheme, Location(site, true), "", "", "") }

  predicate AllSound(sites: seq<Site>, lib: Library) {
    forall i :: 0 <= i < |sites| ==> Sound(sites[i], lib) && sites[i].port <= 65535 && CleanChars(Text(sites[i]))
  }

  function Texts(sites: seq<Site>): (texts: seq<string>)
    ensures |texts| == |sites| && forall i :: 0 <= i < |sites| ==> texts[i] == Text(sites[i])
  {
    if sites == [] then [] else [Text(sites[0])] + Texts(sites[1..])
  }

  lemma SiteOrigin(site: Site, lib: Library)
    requires Sound(site, lib) && site.port <= 65535 && CleanChars(Text(site))
    ensures OriginOf(Text(site), lib) == Some(Origin(site.scheme, site.host, site.port))
  {
    hide OriginOf, CleanChars, Sound;
    OriginComposed(site, true, "", "", "", lib);
  }

  lemma ListedOrigins(sites: seq<Site>, lib: Library)
    requires AllSound(sites, lib)
    ensures forall i :: 0 <= i < |sites| ==>
              OriginOf(Texts(sites)[i], lib) == Some(Origin(sites[i].scheme, sites[i].host, sites[i].port))
  {
    hide OriginOf, CleanChars, Sound, Text;
    forall i | 0 <= i < |sites|
      ensures OriginOf(Texts(sites)[i], lib) == Some(Origin(sites[i].scheme, sites[i].host, sites[i].port))
    {
      SiteOrigin(sites[i], lib);
    }
  }

  lemma ListedAccepted(sites: seq<Site>, url: string, origin: Origin, lib: Library)
    requires AllSound(sites, lib) && url != "" && OriginOf(url, lib) == Some(origin)
    ensures TargetAccepted(url, Texts(sites), lib) <==> Site(origin.scheme, origin.host, origin.port) in sites
  {
    hide OriginOf, CleanChars, Sound, AllSound, Text;
    ListedOrigins(sites, lib);
    var site, texts := Site(origin.scheme, origin.host, origin.port), Texts(sites);
    if site in sites {
      var i :| 0 <= i < |sites| && sites[i] == site;
      assert texts[i] in texts;
    }
    if exists item <- texts :: OriginOf(item, lib) == Some(origin) {
      var item :| item in texts && OriginOf(item, lib) == Some(origin);
      var i :| 0 <= i < |sites| && texts[i] == item;
      assert sites[i] == site;
    }
  }

  /** Where the allowlist names sites, a URL composed for a site is accepted exactly when that very scheme, host and
      port are listed. */
  lemma ListedExactly(sites: seq<Site>, site: Site, explicit: bool, path: string, query: string, lib: Library)
    requires AllSound(sites, lib) && Sound(site, lib) && (explicit || site.port == DefaultPort(site.scheme))
    requires Rooted(path) && '?' !in path && '#' !in path && '#' !in query
    requires CleanChars(Compose(site.scheme, Location(site, explicit), path, query, "")) && site.port <= 65535
    ensures TargetAccepted(Compose(site.scheme, Location(site, explicit), path, query, ""), Texts(sites), lib) <==>
            site in sites
  {
    hide OriginOf, CleanChars, Sound, AllSound, Location, Text, TargetAccepted, Compose;
    var url := Compose(site.scheme, Location(site, explicit), path, query, "");
    OriginComposed(site, explicit, path, query, "", lib);
    NotEmpty(site.scheme, Location(site, explicit), path, query);
    ListedAccepted(sites, url, Origin(site.scheme, site.host, site.port), lib);
  }

  /** One entry that is not an origin makes the allowlist refuse every URL. */
  lemma BadEntryRefuses(url: string, allowed: seq<string>, item: string, lib: Library)
    requires url != "" && item in allowed && OriginOf(item, lib).None?
    ensures !TargetAccepted(url, allowed, lib) && !BaseAccepted(url, allowed, lib)
  {
    hide OriginOf, UrlSplit;
  }

  lemma BaseSplit(url: string, parts: Parts, allowed: seq<string>, lib: Library)
    requires url != "" && UrlSplit(url, lib) == Some(parts) && parts.fragment == ""
    requires parts.path == "" && parts.query == "" ==> url[|url| - 1] != '/'
    ensures BaseAccepted(url, allowed, lib) <==>
            parts.path == "" && parts.query == "" && TargetAccepted(url, allowed, lib)
  {
    hide UrlSplit, TargetAccepted;
  }

  /** A base URL is accepted exactly for a listed site with nothing behind it. */
  lemma BaseExactly(sites: seq<Site>, site: Site, explicit: bool, path: string, query: string, lib: Library)
    requires AllSound(sites, lib) && Sound(site, lib) && (explicit || site.port == DefaultPort(site.scheme))
    requires Rooted(path) && '?' !in path && '#' !in path && '#' !in query
    requires CleanChars(Compose(site.scheme, Location(site, explicit), path, query, "")) && site.port <= 65535
    ensures BaseAccepted(Compose(site.scheme, Location(site, explicit), path, query, ""), Texts(sites), lib) <==>
            path == "" && query == "" && site in sites
  {
    hide OriginOf, CleanChars, Sound, TargetAccepted, BaseAccepted, UrlSplit, Unbroken, Plain, Texts, Location,
      AllSound;
    hide Compose;
    var location := Location(site, explicit);
    var url := Compose(site.scheme, location, path, query, "");
    ListedExactly(sites, site, explicit, path, query, lib);
    CleanUnbroken(url);
    LocationSplits(site, explicit, lib);
    SoundWeb(site, lib);
    SplitComposed(site.scheme, location, path, query, "", lib);
    NotEmpty(site.scheme, location, path, query);
    if path == "" && query == "" { EndsInLetter(site, explicit, lib); }
    BaseSplit(url, Parts(site.scheme, location, path, query, ""), Texts(sites), lib);
  }

  lemma NotEmpty(scheme: string, netloc: string, path: string, query: string)
    ensures Compose(scheme, netloc, path, query, "") != ""
  {
  }

  lemma SoundWeb(site: Site, lib: Library)
    requires Sound(site, lib)
    ensures Web(site.scheme)
  {
  }

  lemma EndsInLetter(site: Site, explicit: bool, lib: Library)
    requires Sound(site, lib)
    ensures var url := Compose(site.scheme, Location(site, explicit), "", "", ""); url != "" && url[|url| - 1] != '/'
  {
    hide Str;
    var location := Location(site, explicit);
    LocationSplits(site, explicit, lib);
    var url := Compose(site.scheme, location, "", "", "");
    assert location != "" && url[|url| - 1] == location[|location| - 1];
  }

  /** The empty base URL stands for a service that is not configured, and passes. */
  lemma EmptyPasses(allowed: seq<string>, lib: Library)
    ensures BaseAccepted("", allowed, lib) && TargetAccepted("", allowed, lib)
  {
  }
}
