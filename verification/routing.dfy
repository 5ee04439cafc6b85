/** Path handling of the gateway: normalisation, route lookup by first segment, composition of the
    target URL (apps/gateway/services.py) and the single-segment guard of Route.save (apps/routes/models.py). */
module Routing {
  import opened PyStrings
  import Urls

  function Count(s: string, c: char): nat {
    if s == "" then 0 else (if s[0] == c then 1 else 0) + Count(s[1..], c)
  }

  /** The paths Route.save lets into the table. */
  predicate ValidBasePath(path: string) {
    path != "" && StartsWith(path, "/") && path != "/" && Count(path, '/') == 1
  }

  function NormalizePath(path: string): string {
    if path != "" then "/" + Strip(path) else "/"
  }

  /** The base path a request is looked up under; "/" when it has no first segment. */
  function BasePathOf(path: string): string {
    "/" + Urls.Before(Strip(NormalizePath(path)), '/')
  }

  /** build_target_url; None stands for ValueError. */
  function BuildTargetUrl(basePath: string, baseUrl: string, requestPath: string): Option<string> {
    var route, request := NormalizePath(basePath), NormalizePath(requestPath);
    if request != route && !StartsWith(request, route + "/") then None
    else Some(RStrip(baseUrl) + request)
  }

  lemma CountZero(s: string, c: char)
    ensures Count(s, c) == 0 <==> c !in s
  {
  }

  /** What the guard of Route.save amounts to: one slash, in front of a non-empty segment. */
  lemma ValidBasePathShape(path: string)
    ensures ValidBasePath(path) <==> |path| > 1 && path[0] == '/' && '/' !in path[1..]
  {
    if path != "" {
      CountZero(path[1..], '/');
    }
  }

  lemma NormalizeStrip(path: string)
    ensures NormalizePath(path) == "/" + Strip(path)
    ensures Strip(NormalizePath(path)) == Strip(path)
  {
    StripRooted(Strip(path));
  }

  lemma NormalizeIdempotent(path: string)
    ensures NormalizePath(NormalizePath(path)) == NormalizePath(path)
  {
    NormalizeStrip(path);
    NormalizeStrip(NormalizePath(path));
  }

  lemma PrefixBefore(t: string, c: char)
    ensures t == Urls.Before(t, c) || StartsWith(t, Urls.Before(t, c) + [c])
  {
    var i := Find(t, c);
    if i < |t| {
      assert t[..i + 1] == t[..i] + [c];
    } else {
      assert t[..i] == t;
    }
  }

  lemma RootedPrefix(t: string, s: string)
    requires StartsWith(t, s)
    ensures StartsWith("/" + t, "/" + s)
  {
    assert t == s + t[|s|..];
    assert ("/" + t)[..1 + |s|] == "/" + s;
  }

  /** build_target_url in terms of the two stripped paths. */
  lemma BuildStripped(basePath: string, baseUrl: string, requestPath: string)
    requires Strip(requestPath) == Strip(basePath) || StartsWith(Strip(requestPath), Strip(basePath) + "/")
    ensures BuildTargetUrl(basePath, baseUrl, requestPath) == Some(RStrip(baseUrl) + NormalizePath(requestPath))
  {
    NormalizeStrip(basePath);
    NormalizeStrip(requestPath);
    if Strip(requestPath) != Strip(basePath) {
      RootedPrefix(Strip(requestPath), Strip(basePath) + "/");
      assert "/" + (Strip(basePath) + "/") == NormalizePath(basePath) + "/";
    }
  }

  /** The lookup path of any request is either "/" or a path Route.save would accept, and a route found
      under it always yields the stripped origin followed by the whole normalised request path. */
  lemma ResolverAgreesWithBuilder(path: string, baseUrl: string)
    requires BasePathOf(path) != "/"
    ensures ValidBasePath(BasePathOf(path))
    ensures BuildTargetUrl(BasePathOf(path), baseUrl, path) == Some(RStrip(baseUrl) + NormalizePath(path))
  {
    NormalizeStrip(path);
    var segment := Urls.Before(Strip(path), '/');
    FirstSegment(Strip(path));
    StripRooted(segment);
    PrefixBefore(Strip(path), '/');
    BuildStripped(BasePathOf(path), baseUrl, path);
  }

  lemma FirstSegment(t: string)
    requires Urls.Before(t, '/') != ""
    ensures ValidBasePath("/" + Urls.Before(t, '/'))
    ensures Urls.Before(t, '/')[0] != '/' && Urls.Before(t, '/')[|Urls.Before(t, '/')| - 1] != '/'
  {
    var base := "/" + Urls.Before(t, '/');
    assert base[1..] == Urls.Before(t, '/');
    ValidBasePathShape(base);
  }

  lemma RootedConcat(t: string, suffix: string)
    ensures ("/" + t) + suffix == "/" + (t + suffix)
  {
  }

  lemma CleanEnds(t: string, suffix: string)
    requires t != "" && t[0] != '/' && t[|t| - 1] != '/'
    requires suffix == "" || suffix[|suffix| - 1] != '/'
    ensures (t + suffix)[0] != '/' && (t + suffix)[|t + suffix| - 1] != '/'
  {
  }

  lemma SuffixedPrefix(t: string, suffix: string)
    requires suffix == "" || suffix[0] == '/'
    ensures t + suffix == t || StartsWith(t + suffix, t + "/")
  {
    if suffix != "" {
      assert suffix == "/" + suffix[1..];
    }
  }

  /** A request for the normalised public path of a route, with any suffix that neither merges with the
      segment nor ends in a slash, is composed by plain concatenation. */
  lemma BuildAppendsSuffix(basePath: string, origin: string, suffix: string)
    requires Strip(basePath) != ""
    requires suffix == "" || (suffix[0] == '/' && suffix[|suffix| - 1] != '/')
    requires origin == "" || origin[|origin| - 1] != '/'
    ensures BuildTargetUrl(basePath, origin, NormalizePath(basePath) + suffix)
            == Some(origin + (NormalizePath(basePath) + suffix))
  {
    var request := NormalizePath(basePath) + suffix;
    NormalizeStrip(basePath);
    RootedConcat(Strip(basePath), suffix);
    CleanEnds(Strip(basePath), suffix);
    StripRooted(Strip(basePath) + suffix);
    SuffixedPrefix(Strip(basePath), suffix);
    BuildStripped(basePath, origin, request);
    NormalizeStrip(request);
    RStripClean(origin);
  }

  /** A path Route.save accepts is its own normal form. */
  lemma ValidBasePathNormal(path: string)
    requires ValidBasePath(path)
    ensures NormalizePath(path) == path && Strip(path) == path[1..] && LStrip(path) == path[1..]
    ensures path[1..] != ""
  {
    ValidBasePathShape(path);
    assert path == "/" + path[1..];
    StripRooted(path[1..]);
  }

  lemma FirstSegmentOf(t: string, segment: string)
    requires '/' !in segment && (t == segment || StartsWith(t, segment + "/"))
    ensures Urls.Before(t, '/') == segment
  {
    if t == segment {
      assert Find(t, '/') == |t| && t[..|t|] == t;
    } else {
      var rest := t[|segment| + 1..];
      assert t == segment + ['/'] + rest;
      FindIn(segment, '/', rest);
    }
  }

  lemma RootedSegment(t: string, s: string)
    ensures "/" + t == "/" + s <==> t == s
    ensures StartsWith("/" + t, "/" + s) <==> StartsWith(t, s)
  {
    assert ("/" + t)[1..] == t && ("/" + s)[1..] == s;
    if StartsWith("/" + t, "/" + s) {
      assert ("/" + t)[..1 + |s|][1..] == t[..|s|];
    }
    if StartsWith(t, s) { RootedPrefix(t, s); }
  }

  /** The builder accepts a request exactly when the route spells its path like the request's first segment. */
  lemma BuilderAgreesExactly(routePath: string, baseUrl: string, path: string)
    requires ValidBasePath(routePath)
    ensures BuildTargetUrl(routePath, baseUrl, path).Some? <==> routePath == BasePathOf(path)
  {
    hide RStrip, Strip, ValidBasePath, Find;
    ValidBasePathNormal(routePath);
    ValidBasePathShape(routePath);
    NormalizeStrip(path);
    var segment, t := routePath[1..], Strip(path);
    assert routePath == "/" + segment && routePath + "/" == "/" + (segment + "/");
    RootedSegment(t, segment);
    RootedSegment(t, segment + "/");
    if t == segment || StartsWith(t, segment + "/") {
      FirstSegmentOf(t, segment);
    }
    if routePath == BasePathOf(path) {
      PrefixBefore(t, '/');
      RootedSegment(Urls.Before(t, '/'), segment);
    }
  }

  /** So for a path the resolver looks up, the builder either refuses or yields origin and path. */
  lemma BuilderOutcome(routePath: string, baseUrl: string, path: string)
    requires ValidBasePath(routePath) && BasePathOf(path) != "/"
    ensures BuildTargetUrl(routePath, baseUrl, path) ==
            if routePath == BasePathOf(path) then Some(RStrip(baseUrl) + NormalizePath(path)) else None
  {
    hide BuildTargetUrl, BasePathOf, RStrip, NormalizePath, ValidBasePath;
    BuilderAgreesExactly(routePath, baseUrl, path);
    ResolverAgreesWithBuilder(path, baseUrl);
  }

  lemma OwnFirstSegment(path: string)
    requires ValidBasePath(path)
    ensures BasePathOf(path) == path
  {
    BuilderAgreesExactly(path, "", path);
  }
}

/** Redis key names: the route-cache keys of apps/gateway/route_cache.py and the rate-limit keys of the
    gateway and of the client login and registration views. */
module RedisKeys {
  import opened PyStrings
  import opened Routing
  import Urls

  datatype RouteKeys = RouteKeys(version: string, data: string)

  function VersionKey(project: nat, suffix: string): string { "routeversion:{" + Str(project) + "}:" + suffix }

  function DataKey(project: nat, suffix: string): string { "route:{" + Str(project) + "}:" + suffix }

  /** _keys; None stands for ValueError. */
  function Keys(project: nat, basePath: string): Option<RouteKeys> {
    var suffix := LStrip(basePath);
    if suffix == "" || '/' in suffix then None
    else Some(RouteKeys(VersionKey(project, suffix), DataKey(project, suffix)))
  }

  /** What a limiter counts: gateway requests, logins, registrations. */
  datatype Subject =
    | GatewayApplication(app: nat)
    | Login(app: nat, digest: string)
    | Registration(app: nat)
    | RegistrationEmail(app: nat, digest: string)

  function RateKey(s: Subject): string {
    match s
    case GatewayApplication(app) => "gateway_rate:application:" + Str(app)
    case Login(app, digest) => "client_login:" + Str(app) + ":" + digest
    case Registration(app) => "client_register:app:" + Str(app)
    case RegistrationEmail(app, digest) => "client_register:email:" + Str(app) + ":" + digest
  }

  function WindowKey(key: string, window: nat): string { key + ":" + Str(window) }

  /** The part of a key that chooses its Redis Cluster slot (section "Hash tags" of the specification). */
  function HashTag(key: string): string {
    var rest := Urls.After(key, '{');
    var tag := Urls.Before(rest, '}');
    if '{' in key && '}' in rest && tag != "" then tag else key
  }

  /** Every path Route.save accepts has keys, so no invalidation is dropped for its shape. */
  lemma SavedPathsHaveKeys(project: nat, path: string)
    requires ValidBasePath(path)
    ensures Keys(project, path) == Some(RouteKeys(VersionKey(project, path[1..]), DataKey(project, path[1..])))
  {
    ValidBasePathShape(path);
    ValidBasePathNormal(path);
  }

  lemma BracedUnique(prefix: string, p: nat, a: string, q: nat, b: string)
    requires prefix + Str(p) + "}:" + a == prefix + Str(q) + "}:" + b
    ensures p == q && a == b
  {
    hide Str;
    var s := prefix + Str(p) + "}:" + a;
    assert s[|prefix|..] == Str(p) + ['}'] + (":" + a);
    assert s[|prefix|..] == Str(q) + ['}'] + (":" + b);
    NotInDecimal(p, '}');
    NotInDecimal(q, '}');
    SplitUnique(Str(p), Str(q), '}', ":" + a, ":" + b);
    StrInjective(p, q);
    assert (":" + a)[1..] == a && (":" + b)[1..] == b;
  }

  /** Two lookups share a key exactly when they agree on the project and on the segment. */
  lemma KeysCollideExactly(p: nat, a: string, q: nat, b: string)
    requires Keys(p, a).Some? && Keys(q, b).Some?
    ensures Keys(p, a).value.data == Keys(q, b).value.data <==> p == q && LStrip(a) == LStrip(b)
    ensures Keys(p, a).value.version == Keys(q, b).value.version <==> p == q && LStrip(a) == LStrip(b)
  {
    var s, t := LStrip(a), LStrip(b);
    if DataKey(p, s) == DataKey(q, t) { BracedUnique("route:{", p, s, q, t); }
    if VersionKey(p, s) == VersionKey(q, t) { BracedUnique("routeversion:{", p, s, q, t); }
  }

  /** In particular distinct routes never share a key. */
  lemma KeysInjective(p: nat, a: string, q: nat, b: string)
    requires ValidBasePath(a) && ValidBasePath(b)
    requires || DataKey(p, a[1..]) == DataKey(q, b[1..])
             || VersionKey(p, a[1..]) == VersionKey(q, b[1..])
    ensures p == q && a == b
  {
    SavedPathsHaveKeys(p, a);
    SavedPathsHaveKeys(q, b);
    ValidBasePathNormal(a);
    ValidBasePathNormal(b);
    KeysCollideExactly(p, a, q, b);
    ValidBasePathShape(a);
    ValidBasePathShape(b);
    assert a == "/" + a[1..] && b == "/" + b[1..];
  }

  /** Data keys, version keys and rate-limit counters never meet. */
  lemma KeyspacesDisjoint(p: nat, a: string, q: nat, b: string, s: Subject, w: nat)
    ensures DataKey(p, a) != VersionKey(q, b)
    ensures WindowKey(RateKey(s), w) != DataKey(p, a)
    ensures WindowKey(RateKey(s), w) != VersionKey(q, b)
  {
    assert DataKey(p, a)[0] == 'r' && DataKey(p, a)[5] == ':';
    assert VersionKey(q, b)[0] == 'r' && VersionKey(q, b)[5] == 'v';
    assert RateKey(s)[0] == 'g' || RateKey(s)[0] == 'c';
    assert WindowKey(RateKey(s), w)[0] == RateKey(s)[0];
  }

  lemma WindowKeyInjective(k: string, v: nat, l: string, w: nat)
    requires WindowKey(k, v) == WindowKey(l, w)
    ensures k == l && v == w
  {
    NotInDecimal(v, ':');
    NotInDecimal(w, ':');
    SplitLastUnique(k, l, ':', Str(v), Str(w));
    StrInjective(v, w);
  }

  lemma NumberedUnique(prefix: string, p: nat, a: string, q: nat, b: string)
    requires prefix + Str(p) + ":" + a == prefix + Str(q) + ":" + b
    ensures p == q && a == b
  {
    hide Str;
    var s := prefix + Str(p) + ":" + a;
    assert s[|prefix|..] == Str(p) + [':'] + a;
    assert s[|prefix|..] == Str(q) + [':'] + b;
    NotInDecimal(p, ':');
    NotInDecimal(q, ':');
    SplitUnique(Str(p), Str(q), ':', a, b);
    StrInjective(p, q);
  }

  lemma SuffixUnique(prefix: string, p: nat, q: nat)
    requires prefix + Str(p) == prefix + Str(q)
    ensures p == q
  {
    assert (prefix + Str(p))[|prefix|..] == Str(p);
    assert (prefix + Str(q))[|prefix|..] == Str(q);
    StrInjective(p, q);
  }

  /** The kind of a subject can be read off three characters of its key. */
  lemma RateKeyKind(s: Subject)
    ensures |RateKey(s)| > 14
    ensures RateKey(s)[0] == 'g' <==> s.GatewayApplication?
    ensures RateKey(s)[7] == 'l' <==> s.Login?
    ensures RateKey(s)[7] == 'r' ==> |RateKey(s)| > 16 && (RateKey(s)[16] == 'a' <==> s.Registration?)
  {
    assert |"gateway_rate:application:"| == 25 && |"client_login:"| == 13;
    assert |"client_register:app:"| == 20 && |"client_register:email:"| == 22;
  }

  /** Each limiter subject has its own counter family. */
  lemma RateKeyInjective(s: Subject, t: Subject)
    requires RateKey(s) == RateKey(t)
    ensures s == t
  {
    RateKeyKind(s);
    RateKeyKind(t);
    match s
    case GatewayApplication(app) => SuffixUnique("gateway_rate:application:", app, t.app);
    case Login(app, digest) => NumberedUnique("client_login:", app, digest, t.app, t.digest);
    case Registration(app) => SuffixUnique("client_register:app:", app, t.app);
    case RegistrationEmail(app, digest) => NumberedUnique("client_register:email:", app, digest, t.app, t.digest);
  }

  lemma AfterFirst(pre: string, c: char, post: string)
    requires c !in pre
    ensures Urls.Before(pre + [c] + post, c) == pre
    ensures Urls.After(pre + [c] + post, c) == post
    ensures c in pre + [c] + post
  {
    FindIn(pre, c, post);
    assert (pre + [c] + post)[|pre|] == c;
  }

  lemma TaggedBy(prefix: string, tag: string, suffix: string)
    requires '{' !in prefix && '}' !in tag && tag != ""
    ensures HashTag(prefix + ['{'] + (tag + ['}'] + suffix)) == tag
  {
    AfterFirst(prefix, '{', tag + ['}'] + suffix);
    AfterFirst(tag, '}', suffix);
  }

  lemma BracesApart(prefix: string, tag: string, suffix: string)
    ensures (prefix + "{") + tag + "}:" + suffix == prefix + ['{'] + (tag + ['}'] + (":" + suffix))
  {
  }

  /** Both keys of a script live in the slot of the project, whatever braces the segment contains. */
  lemma ScriptKeysShareSlot(project: nat, suffix: string)
    ensures HashTag(DataKey(project, suffix)) == HashTag(VersionKey(project, suffix)) == Str(project) != ""
  {
    NotInDecimal(project, '}');
    BracesApart("route:", Str(project), suffix);
    BracesApart("routeversion:", Str(project), suffix);
    TaggedBy("route:", Str(project), ":" + suffix);
    TaggedBy("routeversion:", Str(project), ":" + suffix);
    assert "route:" + "{" == "route:{" && "routeversion:" + "{" == "routeversion:{";
  }
}
