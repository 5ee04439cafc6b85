/** What stripping, normalising, looking up and composing come to on any request, spelt out by its parts: slashes
    in front, a segment, a rest, slashes behind (apps/gateway/services.py). */
module PathLaws {
  import opened PyStrings
  import opened Routing
  import opened RedisKeys
  import Urls

  predicate Slashes(s: string) { forall i :: 0 <= i < |s| ==> s[i] == '/' }

  /** Neither end is a slash. */
  predicate Clean(s: string) { s == "" || (s[0] != '/' && s[|s| - 1] != '/') }

  lemma {:induction false} LStripSlashes(a: string, s: string)
    requires Slashes(a)
    ensures LStrip(a + s) == LStrip(s)
  {
    if a == "" {
      assert a + s == s;
    } else {
      assert (a + s)[0] == '/' && (a + s)[1..] == a[1..] + s;
      LStripSlashes(a[1..], s);
    }
  }

  lemma {:induction false} RStripSlashes(s: string, b: string)
    requires Slashes(b)
    ensures RStrip(s + b) == RStrip(s)
  {
    if b == "" {
      assert s + b == s;
    } else {
      assert (s + b)[|s + b| - 1] == '/' && (s + b)[..|s + b| - 1] == s + b[..|b| - 1];
      RStripSlashes(s, b[..|b| - 1]);
    }
  }

  lemma StripSlashes(b: string)
    requires Slashes(b)
    ensures LStrip(b) == "" && RStrip(b) == ""
  {
    LStripSlashes(b, "");
    RStripSlashes("", b);
    assert b + "" == b && "" + b == b;
  }

  /** str.strip('/') removes the slashes at both ends and nothing else. */
  lemma StripExactly(a: string, r: string, b: string)
    requires Slashes(a) && Slashes(b) && Clean(r)
    ensures Strip(a + r + b) == r
  {
    hide LStrip, RStrip;
    assert a + r + b == a + (r + b);
    LStripSlashes(a, r + b);
    if r == "" {
      StripSlashes(b);
      RStripClean("");
      assert r + b == b;
    } else {
      KeepsFront(r, b);
      RStripSlashes(r, b);
      RStripClean(r);
    }
  }

  lemma KeepsFront(r: string, b: string)
    requires r != "" && r[0] != '/'
    ensures LStrip(r + b) == r + b
  {
  }

  lemma LeftPart(s: string) returns (a: string)
    ensures s == a + LStrip(s) && Slashes(a)
  {
    a := s[..|s| - |LStrip(s)|];
    assert s == a + s[|s| - |LStrip(s)|..];
  }

  lemma RightPart(s: string) returns (b: string)
    ensures s == RStrip(s) + b && Slashes(b)
  {
    b := s[|RStrip(s)|..];
    assert s == s[..|RStrip(s)|] + b;
  }

  /** ... and every string has such parts. */
  lemma StripParts(s: string) returns (a: string, b: string)
    ensures s == a + Strip(s) + b && Slashes(a) && Slashes(b) && Clean(Strip(s))
  {
    hide LStrip, RStrip, Slashes;
    a := LeftPart(s);
    b := RightPart(LStrip(s));
    assert Strip(s) == RStrip(LStrip(s));
    assert a + (Strip(s) + b) == a + Strip(s) + b;
  }

  /** A request is some slashes, a path with clean ends, and some slashes; its normal form is that path behind one
      slash. */
  lemma NormalForm(a: string, path: string, b: string)
    requires Slashes(a) && Slashes(b) && Clean(path)
    ensures NormalizePath(a + path + b) == "/" + path
  {
    hide Strip;
    StripExactly(a, path, b);
    NormalizeStrip(a + path + b);
  }

  predicate Segment(s: string) { s != "" && '/' !in s }

  /** What follows the first segment: nothing, or a slash and more that does not end in one. */
  predicate Rest(s: string) { s == "" || (s[0] == '/' && s[|s| - 1] != '/') }

  lemma SegmentFirst(segment: string, rest: string)
    requires Segment(segment) && Rest(rest)
    ensures Clean(segment + rest) && Urls.Before(segment + rest, '/') == segment
  {
    hide Find;
    if rest == "" {
      assert segment + rest == segment;
      assert segment[0] in segment && segment[|segment| - 1] in segment;
      assert Find(segment, '/') == |segment| && segment[..|segment|] == segment;
    } else {
      assert segment + rest == segment + ['/'] + rest[1..];
      FindIn(segment, '/', rest[1..]);
      assert segment[0] in segment;
    }
  }

  /** The lookup path of a request is its first segment, whatever slashes surround it and whatever follows. */
  lemma LookupPath(a: string, segment: string, rest: string, b: string)
    requires Slashes(a) && Slashes(b) && Segment(segment) && Rest(rest)
    ensures BasePathOf(a + segment + rest + b) == "/" + segment
  {
    hide Strip, Find;
    SegmentFirst(segment, rest);
    assert a + segment + rest + b == a + (segment + rest) + b;
    NormalForm(a, segment + rest, b);
    StripRooted(segment + rest);
  }

  /** It has none exactly when it consists of slashes. */
  lemma NoLookupPath(path: string)
    ensures BasePathOf(path) == "/" <==> Slashes(path)
  {
    hide Strip, Find;
    var a, b := StripParts(path);
    NormalizeStrip(path);
    var t := Strip(path);
    if t == "" {
      assert path == a + b;
    } else {
      assert t[0] in path;
      assert Urls.Before(t, '/') != "" by { FirstNotEmpty(t); }
      assert ("/" + Urls.Before(t, '/'))[1..] == Urls.Before(t, '/');
    }
  }

  lemma FirstNotEmpty(t: string)
    requires t != "" && t[0] != '/'
    ensures Urls.Before(t, '/') != ""
  {
  }

  /** The target URL is the base URL without its trailing slashes, followed by the request without surplus ones. */
  lemma ComposedTarget(a: string, segment: string, rest: string, b: string, origin: string, slashes: string)
    requires Slashes(a) && Slashes(b) && Slashes(slashes) && Segment(segment) && Rest(rest)
    requires origin == "" || origin[|origin| - 1] != '/'
    ensures BuildTargetUrl("/" + segment, origin + slashes, a + segment + rest + b) ==
        Some(origin + "/" + segment + rest)
  {
    hide BuildTargetUrl, BasePathOf, NormalizePath, RStrip, Clean;
    var path := a + segment + rest + b;
    LookupPath(a, segment, rest, b);
    Rooted(segment);
    BuilderOutcome("/" + segment, origin + slashes, path);
    SegmentFirst(segment, rest);
    assert path == a + (segment + rest) + b;
    NormalForm(a, segment + rest, b);
    RStripSlashes(origin, slashes);
    RStripClean(origin);
    assert origin + ("/" + (segment + rest)) == origin + "/" + segment + rest;
  }

  lemma Rooted(segment: string)
    requires Segment(segment)
    ensures ValidBasePath("/" + segment) && "/" + segment != "/"
  {
    assert ("/" + segment)[1..] == segment;
    ValidBasePathShape("/" + segment);
  }

  /** A route under another segment is refused. */
  lemma OtherRoute(a: string, segment: string, rest: string, b: string, other: string, baseUrl: string)
    requires Slashes(a) && Slashes(b) && Segment(segment) && Rest(rest) && Segment(other) && other != segment
    ensures BuildTargetUrl("/" + other, baseUrl, a + segment + rest + b).None?
  {
    hide BuildTargetUrl, BasePathOf;
    LookupPath(a, segment, rest, b);
    Rooted(segment);
    Rooted(other);
    assert ("/" + other)[1..] == other && ("/" + segment)[1..] == segment;
    BuilderOutcome("/" + other, baseUrl, a + segment + rest + b);
  }

  // ---- Redis names as text ----

  /** A path has Redis keys exactly when it is slashes and one segment; their names spell project and segment. */
  lemma KeyTexts(project: nat, a: string, segment: string)
    requires Slashes(a) && (segment == "" || segment[0] != '/')
    ensures Keys(project, a + segment) ==
            if Segment(segment)
            then Some(RouteKeys("routeversion:{" + Str(project) + "}:" + segment,
              "route:{" + Str(project) + "}:" + segment))
            else None
  {
    hide Str;
    LStripSlashes(a, segment);
    assert LStrip(segment) == segment;
  }

  lemma NumeralTexts()
    ensures Str(0) == "0" && Str(9) == "9" && Str(10) == "10" && Str(1203) == "1203" && Int("1203") == 1203
  {
    assert Str(12) == "12" && Str(120) == "120";
    IntStr(1203);
  }

  lemma RouteTexts()
    ensures Keys(42, "/doctors") == Some(RouteKeys("routeversion:{42}:doctors", "route:{42}:doctors"))
  {
    hide LStrip, Str, Keys;
    FortyTwo();
    assert "/" + "doctors" == "/doctors" && Segment("doctors");
    KeyTexts(42, "/", "doctors");
    assert "routeversion:{" + "42" + "}:" + "doctors" == "routeversion:{42}:doctors";
    assert "route:{" + "42" + "}:" + "doctors" == "route:{42}:doctors";
  }

  lemma FortyTwo()
    ensures Str(42) == "42" && Str(7) == "7" && Str(29) == "29"
  {
  }

  /** The names of the counters in full. */
  lemma CounterTexts()
    ensures WindowKey(RateKey(GatewayApplication(7)), 29) == "gateway_rate:application:7:29"
    ensures WindowKey(RateKey(Login(7, "ab")), 29) == "client_login:7:ab:29"
  {
    hide Str;
    FortyTwo();
    assert "gateway_rate:application:" + "7" + ":" + "29" == "gateway_rate:application:7:29";
    assert "client_login:" + "7" + ":" + "ab" + ":" + "29" == "client_login:7:ab:29";
  }

  lemma RegistrationTexts()
    ensures WindowKey(RateKey(Registration(7)), 29) == "client_register:app:7:29"
    ensures WindowKey(RateKey(RegistrationEmail(7, "ab")), 29) == "client_register:email:7:ab:29"
  {
    hide Str;
    FortyTwo();
    assert "client_register:app:" + "7" + ":" + "29" == "client_register:app:7:29";
    assert "client_register:email:" + "7" + ":" + "ab" + ":" + "29" == "client_register:email:7:ab:29";
  }
}
