/** urllib.parse.urlsplit of Python 3.12, as the destination checks and the origin migration use it.
    What it delegates to Unicode tables and to the ipaddress module comes in as a `Library`. */
module Urls {
  import opened PyStrings

  datatype Library = Library(
    lower: string -> string,      // str.lower
    ipv6: string -> bool,         // ipaddress.IPv6Address accepts the host
    bracketed: string -> bool,    // the bracketed host of a network location is well formed
    normalizes: string -> bool)   // NFKC normalisation introduces no delimiter

  datatype Parts = Parts(scheme: string, netloc: string, path: string, query: string, fragment: string)

  predicate C0OrSpace(c: char) { c <= ' ' }

  predicate Removed(c: char) { c == '\t' || c == '\r' || c == '\n' }

  predicate AsciiAlpha(c: char) { 'a' <= c <= 'z' || 'A' <= c <= 'Z' }

  predicate SchemeChar(c: char) { AsciiAlpha(c) || IsDigit(c) || c == '+' || c == '-' || c == '.' }

  predicate Delimiter(c: char) { c == '/' || c == '?' || c == '#' }

  function LStripControls(s: string): string {
    if s != "" && C0OrSpace(s[0]) then LStripControls(s[1..]) else s
  }

  function RemoveUnsafe(s: string): string {
    if s == "" then "" else (if Removed(s[0]) then "" else [s[0]]) + RemoveUnsafe(s[1..])
  }

  /** Lower case of a scheme, whose characters are all ASCII. */
  function LowerScheme(s: string): (r: string)
    ensures |r| == |s|
  {
    if s == "" then ""
    else [if 'A' <= s[0] <= 'Z' then s[0] - 'A' + 'a' else s[0]] + LowerScheme(s[1..])
  }

  /** Where the network location at the front of `s` ends. */
  function NetlocEnd(s: string): (i: nat)
    ensures i <= |s|
    ensures forall k :: 0 <= k < i ==> !Delimiter(s[k])
    ensures i < |s| ==> Delimiter(s[i])
  {
    if s == "" || Delimiter(s[0]) then 0 else 1 + NetlocEnd(s[1..])
  }

  predicate AllSchemeChars(s: string) {
    s == "" || (SchemeChar(s[0]) && AllSchemeChars(s[1..]))
  }

  predicate HasScheme(url: string) {
    var i := Find(url, ':');
    0 < i < |url| && AsciiAlpha(url[0]) && AllSchemeChars(url[..i])
  }

  predicate NetlocAccepted(netloc: string, lib: Library) {
    && ('[' in netloc <==> ']' in netloc)
    && ('[' in netloc ==> lib.bracketed(netloc))
    && lib.normalizes(netloc)
  }

  /** What follows the network location, cut at the first '#' and then at the first '?'. */
  function SplitTail(tail: string): (string, string, string) {
    var f := Find(tail, '#');
    var before := tail[..f];
    var q := Find(before, '?');
    (before[..q],
     if q < |before| then before[q + 1..] else "",
     if f < |tail| then tail[f + 1..] else "")
  }

  /** The network location and what follows it, of a URL already past its scheme. */
  function SplitNetloc(rest: string): (string, string) {
    if StartsWith(rest, "//") then
      var body := rest[2..];
      (body[..NetlocEnd(body)], body[NetlocEnd(body)..])
    else ("", rest)
  }

  function AfterScheme(url: string): string {
    if HasScheme(url) then url[Find(url, ':') + 1..] else url
  }

  /** urlsplit; None stands for ValueError. */
  function UrlSplit(raw: string, lib: Library): Option<Parts> {
    var url := RemoveUnsafe(LStripControls(raw));
    var scheme := if HasScheme(url) then LowerScheme(url[..Find(url, ':')]) else "";
    var (netloc, tail) := SplitNetloc(AfterScheme(url));
    if !NetlocAccepted(netloc, lib) then None
    else
      var (path, query, fragment) := SplitTail(tail);
      Some(Parts(scheme, netloc, path, query, fragment))
  }

  /** str.partition(c): the parts before and after the first `c`. */
  function Before(s: string, c: char): string { s[..Find(s, c)] }
  function After(s: string, c: char): string { if Find(s, c) < |s| then s[Find(s, c) + 1..] else "" }

  /** The host and port strings of a network location, as SplitResult._hostinfo finds them. */
  function HostInfo(netloc: string): (string, Option<string>) {
    var at := FindLast(netloc, '@');
    var hostinfo := if at.Some? then netloc[at.value + 1..] else netloc;
    var (host, port) :=
      if '[' in hostinfo then
        var bracketed := After(hostinfo, '[');
        (Before(bracketed, ']'), After(After(bracketed, ']'), ':'))
      else (Before(hostinfo, ':'), After(hostinfo, ':'));
    (host, if port == "" then None else Some(port))
  }

  /** The user name and password carry text: what `parts.username or parts.password` tests. */
  predicate HasCredentials(netloc: string) {
    var at := FindLast(netloc, '@');
    at.Some? && netloc[..at.value] != "" && netloc[..at.value] != ":"
  }

  // ---- appending a path ----

  predicate Quiet(s: string) { forall c <- s :: !C0OrSpace(c) }

  lemma {:induction false} CleaningQuiet(s: string)
    requires Quiet(s)
    ensures RemoveUnsafe(LStripControls(s)) == s
  {
    if s != "" {
      assert !C0OrSpace(s[0]) by { assert s[0] in s; }
      CleaningQuiet(s[1..]);
      assert LStripControls(s[1..]) == s[1..];
    }
  }

  lemma NetlocEndAppend(s: string, t: string)
    requires t == "" || Delimiter(t[0])
    ensures NetlocEnd(s + t) == NetlocEnd(s)
  {
    var i, k := NetlocEnd(s), NetlocEnd(s + t);
    assert forall n :: 0 <= n < |s| ==> (s + t)[n] == s[n];
    assert i < |s| ==> Delimiter((s + t)[i]);
    assert t != "" ==> (s + t)[|s|] == t[0];
    assert k < |s| ==> Delimiter(s[k]);
  }

  lemma SchemeAppend(base: string, path: string)
    requires HasScheme(base)
    ensures HasScheme(base + path) && Find(base + path, ':') == Find(base, ':')
    ensures AfterScheme(base + path) == AfterScheme(base) + path
  {
    hide AllSchemeChars, Find;
    var i := Find(base, ':');
    FindAppend(base, path, ':');
    CutConcat(base, path, i);
    CutConcat(base, path, i + 1);
  }

  lemma NetlocAppend(rest: string, path: string)
    requires StartsWith(rest, "//")
    requires path != "" && path[0] == '/'
    ensures SplitNetloc(rest + path) == (SplitNetloc(rest).0, SplitNetloc(rest).1 + path)
  {
    hide NetlocEnd;
    var body := rest[2..];
    CutConcat(rest, path, 2);
    NetlocEndAppend(body, path);
    CutConcat(body, path, NetlocEnd(body));
  }
}
