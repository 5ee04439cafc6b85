/** Options, lists as sets, and the string operations the gateway relies on: searching, stripping slashes, and
    the decimal rendering of integers inside Redis keys and token claims. */
module PyStrings {

  datatype Option<+T> = None | Some(value: T)

  function Elements<T(==)>(s: seq<T>): set<T> { set x | x in s }

  /** Index of the first `c`, or the length when there is none. */
  function Find(s: string, c: char): (i: nat)
    ensures i <= |s|
    ensures forall k :: 0 <= k < i ==> s[k] != c
    ensures i < |s| ==> s[i] == c
    ensures i == |s| <==> c !in s
  {
    if s == "" then 0 else if s[0] == c then 0 else 1 + Find(s[1..], c)
  }

  /** Index of the last `c`, if any. */
  function FindLast(s: string, c: char): (i: Option<nat>)
    ensures i.None? ==> forall k :: 0 <= k < |s| ==> s[k] != c
    ensures i.Some? ==> i.value < |s| && s[i.value] == c
    ensures i.Some? ==> forall k :: i.value < k < |s| ==> s[k] != c
  {
    if s == "" then None
    else
      var later := FindLast(s[1..], c);
      assert forall k :: 1 <= k < |s| ==> s[k] == s[1..][k - 1];
      if later.Some? then Some(1 + later.value) else if s[0] == c then Some(0) else None
  }

  lemma FindAppend(s: string, t: string, c: char)
    ensures Find(s + t, c) == if Find(s, c) < |s| then Find(s, c) else |s| + Find(t, c)
  {
    var i, j, k := Find(s, c), Find(t, c), Find(s + t, c);
    assert forall n :: 0 <= n < |s| ==> (s + t)[n] == s[n];
    assert forall n :: |s| <= n < |s| + |t| ==> (s + t)[n] == t[n - |s|];
    assert i < |s| ==> (s + t)[i] == c;
    assert j < |t| ==> (s + t)[|s| + j] == c;
    assert k < |s| ==> s[k] == c;
    assert |s| <= k < |s| + |t| ==> t[k - |s|] == c;
  }

  lemma CutConcat(s: string, t: string, i: nat)
    requires i <= |s|
    ensures (s + t)[..i] == s[..i] && (s + t)[i..] == s[i..] + t
  {
  }

  predicate StartsWith(s: string, prefix: string) {
    |prefix| <= |s| && s[..|prefix|] == prefix
  }

  /** The result of a search is fixed by what surrounds it. */
  lemma FindIn(pre: string, c: char, post: string)
    requires c !in pre
    ensures Find(pre + [c] + post, c) == |pre|
  {
    var s := pre + [c] + post;
    assert forall k :: 0 <= k < |pre| ==> s[k] == pre[k];
    assert s[|pre|] == c;
  }

  // ---- stripping slashes ----

  function LStrip(s: string): (r: string)
    ensures |r| <= |s| && s[|s| - |r|..] == r
    ensures forall i :: 0 <= i < |s| - |r| ==> s[i] == '/'
    ensures r == "" || r[0] != '/'
  {
    if s != "" && s[0] == '/' then
      var r := LStrip(s[1..]);
      assert s[1..][|s| - 1 - |r|..] == s[|s| - |r|..];
      assert forall i :: 1 <= i < |s| - |r| ==> s[i] == s[1..][i - 1];
      r
    else s
  }

  function RStrip(s: string): (r: string)
    ensures |r| <= |s| && s[..|r|] == r
    ensures forall i :: |r| <= i < |s| ==> s[i] == '/'
    ensures r == "" || r[|r| - 1] != '/'
  {
    if s != "" && s[|s| - 1] == '/' then
      var r := RStrip(s[..|s| - 1]);
      assert s[..|s| - 1][..|r|] == s[..|r|];
      assert forall i :: |r| <= i < |s| - 1 ==> s[i] == s[..|s| - 1][i];
      r
    else s
  }

  function Strip(s: string): (r: string)
    ensures r == "" || (r[0] != '/' && r[|r| - 1] != '/')
  {
    var l := LStrip(s);
    var r := RStrip(l);
    assert r != "" ==> r[0] == l[0];
    r
  }

  lemma RStripClean(s: string)
    requires s == "" || s[|s| - 1] != '/'
    ensures RStrip(s) == s
  {
  }

  /** A string with no slash at either end survives stripping. */
  lemma StripClean(s: string)
    requires s == "" || (s[0] != '/' && s[|s| - 1] != '/')
    ensures LStrip(s) == s && Strip(s) == s
  {
    RStripClean(s);
  }

  /** ... and so does one behind a single leading slash. */
  lemma StripRooted(s: string)
    requires s == "" || (s[0] != '/' && s[|s| - 1] != '/')
    ensures LStrip("/" + s) == s && Strip("/" + s) == s
  {
    assert ("/" + s)[1..] == s;
    assert LStrip("/" + s) == LStrip(s);
    StripClean(s);
  }

  // ---- decimal numerals ----

  predicate IsDigit(c: char) { '0' <= c <= '9' }

  predicate IsDecimal(s: string) { s != "" && forall c <- s :: IsDigit(c) }

  function Digit(d: nat): char
    requires d < 10
  {
    '0' + d as char
  }

  /** str(n) for a non-negative integer. */
  function Str(n: nat): (s: string)
    ensures IsDecimal(s)
  {
    if n < 10 then [Digit(n)] else Str(n / 10) + [Digit(n % 10)]
  }

  /** int(s) for a decimal string. */
  function Int(s: string): nat
    requires forall c <- s :: IsDigit(c)
  {
    if s == "" then 0
    else
      var last := s[|s| - 1];
      assert IsDigit(last);
      10 * Int(s[..|s| - 1]) + (last as int - '0' as int)
  }

  lemma {:induction false} IntStr(n: nat)
    ensures Int(Str(n)) == n
  {
    var s := Str(n);
    if n < 10 {
      assert Int(s[..0]) == 0;
    } else {
      IntStr(n / 10);
      assert s[..|s| - 1] == Str(n / 10);
    }
  }

  lemma StrInjective(a: nat, b: nat)
    requires Str(a) == Str(b)
    ensures a == b
  {
    IntStr(a);
    IntStr(b);
  }

  lemma NotInDecimal(n: nat, c: char)
    requires !IsDigit(c)
    ensures c !in Str(n)
  {
  }

  /** Two strings that agree up to a separator absent from both heads have equal heads and tails. */
  lemma SplitUnique(a: string, b: string, c: char, x: string, y: string)
    requires c !in a && c !in b
    requires a + [c] + x == b + [c] + y
    ensures a == b && x == y
  {
    FindIn(a, c, x);
    FindIn(b, c, y);
    var s := a + [c] + x;
    assert a == s[..|a|] && b == s[..|a|];
    assert x == s[|a| + 1..] && y == s[|a| + 1..];
  }

  /** The same, splitting at a separator absent from both tails. */
  lemma SplitLastUnique(a: string, b: string, c: char, x: string, y: string)
    requires c !in x && c !in y
    requires a + [c] + x == b + [c] + y
    ensures a == b && x == y
  {
    var s, t := a + [c] + x, b + [c] + y;
    assert s[|a|] == c && t[|b|] == c;
    assert forall k :: |a| < k < |s| ==> s[k] == x[k - |a| - 1] != c;
    assert forall k :: |b| < k < |t| ==> t[k] == y[k - |b| - 1] != c;
    assert a == s[..|a|] && b == t[..|b|];
    assert x == s[|a| + 1..] && y == t[|b| + 1..];
  }
}
