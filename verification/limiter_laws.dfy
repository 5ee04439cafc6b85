/** The clock and the counter of the rate limiter in plain numbers and texts (apps/gateway/services.py,
    apps/gateway/test_support.py). */
module LimiterLaws {
  import opened PyStrings
  import opened RedisKeys
  import opened RedisStore
  import opened RateLimiter

  /** Windows are aligned: window `w` runs from w to w + 1 times its length. */
  lemma WindowExactly(at: nat, window: Positive, w: nat)
    ensures Window(at, window) == w <==> w * window * 1000 <= at < (w + 1) * window * 1000
  {
    hide Window, Ttl;
    var v := Window(at, window);
    WindowBounds(at, window);
    if v < w {
      SameOrder(v + 1, w, window);
    } else if w < v {
      SameOrder(w + 1, v, window);
    }
  }

  /** The time to live of a counter reaches from the current second to the next aligned boundary. */
  lemma TtlExactly(at: nat, window: Positive)
    ensures 1 <= Ttl(at, window) <= window
    ensures exists w: nat :: at / 1000 + Ttl(at, window) == w * window
  {
    var now := at / 1000;
    assert now == now / window * window + now % window;
    assert (now / window + 1) * window == now / window * window + window;
    assert now + Ttl(at, window) == (now / window + 1) * window;
  }

  /** A counter is named after its key and its window. */
  lemma CounterName(c: Call, w: nat)
    requires w * c.window * 1000 <= c.at < (w + 1) * c.window * 1000
    ensures CounterKey(c) == c.key + ":" + Str(w)
  {
    hide Str, Window;
    WindowExactly(c.at, c.window, w);
  }

  /** A cell with an expiry is visible before that instant and not from it on, one without always. */
  lemma VisibleExactly(s: Store, name: string, now: nat)
    ensures name in Unexpired(s, now) <==>
            name in s && (s[name].expires == None || now < s[name].expires.value)
    ensures name in Unexpired(s, now) ==> Unexpired(s, now)[name] == s[name]
  {
  }

  /** The script starts an absent counter at one with the given time to live, moves a present one by one and leaves
      its expiry, tells whether the new count is within the limit, and touches nothing else. */
  lemma ScriptExactly(s: Store, name: string, limit: nat, ttl: nat, now: nat, n: nat)
    requires name in s ==> s[name].value == Str(n) && n > 0
    requires name !in s ==> n == 0
    ensures var (after, allowed) := CountCall(s, name, limit, ttl, now);
            && after.Keys == s.Keys + {name} && (forall other <- s :: other != name ==> after[other] == s[other])
            && after[name].value == Str(n + 1)
            && after[name].expires == (if n == 0 then Some(now + 1000 * ttl) else s[name].expires)
            && allowed == Some(n + 1 <= limit)
  {
    hide Str;
    IntStr(n);
  }

  /** On a value that is not a number the script fails and changes nothing, and the limiter is unavailable. */
  lemma ScriptFails(s: Store, c: Call)
    requires CounterKey(c) in s && !IsDecimal(s[CounterKey(c)].value)
    ensures Allow(s, c) == (s, Unavailable)
  {
    hide CounterKey;
  }

  /** So does a call whose script does not run; one that runs without its reply arriving counts all the same. */
  lemma LostCalls(s: Store, c: Call)
    ensures !c.executed ==> Allow(s, c) == (s, Unavailable)
    ensures c.executed && !c.replied ==> Allow(s, c) == (Allow(s, c.(replied := true)).0, Unavailable)
  {
    hide CountCall;
  }
}
