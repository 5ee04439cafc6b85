/** The in-repository semantics of the Redis commands and scripts the gateway uses
    (apps/gateway/test_support.py): two dictionaries, one with expiry instants in milliseconds, whose
    expired keys are dropped only when they are next read. */
module RedisStore {
  import opened PyStrings

  datatype Cell = Cell(value: string, expires: Option<nat>)

  type Store = map<string, Cell>

  predicate Alive(cell: Cell, now: nat) { cell.expires.None? || now < cell.expires.value }

  /** What clients can see at an instant. */
  function Unexpired(s: Store, now: nat): Store { map k <- s | Alive(s[k], now) :: s[k] }

  // ---- the scripts, as functions of what is visible ----

  /** The fixed-window script; None stands for the error INCR raises on a value that is not a number. */
  function CountCall(s: Store, key: string, limit: nat, ttl: nat, now: nat): (Store, Option<bool>) {
    if key in s && !IsDecimal(s[key].value) then (s, None)
    else
      var count := if key in s then Int(s[key].value) + 1 else 1;
      var expires := if count == 1 then Some(now + 1000 * ttl) else s[key].expires;
      (s[key := Cell(Str(count), expires)], Some(count <= limit))
  }

  function Generation(s: Store, versionKey: string): string {
    if versionKey in s && s[versionKey].value != "" then s[versionKey].value else "0"
  }

  /** The publishing script. */
  function PublishIfCurrent(s: Store, versionKey: string, dataKey: string, generation: string, payload: string,
                            ttl: nat, now: nat): (Store, bool) {
    if Generation(s, versionKey) != generation then (s, false)
    else (s[dataKey := Cell(payload, Some(now + 1000 * ttl))], true)
  }

  /** The invalidation script. */
  function InvalidateKeys(s: Store, versionKey: string, dataKey: string): (Store, bool) {
    if !IsDecimal(Generation(s, versionKey)) then (s, false)
    else
      var expires := if versionKey in s then s[versionKey].expires else None;
      (s[versionKey := Cell(Str(Int(Generation(s, versionKey)) + 1), expires)] - {dataKey}, true)
  }

  /** The two dictionaries read together. */
  function Combined(data: map<string, string>, expires: map<string, nat>): Store {
    map k <- data :: Cell(data[k], if k in expires then Some(expires[k]) else None)
  }

  lemma CombinedWrite(data: map<string, string>, expires: map<string, nat>, key: string, value: string)
    ensures Combined(data[key := value], expires) ==
            Combined(data, expires)[key := Cell(value, if key in expires then Some(expires[key]) else None)]
  {
  }

  lemma CombinedSet(data: map<string, string>, expires: map<string, nat>, key: string, value: string, at: nat)
    ensures Combined(data[key := value], expires[key := at]) == Combined(data, expires)[key := Cell(value, Some(at))]
  {
  }

  lemma CombinedPersist(data: map<string, string>, expires: map<string, nat>, key: string, value: string)
    ensures Combined(data[key := value], expires - {key}) == Combined(data, expires)[key := Cell(value, None)]
  {
  }

  lemma CombinedDrop(data: map<string, string>, expires: map<string, nat>, key: string)
    ensures Combined(data - {key}, expires - {key}) == Combined(data, expires) - {key}
  {
  }

  class FakeRedisClient {
    var data: map<string, string>
    var expires: map<string, nat>

    ghost predicate Valid()
      reads this
    {
      expires.Keys <= data.Keys
    }

    ghost function Contents(): Store
      reads this
    {
      Combined(data, expires)
    }

    ghost function View(now: nat): Store
      reads this
    {
      Unexpired(Contents(), now)
    }

    constructor ()
      ensures Valid() && Contents() == map[]
    {
      data, expires := map[], map[];
    }

    /** _read: dropping an expired key changes nothing that anyone can see from now on. */
    method Read(key: string, now: nat) returns (value: Option<string>)
      requires Valid()
      modifies this
      ensures Valid() && forall t :: now <= t ==> View(t) == old(View(t))
      ensures value == if key in View(now) then Some(View(now)[key].value) else None
      ensures key in data <==> key in View(now)
      ensures key in data ==> data[key] == View(now)[key].value
      ensures key in data ==> View(now)[key].expires == if key in expires then Some(expires[key]) else None
    {
      if key in expires && expires[key] <= now {
        CombinedDrop(data, expires, key);
        expires := expires - {key};
        data := data - {key};
      }
      value := if key in data then Some(data[key]) else None;
    }

    /** set. */
    method Set(key: string, value: string, ex: Option<nat>, now: nat)
      requires Valid()
      modifies this
      ensures Valid()
      ensures Contents() ==
              old(Contents())[key := Cell(value, if ex.None? then None else Some(now + 1000 * ex.value))]
    {
      ghost var was := data;
      data := data[key := value];
      match ex
      case Some(seconds) =>
        CombinedSet(was, expires, key, value, now + 1000 * seconds);
        expires := expires[key := now + 1000 * seconds];
      case None =>
        CombinedPersist(was, expires, key, value);
        expires := expires - {key};
    }

    /** delete: an expired key that was not read since still counts as removed. */
    method Delete(keys: seq<string>) returns (removed: nat)
      requires Valid()
      modifies this
      ensures Valid() && Contents() == old(Contents()) - Elements(keys)
      ensures removed == |old(Contents()).Keys * Elements(keys)|
    {
      hide Combined, Elements;
      assert keys[..0] == [] && Elements<string>([]) == {} by { NoElements(); }
      removed := 0;
      ghost var start := Contents();
      assert start - {} == start;
      for i := 0 to |keys|
        invariant Valid() && Contents() == start - Elements(keys[..i])
        invariant removed == |start.Keys * Elements(keys[..i])|
      {
        var key := keys[i];
        DeleteOne(start, data, expires, keys, i);
        assert key !in data ==> data - {key} == data;
        if key in data {
          data := data - {key};
          removed := removed + 1;
        }
        expires := expires - {key};
      }
      assert keys[..|keys|] == keys;
    }

    /** eval of the fixed-window script. */
    method EvalCount(key: string, limit: nat, ttl: nat, now: nat) returns (allowed: Option<bool>)
      requires Valid()
      modifies this
      ensures Valid() && allowed == CountCall(old(View(now)), key, limit, ttl, now).1
      ensures forall t :: now <= t ==> View(t) == Unexpired(CountCall(old(View(now)), key, limit, ttl, now).0, t)
    {
      hide Combined, Unexpired;
      ghost var was := View(now);
      UnexpiredTwice(Contents(), now);
      var value := Read(key, now);
      if value.Some? && !IsDecimal(value.value) {
        return None;
      }
      var count := if value.Some? then Int(value.value) + 1 else 1;
      ghost var before := Contents();
      CombinedWrite(data, expires, key, Str(count));
      CombinedSet(data, expires, key, Str(count), now + 1000 * ttl);
      data := data[key := Str(count)];
      if count == 1 {
        expires := expires[key := now + 1000 * ttl];
      }
      allowed := Some(count <= limit);
      OneKey(before, key, CountCall(was, key, limit, ttl, now).0[key], now);
    }

    /** eval of the publishing script. */
    method EvalPublish(versionKey: string, dataKey: string, generation: string, payload: string, ttl: nat, now: nat)
        returns (published: bool)
      requires Valid()
      modifies this
      ensures Valid()
      ensures published == PublishIfCurrent(old(View(now)), versionKey, dataKey, generation, payload, ttl, now).1
      ensures forall t :: now <= t ==>
                View(t) == Unexpired(
                  PublishIfCurrent(old(View(now)), versionKey, dataKey, generation, payload, ttl, now).0, t)
    {
      hide Combined, Unexpired;
      UnexpiredTwice(Contents(), now);
      var value := Read(versionKey, now);
      var current := if value.Some? && value.value != "" then value.value else "0";
      if current != generation {
        return false;
      }
      ghost var before := Contents();
      CombinedSet(data, expires, dataKey, payload, now + 1000 * ttl);
      data := data[dataKey := payload];
      expires := expires[dataKey := now + 1000 * ttl];
      published := true;
      OneKey(before, dataKey, Cell(payload, Some(now + 1000 * ttl)), now);
    }

    /** eval of the invalidation script. */
    method EvalInvalidate(versionKey: string, dataKey: string, now: nat) returns (done: bool)
      requires Valid()
      modifies this
      ensures Valid() && done == InvalidateKeys(old(View(now)), versionKey, dataKey).1
      ensures forall t :: now <= t ==> View(t) == Unexpired(InvalidateKeys(old(View(now)), versionKey, dataKey).0, t)
    {
      hide Combined, Unexpired;
      ghost var was := View(now);
      UnexpiredTwice(Contents(), now);
      var value := Read(versionKey, now);
      var current := if value.Some? && value.value != "" then value.value else "0";
      if !IsDecimal(current) {
        return false;
      }
      ghost var before := Contents();
      var next := Str(Int(current) + 1);
      ghost var cell := Cell(next, if versionKey in was then was[versionKey].expires else None);
      CombinedWrite(data, expires, versionKey, next);
      data := data[versionKey := next];
      CombinedDrop(data, expires, dataKey);
      data := data - {dataKey};
      expires := expires - {dataKey};
      done := true;
      OneKeyLess(before, versionKey, cell, dataKey, now);
    }
  }

  lemma CombinedKeys(data: map<string, string>, expires: map<string, nat>)
    ensures Combined(data, expires).Keys == data.Keys
  {
  }

  lemma NoElements()
    ensures Elements<string>([]) == {}
  {
  }

  lemma MoreElements(keys: seq<string>, i: nat)
    requires i < |keys|
    ensures Elements(keys[..i + 1]) == Elements(keys[..i]) + {keys[i]}
  {
    assert keys[..i + 1] == keys[..i] + [keys[i]];
  }

  lemma RemoveOne(start: Store, keys: seq<string>, i: nat)
    requires i < |keys|
    ensures start - Elements(keys[..i]) - {keys[i]} == start - Elements(keys[..i + 1])
    ensures |start.Keys * Elements(keys[..i + 1])| == |start.Keys * Elements(keys[..i])| +
            if keys[i] in (start - Elements(keys[..i])).Keys then 1 else 0
  {
    hide Elements;
    MoreElements(keys, i);
    CountOne(start.Keys, Elements(keys[..i]), keys[i]);
  }

  lemma DeleteOne(start: Store, data: map<string, string>, expires: map<string, nat>, keys: seq<string>, i: nat)
    requires i < |keys| && Combined(data, expires) == start - Elements(keys[..i])
    ensures Combined(data - {keys[i]}, expires - {keys[i]}) == start - Elements(keys[..i + 1])
    ensures |start.Keys * Elements(keys[..i + 1])| ==
            |start.Keys * Elements(keys[..i])| + if keys[i] in data then 1 else 0
  {
    hide Elements, Combined;
    CombinedKeys(data, expires);
    CombinedDrop(data, expires, keys[i]);
    RemoveOne(start, keys, i);
  }

  lemma CountOne(all: set<string>, seen: set<string>, key: string)
    ensures |all * (seen + {key})| == |all * seen| + if key in all - seen then 1 else 0
  {
    if key in all - seen {
      assert all * (seen + {key}) == all * seen + {key};
    } else {
      assert all * (seen + {key}) == all * seen;
    }
  }

  lemma UnexpiredTwice(s: Store, now: nat)
    ensures forall t {:trigger Unexpired(Unexpired(s, now), t)} :: now <= t ==>
        Unexpired(Unexpired(s, now), t) == Unexpired(s, t)
  {
  }

  /** Writing one cell commutes with hiding what has expired. */
  lemma OneKey(s: Store, key: string, cell: Cell, now: nat)
    ensures forall t {:trigger Unexpired(s[key := cell], t)} :: now <= t ==>
        Unexpired(s[key := cell], t) == Unexpired(Unexpired(s, now)[key := cell], t)
  {
  }

  lemma OneKeyLess(s: Store, key: string, cell: Cell, gone: string, now: nat)
    ensures forall t {:trigger Unexpired(s[key := cell] - {gone}, t)} :: now <= t ==>
        Unexpired(s[key := cell] - {gone}, t) == Unexpired(Unexpired(s, now)[key := cell] - {gone}, t)
  {
  }
}
