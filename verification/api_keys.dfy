/** API keys (apps/authentication/models.py): one row per application, rotated in place, revoked, validated by
    hash; over runs in which key creations, rotations and revocations interleave. The hash is injective and
    every raw key is drawn afresh. */
module ApiKeys {
  import opened PyStrings
  import opened Tables

  datatype KeyRow = KeyRow(app: nat, name: string, hash: string, expiresAt: Option<nat>, revokedAt: Option<nat>)

  /** `drawn` holds every raw key ever drawn; `current` the raw key of each application that was created or
      rotated in last and neither revoked nor deleted since. `creating` are the transactions that found no row
      for their application and have not inserted theirs yet. */
  datatype State = State(clock: nat, active: set<nat>, rows: map<nat, KeyRow>, drawn: set<string>,
                         current: map<nat, string>, creating: map<nat, nat>)

  datatype Step =
    | Tick(ms: nat)
    | Activate(app: nat, on: bool)
    | BeginCreate(session: nat, app: nat)
    | FinishCreate(session: nat, id: nat, name: string, raw: string, lifetime: nat)
    | Rotate(app: nat, name: string, raw: string, lifetime: nat)
    | Revoke(id: nat)
    | DeleteApplication(app: nat)

  ghost predicate Injective(hash: string -> string) { forall a, b :: hash(a) == hash(b) ==> a == b }

  predicate Holds(s: State, id: nat, app: nat) { id in s.rows && s.rows[id].app == app }

  predicate HasRow(s: State, app: nat) { exists id <- s.rows :: Holds(s, id, app) }

  function RowOf(s: State, app: nat): (id: nat)
    requires HasRow(s, app)
    ensures Holds(s, id, app)
  {
    var ids := set id <- s.rows | Holds(s, id, app);
    assert ids != {} by {
      var id :| id in s.rows && Holds(s, id, app);
      assert id in ids;
    }
    Least(ids)
  }

  predicate Enabled(s: State, step: Step) {
    match step
    case BeginCreate(session, app) => session !in s.creating && !HasRow(s, app)
    case FinishCreate(session, id, _, raw, _) => session in s.creating && id !in s.rows && raw != "" && raw !in s.drawn
    case Rotate(app, _, raw, _) => HasRow(s, app) && raw != "" && raw !in s.drawn
    case Revoke(id) => id in s.rows
    case _ => true
  }

  function Next(s: State, step: Step, hash: string -> string): State
    requires Enabled(s, step)
  {
    match step
    case Tick(ms) => s.(clock := s.clock + ms)
    case Activate(app, on) => s.(active := if on then s.active + {app} else s.active - {app})
    case BeginCreate(session, app) => s.(creating := s.creating[session := app])
    case FinishCreate(session, id, name, raw, lifetime) =>
      var app := s.creating[session];
      var t := s.(creating := s.creating - {session}, drawn := s.drawn + {raw});
      if HasRow(s, app) then t   // IntegrityError
      else t.(rows := s.rows[id := KeyRow(app, name, hash(raw), Some(s.clock + lifetime), None)],
              current := s.current[app := raw])
    case Rotate(app, name, raw, lifetime) =>
      var id := RowOf(s, app);
      s.(drawn := s.drawn + {raw}, current := s.current[app := raw],
         rows := s.rows[id := KeyRow(app, name, hash(raw), Some(s.clock + lifetime), None)])
    case Revoke(id) =>
      s.(rows := s.rows[id := s.rows[id].(revokedAt := Some(s.clock))], current := s.current - {s.rows[id].app})
    case DeleteApplication(app) =>
      s.(rows := map id <- s.rows | !Holds(s, id, app) :: s.rows[id],
         current := s.current - {app}, active := s.active - {app})
  }

  /** The rows a lookup by hash finds. */
  function Matching(s: State, hash: string): set<nat> { set id <- s.rows | s.rows[id].hash == hash }

  predicate Unexpired(s: State, id: nat)
    requires id in s.rows
  {
    s.rows[id].expiresAt.None? || s.clock <= s.rows[id].expiresAt.value
  }

  /** validate_key: None, or the row of the key. */
  function Validate(s: State, raw: string, hash: string -> string): (r: Option<nat>)
    ensures r.Some? ==> r.value in s.rows
  {
    var ids := Matching(s, hash(raw));
    if raw == "" || ids == {} then None
    else
      var id := Least(ids);
      var row := s.rows[id];
      if row.revokedAt.Some? || row.app !in s.active || (row.expiresAt.Some? && row.expiresAt.value < s.clock) then None
      else Some(id)
  }

  function Init(): State { State(0, {}, map[], {}, map[], map[]) }

  ghost predicate Runs(s: State, steps: seq<Step>, t: State, hash: string -> string)
    decreases |steps|
  {
    if steps == [] then s == t else Enabled(s, steps[0]) && Runs(Next(s, steps[0], hash), steps[1..], t, hash)
  }

  // ---- the invariant ----

  /** The row carries the hash of a drawn key. */
  predicate FromDrawn(s: State, row: KeyRow, hash: string -> string) { exists raw <- s.drawn :: hash(raw) == row.hash }

  /** The row agrees with the history: unrevoked exactly when its application has a current key, and then
      with the hash of that key. */
  predicate RowOk(s: State, row: KeyRow, hash: string -> string) {
    && FromDrawn(s, row, hash) && (row.revokedAt.None? <==> row.app in s.current)
    && (row.app in s.current ==> row.hash == hash(s.current[row.app]))
  }

  ghost predicate Inv(s: State, hash: string -> string) {
    && (forall id <- s.rows :: RowOk(s, s.rows[id], hash))
    && (forall i <- s.rows, j <- s.rows ::
          s.rows[i].app == s.rows[j].app || s.rows[i].hash == s.rows[j].hash ==> i == j)
    && (forall app <- s.current :: HasRow(s, app) && s.current[app] in s.drawn)
    && "" !in s.drawn
  }

  /** A raw key drawn afresh has a hash no row carries. */
  lemma FreshHash(s: State, raw: string, hash: string -> string, id: nat)
    requires Inv(s, hash) && Injective(hash) && raw !in s.drawn && id in s.rows
    ensures s.rows[id].hash != hash(raw)
  {
    assert FromDrawn(s, s.rows[id], hash);
  }

  /** Writing one row, with everything that can depend on it. */
  ghost predicate Written(s: State, id: nat, row: KeyRow, raw: string, t: State, hash: string -> string) {
    && raw != "" && raw !in s.drawn && row.hash == hash(raw) && row.revokedAt.None?
    && (forall i <- s.rows :: s.rows[i].app == row.app <==> i == id && id in s.rows)
    && t.rows == s.rows[id := row] && t.current == s.current[row.app := raw] && t.drawn == s.drawn + {raw}
  }

  lemma WrittenUnique(s: State, id: nat, row: KeyRow, raw: string, t: State, hash: string -> string)
    requires Inv(s, hash) && Injective(hash) && Written(s, id, row, raw, t, hash)
    ensures forall i <- t.rows, j <- t.rows ::
              t.rows[i].app == t.rows[j].app || t.rows[i].hash == t.rows[j].hash ==> i == j
  {
    hide RowOk;
    forall i | i in s.rows ensures s.rows[i].hash != hash(raw) { FreshHash(s, raw, hash, i); }
  }

  lemma WrittenOk(s: State, id: nat, row: KeyRow, raw: string, t: State, hash: string -> string)
    requires Inv(s, hash) && Written(s, id, row, raw, t, hash)
    ensures forall i <- t.rows :: RowOk(t, t.rows[i], hash)
  {
    forall i | i in t.rows ensures RowOk(t, t.rows[i], hash) {
      if i != id {
        assert RowOk(s, s.rows[i], hash);
        assert t.rows[i].app != row.app;
      } else {
        assert raw in t.drawn;
      }
    }
  }

  lemma RowWritten(s: State, id: nat, row: KeyRow, raw: string, t: State, hash: string -> string)
    requires Inv(s, hash) && Injective(hash) && Written(s, id, row, raw, t, hash)
    ensures Inv(t, hash)
  {
    hide RowOk, Injective;
    WrittenUnique(s, id, row, raw, t, hash);
    WrittenOk(s, id, row, raw, t, hash);
    forall a | a in t.current ensures HasRow(t, a) {
      if a == row.app {
        assert Holds(t, id, a);
      } else {
        var i :| i in s.rows && Holds(s, i, a);
        assert Holds(t, i, a);
      }
    }
  }

  /** Rows that only lose their key. */
  lemma RowsFewer(s: State, t: State, app: nat, hash: string -> string)
    requires Inv(s, hash) && t.drawn == s.drawn && t.current == s.current - {app}
    requires forall i <- t.rows :: i in s.rows && t.rows[i].app == s.rows[i].app && t.rows[i].hash == s.rows[i].hash
    requires forall i <- s.rows :: s.rows[i].app != app ==> i in t.rows && t.rows[i] == s.rows[i]
    requires forall i <- t.rows :: t.rows[i].app == app ==> t.rows[i].revokedAt.Some?
    ensures Inv(t, hash)
  {
    forall i | i in t.rows ensures RowOk(t, t.rows[i], hash) {
      assert RowOk(s, s.rows[i], hash);
    }
    forall a | a in t.current ensures HasRow(t, a) {
      var i :| i in s.rows && Holds(s, i, a);
      assert Holds(t, i, a);
    }
  }

  lemma SameRows(s: State, t: State, hash: string -> string)
    requires Inv(s, hash) && t.rows == s.rows && t.current == s.current && s.drawn <= t.drawn && "" !in t.drawn
    ensures Inv(t, hash)
  {
    forall i | i in t.rows ensures RowOk(t, t.rows[i], hash) { assert RowOk(s, s.rows[i], hash); }
    forall a | a in t.current ensures HasRow(t, a) {
      var i :| i in s.rows && Holds(s, i, a);
      assert Holds(t, i, a);
    }
  }

  lemma StepKeepsInv(s: State, step: Step, hash: string -> string)
    requires Inv(s, hash) && Injective(hash) && Enabled(s, step)
    ensures Inv(Next(s, step, hash), hash)
  {
    hide Inv, RowOk;
    var t := Next(s, step, hash);
    match step
    case FinishCreate(session, id, name, raw, lifetime) =>
      if HasRow(s, s.creating[session]) {
        NoEmptyKey(s, hash);
        SameRows(s, t, hash);
      } else {
        assert forall i <- s.rows :: Holds(s, i, s.rows[i].app);
        RowWritten(s, id, t.rows[id], raw, t, hash);
      }
    case Rotate(app, name, raw, lifetime) =>
      OneRow(s, RowOf(s, app), hash);
      RowWritten(s, RowOf(s, app), t.rows[RowOf(s, app)], raw, t, hash);
    case Revoke(id) =>
      OneRow(s, id, hash);
      RowsFewer(s, t, s.rows[id].app, hash);
    case DeleteApplication(app) => RowsFewer(s, t, app, hash);
    case _ =>
      NoEmptyKey(s, hash);
      SameRows(s, t, hash);
  }

  lemma NoEmptyKey(s: State, hash: string -> string)
    requires Inv(s, hash)
    ensures "" !in s.drawn
  {
  }

  /** Each application has at most one row. */
  lemma OneRow(s: State, id: nat, hash: string -> string)
    requires Inv(s, hash) && id in s.rows
    ensures forall i <- s.rows :: s.rows[i].app == s.rows[id].app ==> i == id
  {
  }

  lemma {:induction false} RunKeepsInv(s: State, steps: seq<Step>, t: State, hash: string -> string)
    requires Inv(s, hash) && Injective(hash) && Runs(s, steps, t, hash)
    ensures Inv(t, hash) && s.drawn <= t.drawn
    decreases |steps|
  {
    hide Inv, Injective, Enabled;
    if steps != [] {
      StepKeepsInv(s, steps[0], hash);
      RunKeepsInv(Next(s, steps[0], hash), steps[1..], t, hash);
    }
  }

  ghost predicate Reachable(s: State, hash: string -> string) { exists steps :: Runs(Init(), steps, s, hash) }

  lemma ReachableInv(s: State, hash: string -> string)
    requires Reachable(s, hash) && Injective(hash)
    ensures Inv(s, hash)
  {
    hide Runs, Injective;
    var steps :| Runs(Init(), steps, s, hash);
    RunKeepsInv(Init(), steps, s, hash);
  }

  // ---- which keys validate ----

  lemma SoleMatch(s: State, id: nat, hash: string -> string)
    requires Inv(s, hash) && id in s.rows
    ensures Matching(s, s.rows[id].hash) == {id}
  {
    hide RowOk;
  }

  lemma RowFound(s: State, id: nat, raw: string, hash: string -> string)
    requires Inv(s, hash) && id in s.rows && s.rows[id].hash == hash(raw) && raw != ""
    ensures Validate(s, raw, hash) ==
            if s.rows[id].revokedAt.Some? || s.rows[id].app !in s.active || !Unexpired(s, id) then None else Some(id)
  {
    hide Inv, Matching;
    SoleMatch(s, id, hash);
  }

  /** The row holds its active application's current key, which has not expired. */
  predicate InForce(s: State, id: nat, raw: string) {
    && id in s.rows && s.rows[id].app in s.current && s.current[s.rows[id].app] == raw
    && s.rows[id].app in s.active && Unexpired(s, id)
  }

  lemma InForceValidates(s: State, raw: string, id: nat, hash: string -> string)
    requires Inv(s, hash) && Injective(hash)
    ensures Validate(s, raw, hash) == Some(id) <==> InForce(s, id, raw)
  {
    if Validate(s, raw, hash) == Some(id) {
      ValidatesRow(s, raw, id, hash);
    } else if InForce(s, id, raw) {
      assert RowOk(s, s.rows[id], hash);
      RowFound(s, id, raw, hash);
    }
  }

  lemma ValidatesRow(s: State, raw: string, id: nat, hash: string -> string)
    requires Inv(s, hash) && Injective(hash) && Validate(s, raw, hash) == Some(id)
    ensures InForce(s, id, raw)
  {
    assert id in Matching(s, hash(raw));
    assert RowOk(s, s.rows[id], hash);
  }

  /** A raw key validates as a row exactly when it is the current key of the row's application, which is
      active, and has not expired. */
  lemma ValidatesExactly(s: State, raw: string, id: nat, hash: string -> string)
    requires Reachable(s, hash) && Injective(hash)
    ensures Validate(s, raw, hash) == Some(id) <==>
            && id in s.rows && s.rows[id].app in s.current && s.current[s.rows[id].app] == raw
            && s.rows[id].app in s.active && (s.rows[id].expiresAt.None? || s.clock <= s.rows[id].expiresAt.value)
  {
    hide Runs, Inv, Injective, Validate;
    ReachableInv(s, hash);
    InForceValidates(s, raw, id, hash);
  }

  /** Each application has at most one row and at most one raw key that validates for it. */
  lemma OneKeyPerApplication(s: State, a: string, b: string, hash: string -> string)
    requires Reachable(s, hash) && Injective(hash)
    ensures forall i <- s.rows, j <- s.rows :: s.rows[i].app == s.rows[j].app ==> i == j
    ensures && Validate(s, a, hash).Some? && Validate(s, b, hash).Some?
            && s.rows[Validate(s, a, hash).value].app == s.rows[Validate(s, b, hash).value].app
            ==> a == b
  {
    hide Validate, Reachable;
    ReachableInv(s, hash);
    var x, y := Validate(s, a, hash), Validate(s, b, hash);
    if x.Some? && y.Some? {
      ValidatesExactly(s, a, x.value, hash);
      ValidatesExactly(s, b, y.value, hash);
    }
  }

  /** The key was drawn, and no application has it as its current one. */
  predicate Retired(s: State, raw: string) { raw in s.drawn && forall app <- s.current :: s.current[app] != raw }

  /** Rotation, revocation and deletion retire the key that was current. */
  lemma Retires(s: State, step: Step, app: nat, hash: string -> string)
    requires Reachable(s, hash) && Injective(hash) && Enabled(s, step) && app in s.current
    requires || (step.Rotate? && step.app == app) || (step.DeleteApplication? && step.app == app)
             || (step.Revoke? && s.rows[step.id].app == app)
    ensures Retired(Next(s, step, hash), s.current[app])
  {
    hide Reachable;
    ReachableInv(s, hash);
    forall other | other in s.current && s.current[other] == s.current[app] ensures other == app {
      var i :| i in s.rows && Holds(s, i, app);
      var j :| j in s.rows && Holds(s, j, other);
      assert RowOk(s, s.rows[i], hash) && RowOk(s, s.rows[j], hash);
    }
  }

  lemma RetiredStays(s: State, step: Step, raw: string, hash: string -> string)
    requires Enabled(s, step) && Retired(s, raw)
    ensures Retired(Next(s, step, hash), raw)
  {
  }

  /** A raw key that was rotated out or revoked never validates again, although rotation clears the
      revocation of its row. */
  lemma {:induction false} RetiredForever(s: State, steps: seq<Step>, t: State, raw: string, hash: string -> string)
    requires Reachable(s, hash) && Injective(hash) && Retired(s, raw) && Runs(s, steps, t, hash)
    ensures Retired(t, raw) && Validate(t, raw, hash).None?
    decreases |steps|
  {
    hide Inv, Next, Enabled, Retired, Validate, Reachable, Injective;
    ReachableInv(s, hash);
    if steps == [] {
      RetiredRefused(s, raw, hash);
    } else {
      RetiredStays(s, steps[0], raw, hash);
      ReachableNext(s, steps[0], hash);
      RetiredForever(Next(s, steps[0], hash), steps[1..], t, raw, hash);
    }
  }

  lemma RetiredRefused(s: State, raw: string, hash: string -> string)
    requires Reachable(s, hash) && Injective(hash) && Retired(s, raw)
    ensures Validate(s, raw, hash).None?
  {
    hide Reachable, Validate;
    var r := Validate(s, raw, hash);
    if r.Some? { ValidatesExactly(s, raw, r.value, hash); }
  }

  lemma {:induction false} RunAppend(s: State, steps: seq<Step>, m: State, step: Step, hash: string -> string)
    requires Runs(s, steps, m, hash) && Enabled(m, step)
    ensures Runs(s, steps + [step], Next(m, step, hash), hash)
    decreases |steps|
  {
    hide Enabled, Next;
    if steps == [] {
      assert Runs(Next(m, step, hash), [], Next(m, step, hash), hash);
      assert ([step])[1..] == [];
    } else {
      RunAppend(Next(s, steps[0], hash), steps[1..], m, step, hash);
      assert (steps + [step])[1..] == steps[1..] + [step];
    }
  }

  lemma ReachableNext(s: State, step: Step, hash: string -> string)
    requires Reachable(s, hash) && Enabled(s, step)
    ensures Reachable(Next(s, step, hash), hash)
  {
    hide Runs, Enabled, Next;
    var steps :| Runs(Init(), steps, s, hash);
    RunAppend(Init(), steps, s, step, hash);
  }

  /** create_for_application, revoke and validate_key on the stored rows. */
  class APIKeyTable {
    var state: State
    const hash: string -> string

    ghost predicate Valid()
      reads this
    {
      Inv(state, hash) && Injective(hash)
    }

    constructor (hash: string -> string)
      requires Injective(hash)
      ensures Valid() && state == Init() && this.hash == hash
    {
      state := Init();
      this.hash := hash;
    }

    /** create_for_application, run without another transaction between its read and its write. */
    method CreateForApplication(session: nat, id: nat, app: nat, name: string, raw: string, lifetime: nat)
        returns (row: nat)
      requires Valid() && session !in state.creating && id !in state.rows
      requires raw != "" && raw !in state.drawn
      modifies this
      ensures Valid()
      ensures HasRow(old(state), app) ==>
          row == RowOf(old(state), app) && state == Next(old(state), Rotate(app, name, raw, lifetime), hash)
      ensures !HasRow(old(state), app) ==>
                && row == id
                && Enabled(old(state), BeginCreate(session, app))
                && var mid := Next(old(state), BeginCreate(session, app), hash);
                Enabled(mid, FinishCreate(session, id, name, raw, lifetime))
                && state == Next(mid, FinishCreate(session, id, name, raw, lifetime), hash)
      ensures state.rows == old(state).rows[row := KeyRow(app, name, hash(raw), Some(state.clock + lifetime), None)]
      ensures app in state.active ==> Validate(state, raw, hash) == Some(row)
      ensures forall other <- old(state).drawn :: Validate(state, other, hash).Some? ==>
                state.rows[Validate(state, other, hash).value].app != app
    {
      hide Inv, Injective, Validate;
      ghost var was := state;
      if HasRow(state, app) {
        StepKeepsInv(state, Rotate(app, name, raw, lifetime), hash);
        row := RowOf(state, app);
        var key := state.rows[row].(
          name := name, hash := hash(raw), expiresAt := Some(state.clock + lifetime), revokedAt := None);
        state := state.(
          rows := state.rows[row := key], current := state.current[app := raw], drawn := state.drawn + {raw});
      } else {
        StepKeepsInv(state, BeginCreate(session, app), hash);
        StepKeepsInv(Next(state, BeginCreate(session, app), hash), FinishCreate(session, id, name, raw, lifetime),
          hash);
        row := id;
        var key := KeyRow(app, name, hash(raw), Some(state.clock + lifetime), None);
        assert state.creating[session := app] - {session} == state.creating;
        state := state.(
          rows := state.rows[row := key], current := state.current[app := raw], drawn := state.drawn + {raw});
      }
      NewKeyOnly(was, state, row, raw, hash);
    }

    /** revoke. */
    method Revoke(id: nat)
      requires Valid() && id in state.rows
      modifies this
      ensures Valid() && state == Next(old(state), Step.Revoke(id), hash)
      ensures forall raw :: Validate(state, raw, hash) != Some(id)
    {
      hide Inv, Injective;
      StepKeepsInv(state, Step.Revoke(id), hash);
      var key := state.rows[id].(revokedAt := Some(state.clock));
      state := state.(rows := state.rows[id := key], current := state.current - {key.app});
    }

    /** validate_key. */
    method ValidateKey(raw: string) returns (row: Option<nat>)
      requires Valid()
      ensures row == Validate(state, raw, hash)
      ensures forall id: nat :: row == Some(id) <==> InForce(state, id, raw)
    {
      hide Injective, Inv, InForce;
      forall id: nat ensures Validate(state, raw, hash) == Some(id) <==> InForce(state, id, raw) {
        InForceValidates(state, raw, id, hash);
      }
      if raw == "" { return None; }
      var matching := Matching(state, hash(raw));
      if matching == {} { return None; }
      var id := Least(matching);
      var key := state.rows[id];
      if key.revokedAt.Some? || key.app !in state.active || (key.expiresAt.Some? && key.expiresAt.value < state.clock) {
        return None;
      }
      row := Some(id);
    }
  }

  /** After a creation or rotation the application answers to the new key and to no earlier one. */
  lemma NewKeyOnly(s: State, t: State, row: nat, raw: string, hash: string -> string)
    requires Inv(s, hash) && Inv(t, hash) && Injective(hash) && raw != "" && raw !in s.drawn
    requires row in t.rows && t.rows[row].hash == hash(raw) && t.rows[row].revokedAt.None?
    requires Unexpired(t, row)
    ensures t.rows[row].app in t.active ==> Validate(t, raw, hash) == Some(row)
    ensures forall other <- s.drawn :: Validate(t, other, hash).Some? ==>
              t.rows[Validate(t, other, hash).value].app != t.rows[row].app
  {
    RowFound(t, row, raw, hash);
  }
}
