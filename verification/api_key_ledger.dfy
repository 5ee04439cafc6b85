/** The keys in force, kept in a ledger that knows neither rows nor hashes: who owns which row, which raw key stands
    for an application, and until when. What validates is exactly what the ledger says
    (apps/authentication/models.py). */
module ApiKeyLedger {
  import opened PyStrings
  import opened ApiKeys

  /** A raw key and the last instant at which it is good. */
  datatype Standing = Standing(raw: string, until: nat)

  datatype Ledger = Ledger(clock: nat, active: set<nat>, owners: map<nat, nat>, keys: map<nat, Standing>,
                           creating: map<nat, nat>)

  function Empty(): Ledger { Ledger(0, {}, map[], map[], map[]) }

  /** One entry per event: a key stands from the instant it is drawn for its lifetime, until it is replaced, revoked
      or its application is deleted. A creation that comes second for its application changes nothing. */
  function Entered(b: Ledger, step: Step): Ledger {
    match step
    case Tick(ms) => b.(clock := b.clock + ms)
    case Activate(app, on) => b.(active := if on then b.active + {app} else b.active - {app})
    case BeginCreate(session, app) => b.(creating := b.creating[session := app])
    case FinishCreate(session, id, _, raw, lifetime) =>
      if session !in b.creating then b
      else if b.creating[session] in b.owners.Values then b.(creating := b.creating - {session})
      else b.(creating := b.creating - {session}, owners := b.owners[id := b.creating[session]],
              keys := b.keys[b.creating[session] := Standing(raw, b.clock + lifetime)])
    case Rotate(app, _, raw, lifetime) => b.(keys := b.keys[app := Standing(raw, b.clock + lifetime)])
    case Revoke(id) => if id in b.owners then b.(keys := b.keys - {b.owners[id]}) else b
    case DeleteApplication(app) =>
      b.(owners := map id <- b.owners | b.owners[id] != app :: b.owners[id], keys := b.keys - {app},
         active := b.active - {app})
  }

  function Book(b: Ledger, steps: seq<Step>): Ledger
    decreases |steps|
  {
    if steps == [] then b else Book(Entered(b, steps[0]), steps[1..])
  }

  /** The tables agree with the ledger. */
  ghost predicate Agrees(s: State, b: Ledger) {
    && s.clock == b.clock && s.active == b.active && s.creating == b.creating
    && s.rows.Keys == b.owners.Keys && (forall id <- s.rows :: s.rows[id].app == b.owners[id])
    && s.current.Keys == b.keys.Keys && (forall app <- s.current :: s.current[app] == b.keys[app].raw)
    && (forall id <- s.rows :: s.rows[id].app in s.current ==>
          s.rows[id].expiresAt == Some(b.keys[s.rows[id].app].until))
  }

  lemma OwnersAgree(s: State, b: Ledger, app: nat)
    requires Agrees(s, b)
    ensures HasRow(s, app) <==> app in b.owners.Values
  {
    if HasRow(s, app) {
      var id :| id in s.rows && Holds(s, id, app);
      assert b.owners[id] == app;
    }
    if app in b.owners.Values {
      var id :| id in b.owners && b.owners[id] == app;
      assert Holds(s, id, app);
    }
  }

  lemma CreateAgrees(s: State, b: Ledger, step: Step, hash: string -> string)
    requires Inv(s, hash) && Agrees(s, b) && Enabled(s, step) && step.FinishCreate?
    ensures Agrees(Next(s, step, hash), Entered(b, step))
  {
    hide HasRow, Inv;
    OwnersAgree(s, b, s.creating[step.session]);
    if !HasRow(s, s.creating[step.session]) {
      forall id | id in s.rows ensures s.rows[id].app != s.creating[step.session] {
        assert b.owners[id] in b.owners.Values;
      }
    }
  }

  lemma RotateAgrees(s: State, b: Ledger, step: Step, hash: string -> string)
    requires Inv(s, hash) && Agrees(s, b) && Enabled(s, step) && step.Rotate?
    ensures Agrees(Next(s, step, hash), Entered(b, step))
  {
    hide HasRow, RowOf, Inv;
    OneRow(s, RowOf(s, step.app), hash);
    assert Holds(s, RowOf(s, step.app), step.app);
  }

  lemma StartAgrees(hash: string -> string)
    ensures Inv(Init(), hash) && Agrees(Init(), Empty())
  {
  }

  lemma StepAgrees(s: State, b: Ledger, step: Step, hash: string -> string)
    requires Inv(s, hash) && Agrees(s, b) && Enabled(s, step)
    ensures Agrees(Next(s, step, hash), Entered(b, step))
  {
    hide HasRow, Inv;
    match step
    case FinishCreate(_, _, _, _, _) => CreateAgrees(s, b, step, hash);
    case Rotate(_, _, _, _) => RotateAgrees(s, b, step, hash);
    case _ =>
  }

  lemma {:induction false} RunAgrees(s: State, b: Ledger, steps: seq<Step>, t: State, hash: string -> string)
    requires Inv(s, hash) && Injective(hash) && Agrees(s, b) && Runs(s, steps, t, hash)
    ensures Agrees(t, Book(b, steps)) && Inv(t, hash)
    decreases |steps|
  {
    hide Inv, Injective, Agrees, Enabled, Next, Entered;
    if steps != [] {
      StepAgrees(s, b, steps[0], hash);
      StepKeepsInv(s, steps[0], hash);
      RunAgrees(Next(s, steps[0], hash), Entered(b, steps[0]), steps[1..], t, hash);
    }
  }

  /** A raw key validates as a row exactly when it stands for the active application the row belongs to and its
      time is not over. */
  lemma ValidatesByLedger(steps: seq<Step>, t: State, raw: string, id: nat, hash: string -> string)
    requires Runs(Init(), steps, t, hash) && Injective(hash)
    ensures var b := Book(Empty(), steps);
            Validate(t, raw, hash) == Some(id) <==>
            && id in b.owners && b.owners[id] in b.active && b.owners[id] in b.keys
            && b.keys[b.owners[id]].raw == raw && b.clock <= b.keys[b.owners[id]].until
  {
    hide Runs, Inv, Injective, Validate;
    StartAgrees(hash);
    RunAgrees(Init(), Empty(), steps, t, hash);
    InForceValidates(t, raw, id, hash);
  }

  // ---- no key outlives its lifetime ----

  /** Whenever the key stands for somebody, it is until this instant. */
  ghost predicate Until(b: Ledger, raw: string, until: nat) {
    forall app <- b.keys :: b.keys[app].raw == raw ==> b.keys[app].until == until
  }

  lemma {:induction false} UntilKept(s: State, b: Ledger, steps: seq<Step>, t: State, raw: string, until: nat,
                                     hash: string -> string)
    requires Runs(s, steps, t, hash) && raw in s.drawn && Until(b, raw, until)
    ensures Until(Book(b, steps), raw, until)
    decreases |steps|
  {
    hide HasRow, RowOf;
    if steps != [] {
      UntilKept(Next(s, steps[0], hash), Entered(b, steps[0]), steps[1..], t, raw, until, hash);
    }
  }

  /** A key drawn by a creation or rotation never validates after the instant it was drawn plus its lifetime, in
      any continuation. */
  lemma NeverAfterItsTime(before: seq<Step>, s: State, step: Step, after: seq<Step>, t: State, hash: string -> string)
    requires Runs(Init(), before, s, hash) && Injective(hash) && Enabled(s, step)
    requires step.Rotate? || step.FinishCreate?
    requires Runs(Next(s, step, hash), after, t, hash) && t.clock > s.clock + step.lifetime
    ensures Validate(t, step.raw, hash) == None
  {
    hide Runs, Inv, Injective, Validate, Enabled, Book, RowOf, HasRow;
    var b, u := Book(Empty(), before), Next(s, step, hash);
    StartAgrees(hash);
    RunAgrees(Init(), Empty(), before, s, hash);
    assert Until(Entered(b, step), step.raw, s.clock + step.lifetime) by { FreshUntil(s, b, step, hash); }
    Drawn(s, step, hash);
    UntilKept(u, Entered(b, step), after, t, step.raw, s.clock + step.lifetime, hash);
    StepAgrees(s, b, step, hash);
    StepKeepsInv(s, step, hash);
    RunAgrees(u, Entered(b, step), after, t, hash);
    var r := Validate(t, step.raw, hash);
    if r.Some? { InForceValidates(t, step.raw, r.value, hash); }
  }

  lemma Drawn(s: State, step: Step, hash: string -> string)
    requires Enabled(s, step) && (step.Rotate? || step.FinishCreate?)
    ensures step.raw in Next(s, step, hash).drawn
  {
    hide HasRow, RowOf;
  }

  lemma FreshUntil(s: State, b: Ledger, step: Step, hash: string -> string)
    requires Inv(s, hash) && Agrees(s, b) && Enabled(s, step) && (step.Rotate? || step.FinishCreate?)
    ensures Until(Entered(b, step), step.raw, s.clock + step.lifetime)
  {
    hide HasRow, RowOk;
    assert forall app <- b.keys :: b.keys[app].raw == s.current[app] && s.current[app] in s.drawn;
  }
}
