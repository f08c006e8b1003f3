/** Where the plain reading of the ingestion protocol does not hold, with the exact conditions. */
module IngestionLimits {
  import opened Options
  import opened Ingestion
  import opened IngestionCalls
  import opened IngestionSteps
  import opened IngestionRuns
  import A = Artifacts
  import E = EvidenceStore

  /** The artifact or the document step of the retry raises. */
  predicate RetryFails(s: Store, u: nat, env: UnitEnv)
    requires u < |s.units|
  {
    var (c, unit) := (ReplayContext(s.units[u]), StoredUnit(s.units[u]));
    var (s1, got) := EnsureArtifact(Touch(s, u), u, c.scope, unit, env);
    got.None? || Treat(s1, c, unit, got.value, env).1.Fail?
  }

  /** "All units terminal" is a fact about the moment a page is finished: reconciliation takes a terminal
      unit back exactly when it was quarantined for a missing parent and its retry fails, and it does so
      without touching a page that is already closed. */
  lemma TerminalUnitLost(s: Store, u: nat, env: UnitEnv)
    requires u < |s.units| && IsTerminal(s.units[u].state)
    ensures var t := ReconcileUnit(s, u, env);
            && (!IsTerminal(t.units[u].state) <==>
                  s.units[u].state == UnitState.Quarantine && s.units[u].safeReason == "parent_missing" && RetryFails(s, u, env))
            && (s.units[u].page < |s.pages| && Closed(s.pages[s.units[u].page]) ==>
                  t.pages == s.pages && t.checkpoints == s.checkpoints)
  {
    RetryResult(s, u, env);
  }

  lemma RetryResult(s: Store, u: nat, env: UnitEnv)
    requires u < |s.units|
    ensures var r := Retried(s, u, env);
            r.0.units[u].state == r.1 && (!Settled(s.units[u], StoredUnit(s.units[u]))
                ==> (r.1 == UnitState.Failed <==> RetryFails(s, u, env)))
    ensures !Settled(s.units[u], StoredUnit(s.units[u])) ==> (IsTerminal(Retried(s, u, env).1) <==> !RetryFails(s, u, env))
  {
    hide EnsureArtifact;
    var c, unit := ReplayContext(s.units[u]), StoredUnit(s.units[u]);
    var (s1, got) := EnsureArtifact(Touch(s, u), u, c.scope, unit, env);
    if got.Some? {
      TreatmentTerminal(s1, c, unit, got.value, env);
    }
  }

  lemma TreatmentTerminal(s: Store, c: Context, unit: FiscalUnit, a: nat, env: UnitEnv)
    ensures var v := Treat(s, c, unit, a, env).1; v.Finish? ==> IsTerminal(v.treatment)
  {
    hide E.Persist;
  }

  /** No step changes the content hash a unit was registered with, or removes a unit. */
  lemma StepKeepsHash(rt: Runtime, step: Step)
    ensures |rt.store.units| <= |Next(rt, step).store.units|
    ensures forall i | 0 <= i < |rt.store.units| :: SameUnit(rt.store.units[i], Next(rt, step).store.units[i])
  {
    match step
    case DoRegisterUnit(p, scope, unit) =>
    case _ =>
  }

  predicate SameUnit(a: Unit, b: Unit) {
    b.contentHash == a.contentHash && b.identity == a.identity && b.page == a.page
  }

  /** A response that resumes a page with a changed content hash does not update the stored hash, now or
      ever: every later replay of the unit asks for the content it was first registered with. */
  lemma {:induction false} HashNeverUpdated(rt: Runtime, steps: seq<Step>, i: nat)
    requires i < |rt.store.units|
    ensures i < |RunTo(rt, steps).store.units| && SameUnit(rt.store.units[i], RunTo(rt, steps).store.units[i])
    ensures StoredUnit(RunTo(rt, steps).store.units[i]).contentHash == rt.store.units[i].contentHash
  {
    if steps != [] {
      HashNeverUpdated(rt, steps[..|steps| - 1], i);
      StepKeepsHash(RunTo(rt, steps[..|steps| - 1]), steps[|steps| - 1]);
    }
  }

  /** So a treatment that ends terminal leaves a row whose stored hash describes the stored original
      exactly when the treated content was the one the row was registered with. */
  lemma StoredHashDescribes(s: Store, u: nat, c: Context, unit: FiscalUnit, env: UnitEnv)
    requires u < |s.units| && !Settled(s.units[u], unit)
    ensures var t := ProcessUnit(s, u, c, unit, env).0;
            var row := t.units[u];
            IsTerminal(row.state) ==>
              && row.artifact.Some? && row.artifact.value < |t.artifacts|
              && (t.artifacts[row.artifact.value].digest == row.contentHash <==> unit.contentHash == s.units[u].contentHash)
  {
    hide Treat, Obtain, LogicalKey;
  }

  // ---------- a position that comes back is final ----------

  lemma {:induction false} MovesGrow(rt: Runtime, a: seq<Step>, b: seq<Step>, scope: Scope)
    ensures MovesOf(rt, a, scope) <= MovesOf(rt, a + b, scope)
  {
    if b == [] {
      assert a + b == a;
    } else {
      var init := b[..|b| - 1];
      MovesGrow(rt, a, init, scope);
      assert (a + b)[..|a + b| - 1] == a + init;
      assert MovesOf(rt, a + init, scope) <= MovesOf(rt, a + b, scope);
    }
  }

  lemma {:induction false} AllowedPrefix(rt: Runtime, a: seq<Step>, b: seq<Step>)
    requires AllAllowed(rt, a + b)
    ensures AllAllowed(rt, a)
  {
    if b == [] {
      assert a + b == a;
    } else {
      assert (a + b)[..|a + b| - 1] == a + b[..|b| - 1];
      AllowedPrefix(rt, a, b[..|b| - 1]);
    }
  }

  /** Without overlap, a scope whose position is one it has already left never moves again. In
      particular an ADN page that resets the position to "" ends its scope: the next request is the
      initial one, whose page is closed. */
  lemma RevisitIsFinal(steps: seq<Step>, more: seq<Step>, scope: Scope, i: nat)
    ensures AllAllowed(Start(), steps + more) && Revisits(steps, scope, i) ==>
              && Position(RunTo(Start(), steps + more).store, scope) == Position(RunTo(Start(), steps).store, scope)
              && MovesOf(Start(), steps + more, scope) == MovesOf(Start(), steps, scope)
  {
    if AllAllowed(Start(), steps + more) && Revisits(steps, scope, i) {
      AllowedPrefix(Start(), steps, more);
      NoCycling(steps, scope);
      NoCycling(steps + more, scope);
      MovesGrow(Start(), steps, more, scope);
      NoMoreMoves(MovesOf(Start(), steps, scope), MovesOf(Start(), steps + more, scope),
                  Position(RunTo(Start(), steps).store, scope), Position(RunTo(Start(), steps + more).store, scope), i);
    }
  }

  /** The position is one that move `i` of the run has left. */
  predicate Revisits(steps: seq<Step>, scope: Scope, i: nat) {
    var m := MovesOf(Start(), steps, scope);
    i < |m| && Position(RunTo(Start(), steps).store, scope) == m[i].from
  }

  lemma NoMoreMoves(m: seq<Move>, n: seq<Move>, before: string, after: string, i: nat)
    requires m <= n && Linked(m, before) && Linked(n, after) && NoRepeats(n) && i < |m| && before == m[i].from
    ensures n == m && after == before
  {
    assert n[i] == m[i] && n[|m| - 1] == m[|m| - 1];
    if |n| > |m| {
      NextFrom(n, after, |m| - 1);
    }
  }

  lemma NextFrom(m: seq<Move>, position: string, i: nat)
    requires Linked(m, position) && i + 1 < |m|
    ensures m[i].to == m[i + 1].from
  {
  }

  /** A move resets the position to "" exactly for a family that continues by NSU, on an empty next NSU. */
  lemma ResetExactly(s: Store, p: nat, target: PageState, reason: string, outcome: Outcome, recovery: Recovery)
    requires Moves(s, p, target)
    ensures Position(FinishPage(s, p, target, reason, outcome, recovery), s.pages[p].scope) == "" <==>
              s.pages[p].scope.family != Nfe && s.pages[p].nextNsu == ""
  {
    FinishPageMoves(s, p, target, reason, outcome, recovery);
  }
}
