/** What `ingest` and `reconcile` tell their caller, against what they did to the tables. */
module IngestionAnswers {
  import opened Options
  import opened Ingestion
  import opened IngestionCalls
  import opened IngestionSteps
  import opened IngestionRuns
  import opened IngestionReplay
  import opened IngestionLimits

  // ---------- ingest ----------

  /** The scope's position changed, and not to "". */
  predicate MovedOn(s: Store, t: Store, scope: Scope) {
    Position(t, scope) != Position(s, scope) && Position(t, scope) != ""
  }

  /** The reply shows the page, whatever it says of the units. */
  predicate Shows(reply: Reply, page: Page, p: nat) {
    && reply.page == p && reply.state == page.state && reply.outcome == page.outcome && reply.recovery == page.recovery
    && reply.nextCursor == page.nextCursor && reply.nextNsu == page.nextNsu && reply.reason == page.safeError
  }

  /** Finishing an open page that was never finalized: the reply says `advanced` exactly when the
      position moved on, which is when the page is finalized and names a next position. */
  lemma FinishAdvances(s: Store, p: nat, cl: Classification, states: seq<UnitState>)
    requires p < |s.pages| && s.pages[p].state == PageState.Pending && !s.pages[p].finalized
    ensures var t, reply := FinishAs(s, p, cl), FinishReply(s, p, cl, states);
            && p < |t.pages| && Shows(reply, t.pages[p], p)
            && (reply.advanced <==> MovedOn(s, t, s.pages[p].scope))
            && (reply.advanced <==> t.pages[p].finalized && NextOf(t.pages[p]) != "")
  {
    hide Durable, Position, SafeReason, Advanced, CheckpointOf, StatesOf, PositionNumber;
    FinishPageMoves(s, p, cl.state, cl.reason, cl.outcome, cl.recovery);
    FinishOnlyPage(s, p, cl);
  }

  lemma RunAdvances(s: Store, p: nat, c: Context, r: Response, env: nat -> UnitEnv)
    requires p < |s.pages| && s.pages[p].state == PageState.Pending && !s.pages[p].finalized
    ensures var t, reply := RunPage(s, p, c, r, env), RunReply(s, p, c, r, env);
            && p < |t.pages| && Shows(reply, t.pages[p], p)
            && (reply.advanced <==> MovedOn(s, t, s.pages[p].scope))
            && (reply.advanced <==> t.pages[p].finalized && NextOf(t.pages[p]) != "")
  {
    hide FinishAs, FinishReply, Shows, UnitsUpTo, NextOf;
    if IsFailureOutcome(r.outcome) {
      FinishAdvances(s, p, ClassifyResponse(r), []);
    } else {
      var (s1, states) := UnitsUpTo(s, p, c, r.units, env, |r.units|);
      FinishAdvances(s1, p, FinalClassification(r, states), states);
    }
  }

  /** The call opens or reopens its page; otherwise it only looks at it. */
  predicate Runs(s: Store, c: Context, r: Response) {
    var (s1, p, created) := RegisterPage(s, c, r);
    Acceptable(c, r) && if created then s1.pages[p].state != PageState.Failed else CanResume(s1.pages[p], r)
  }

  /** `ingest` answers unless it raises. A call that runs its page says `advanced` exactly when it moved
      the position on; one that only looks says it exactly when the page was finalized before. */
  lemma IngestAdvances(s: Store, c: Context, r: Response, env: nat -> UnitEnv)
    ensures var reply, t := IngestReply(s, c, r, env), Ingest(s, c, r, env);
            var p := RegisterPage(s, c, r).1;
            && (reply.Some? <==> Acceptable(c, r))
            && (reply.Some? ==>
                  && p < |t.pages| && Shows(reply.value, t.pages[p], p)
                  && (Runs(s, c, r) ==> (reply.value.advanced <==> MovedOn(s, t, c.scope)))
                  && (Runs(s, c, r) ==> (reply.value.advanced <==> t.pages[p].finalized && NextOf(t.pages[p]) != ""))
                  && (!Runs(s, c, r) ==> !MovedOn(s, t, c.scope) && (reply.value.advanced <==> t.pages[p].finalized)))
  {
    hide RunPage, RunReply, FindPage, Acceptable, CanResume, ClassifyResponse, NextOf, StatesOf;
    if Runs(s, c, r) {
      var (s1, p, created) := RegisterPage(s, c, r);
      RunAdvances(if created then s1 else PrepareRetry(s1, p, r), p, c, r, env);
    }
  }

  /** The same call again answers about the same page, and contradicts the first answer on `advanced`
      exactly when the first closed the page on a last answer, which names no next position. */
  lemma RepeatedAnswer(s: Store, c: Context, r: Response, env: nat -> UnitEnv, again: nat -> UnitEnv)
    requires Runs(s, c, r)
    ensures var one, t := IngestReply(s, c, r, env).value, Ingest(s, c, r, env);
            var two := IngestReply(t, c, r, again).value;
            && one.page == two.page < |t.pages|
            && Shows(two, t.pages[one.page], one.page) && two.unitStates == StatesOf(t.units, one.page)
            && (two.advanced <==> t.pages[one.page].finalized)
            && (two.advanced != one.advanced <==> t.pages[one.page].finalized && NextOf(t.pages[one.page]) == "")
  {
    hide RunPage, RunReply, FindPage, Acceptable, CanResume, NextOf, StatesOf, Ingest, NewPage, PrepareRetry;
    IngestAdvances(s, c, r, env);
    var p := IngestLeavesPage(s, c, r, env);
  }

  // ---------- reconcile ----------

  function CountTerminal(units: seq<Unit>, ids: seq<nat>, k: nat): nat
    requires k <= |ids|
  {
    if k == 0 then 0
    else CountTerminal(units, ids, k - 1) + (if ids[k - 1] < |units| && IsTerminal(units[ids[k - 1]].state) then 1 else 0)
  }

  lemma {:induction false} CountSame(a: seq<Unit>, b: seq<Unit>, ids: seq<nat>, k: nat)
    requires k <= |ids| && |a| == |b| && forall i | 0 <= i < k && ids[i] < |a| :: a[ids[i]] == b[ids[i]]
    ensures CountTerminal(a, ids, k) == CountTerminal(b, ids, k)
  {
    if k > 0 {
      CountSame(a, b, ids, k - 1);
    }
  }

  /** Retrying a unit touches no other row; a retriable one ends terminal exactly when it is counted. */
  lemma RetryOne(s: Store, u: nat, env: UnitEnv)
    requires u < |s.units| && Retriable(s.units[u])
    ensures var t := ReconcileUnit(s, u, env);
            && (forall i | 0 <= i < |s.units| && i != u :: t.units[i] == s.units[i])
            && (IsTerminal(t.units[u].state) <==> Retried(s, u, env).1 != UnitState.Failed)
  {
    hide RetryFails, FinishPage, ClassifyTreatments, StatesOf, ProcessUnit;
    RetryResult(s, u, env);
    assert !Settled(s.units[u], StoredUnit(s.units[u]));
  }

  lemma {:induction false} RepairedSoFar(s: Store, ids: seq<nat>, env: nat -> UnitEnv, k: nat)
    requires k <= |ids|
    requires forall i, j | 0 <= i < j < |ids| :: ids[i] < ids[j]
    requires forall i | 0 <= i < |ids| :: ids[i] < |s.units| && Retriable(s.units[ids[i]])
    ensures var t := ReconcileUnits(s, ids, env, k);
            && Repaired(s, ids, env, k) == CountTerminal(t.units, ids, k)
            && forall i | k <= i < |ids| :: t.units[ids[i]] == s.units[ids[i]]
  {
    hide ReconcileUnit, Retried, Retriable;
    if k > 0 {
      RepairedSoFar(s, ids, env, k - 1);
      var before, t := ReconcileUnits(s, ids, env, k - 1), ReconcileUnits(s, ids, env, k);
      RetryOne(before, ids[k - 1], env(k - 1));
      CountSame(before.units, t.units, ids, k - 1);
    }
  }

  /** `reconcile` answers the number of retried units that are terminal when it returns. */
  lemma RepairedAreTerminal(s: Store, only: Option<nat>, env: nat -> UnitEnv)
    ensures var ids := CandidateUnits(s.units, only);
            Repaired(s, ids, env, |ids|) == CountTerminal(ReconcileAll(s, only, env).units, ids, |ids|)
  {
    hide ReconcileUnits, Repaired, CountTerminal, ReconcilePages, Retriable;
    var ids := CandidateUnits(s.units, only);
    CandidatesExactly(s.units, only);
    assert forall i | 0 <= i < |ids| :: ids[i] in ids;
    RepairedSoFar(s, ids, env, |ids|);
  }
}
