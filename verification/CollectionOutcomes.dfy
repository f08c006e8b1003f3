/** The answer of a request, and what a reconciliation leaves of execution and flow, case by case. */
module CollectionOutcomes {
  import opened Options
  import opened Collection
  import opened CollectionRuns
  import opened CollectionLaws
  import I = Ingestion
  import J = JobEngine

  // ---------- requests ----------

  /** The policy of the family is in force at the moment of the command. */
  predicate InForce(c: Command, f: Family) {
    && f in c.policies
    && c.policies[f].validFrom <= c.now
    && (c.policies[f].validUntil.Some? ==> c.now < c.policies[f].validUntil.value)
  }

  predicate CoolingDown(flow: Flow, now: int) {
    flow.cooldownUntil.Some? && flow.cooldownUntil.value > now
  }

  /** Nothing about the flow keeps it from being collected now. */
  predicate Ready(flow: Flow, c: Command, f: Family) {
    flow.enabled && flow.state != Some(Blocked) && !CoolingDown(flow, c.now) && InForce(c, f)
  }

  /** Why a flow is not ready: paused before blocked before cooling down before without policy. */
  predicate Because(flow: Flow, c: Command, f: Family, e: Error) {
    && !Ready(flow, c, f)
    && (e == FlowPaused <==> !flow.enabled)
    && (e == CollectionBlocked <==> flow.enabled && flow.state == Some(Blocked))
    && (e == CooldownActive <==> flow.enabled && flow.state != Some(Blocked) && CoolingDown(flow, c.now))
    && (e == PolicyUnavailable <==> flow.enabled && flow.state != Some(Blocked) && !CoolingDown(flow, c.now))
  }

  predicate Known(w: World, c: Command) {
    forall f | f in Families(c.scope) :: FlowKey(c.company, f) in w.flows
  }

  /** The refusal of the first family, in order, whose flow is not ready. */
  predicate FirstBecause(w: World, c: Command, families: seq<Family>, e: Error)
    requires forall f | f in families :: FlowKey(c.company, f) in w.flows
  {
    exists i | 0 <= i < |families| ::
      && Because(w.flows[FlowKey(c.company, families[i])], c, families[i], e)
      && forall k | 0 <= k < i :: Ready(w.flows[FlowKey(c.company, families[k])], c, families[k])
  }

  /** The executions that the flows name, in family order. */
  function Named(w: World, company: string, families: seq<Family>): seq<nat>
    requires forall f | f in families :: FlowKey(company, f) in w.flows
  {
    if families == [] then []
    else
      var active := w.flows[FlowKey(company, families[|families| - 1])].active;
      Named(w, company, families[..|families| - 1]) + (if active.Some? then [active.value] else [])
  }

  lemma RefusalReason(flow: Flow, c: Command, f: Family)
    ensures FlowRefusal(flow, c, f).None? <==> Ready(flow, c, f)
    ensures FlowRefusal(flow, c, f).Some? ==> Because(flow, c, f, FlowRefusal(flow, c, f).value)
  {
  }

  lemma {:induction false} FirstReason(w: World, c: Command, families: seq<Family>)
    requires forall f | f in families :: FlowKey(c.company, f) in w.flows
    ensures var r := FirstRefusal(w.flows, c, families);
            && (r.None? <==> forall i | 0 <= i < |families| :: Ready(w.flows[FlowKey(c.company, families[i])], c, families[i]))
            && (r.Some? ==> FirstBecause(w, c, families, r.value))
  {
    hide Ready, Because, FlowRefusal;
    if families != [] {
      var n := |families| - 1;
      FirstReason(w, c, families[..n]);
      RefusalReason(w.flows[FlowKey(c.company, families[n])], c, families[n]);
      var r := FirstRefusal(w.flows, c, families[..n]);
      if r.Some? {
        var i :| 0 <= i < n && Because(w.flows[FlowKey(c.company, families[..n][i])], c, families[..n][i], r.value)
                 && forall k | 0 <= k < i :: Ready(w.flows[FlowKey(c.company, families[..n][k])], c, families[..n][k]);
        assert families[..n][i] == families[i];
        assert forall k | 0 <= k < i :: families[..n][k] == families[k];
        assert Because(w.flows[FlowKey(c.company, families[i])], c, families[i], r.value);
      } else {
        assert forall k | 0 <= k < n :: families[..n][k] == families[k];
      }
    }
  }

  lemma {:induction false} NamedAre(w: World, company: string, families: seq<Family>)
    requires IndexOk(w.flows, w.execs) && forall f | f in families :: FlowKey(company, f) in w.flows
    ensures ActiveOf(w, company, families) == (w.flows, Named(w, company, families))
  {
    if families != [] {
      var init, last := families[..|families| - 1], families[|families| - 1];
      assert families == init + [last];
      NamedAre(w, company, init);
      NothingStale(w, company, families);
      var flow := w.flows[FlowKey(company, last)];
      assert FlowOk(FlowKey(company, last), flow, w.execs);
      assert StillActive(w.execs, flow.active) <==> flow.active.Some?;
      assert ActiveOf(w, company, families).1 == Named(w, company, families);
    }
  }

  /** The answer to a request in a good state, in the order of its checks. */
  predicate Answered(w: World, c: Command, a: Answer) {
    var families := Families(c.scope);
    if !c.allowed then a == Rejected(AccessDenied)
    else if !c.companyActive then a == Rejected(CompanyInactive)
    else if !c.certificateUsable then a == Rejected(CertificateUnavailable)
    else if !Known(w, c) then a == Rejected(FlowPaused)
    else if Named(w, c.company, families) != [] then a == Duplicate(Named(w, c.company, families))
    else if exists i | 0 <= i < |families| :: !Ready(w.flows[FlowKey(c.company, families[i])], c, families[i])
    then a.Rejected? && FirstBecause(w, c, families, a.error)
    else if c.origin == Retry then a == Rejected(RetryNotEligible)
    else a == Created(if c.scope == Complete then [|w.execs|, |w.execs| + 1] else [|w.execs|])
  }

  lemma RequestAnswers(w: World, c: Command)
    requires WorldOk(w)
    ensures Answered(w, c, Request(w, c).1)
  {
    hide Begin, FirstRefusal, ActiveOf, Named, Ready, FirstBecause;
    var families := Families(c.scope);
    if c.allowed && c.companyActive && c.certificateUsable && Known(w, c) {
      NamedAre(w, c.company, families);
      assert w.(flows := w.flows) == w;
      if Named(w, c.company, families) == [] {
        FirstReason(w, c, families);
        BeginAnswers(w, c);
      }
    }
  }

  lemma BeginAnswers(w: World, c: Command)
    requires WorldOk(w) && Known(w, c) && ActiveOf(w, c.company, Families(c.scope)) == (w.flows, [])
    requires c.allowed && c.companyActive && c.certificateUsable
    ensures var families := Families(c.scope);
            var a, r := Begin(w, w, c).1, FirstRefusal(w.flows, c, families);
            a == if r.Some? then Rejected(r.value)
                 else if c.origin == Retry then Rejected(RetryNotEligible)
                 else Created(if c.scope == Complete then [|w.execs|, |w.execs| + 1] else [|w.execs|])
  {
    hide FirstRefusal, ActiveOf, CreateAll, WorldOk, RetryOk;
    var families := Families(c.scope);
    if FirstRefusal(w.flows, c, families).None? {
      AllStartable(w, c);
      if c.origin != Retry {
        NoRetry(w, c);
        CreateAllKeeps(w, c, families);
      }
      FreshAre(|w.execs|);
    }
  }

  lemma AllStartable(w: World, c: Command)
    requires WorldOk(w) && Known(w, c)
    requires ActiveOf(w, c.company, Families(c.scope)).1 == [] && FirstRefusal(w.flows, c, Families(c.scope)).None?
    ensures forall f | f in Families(c.scope) :: Startable(w, c, f)
    ensures c.origin == Retry ==> !RetryOk(w, c)
  {
    hide RetryOk, ActiveOf, FirstRefusal;
    NothingStale(w, c.company, Families(c.scope));
    forall f | f in Families(c.scope) ensures Startable(w, c, f) {
      assert FlowRefusal(w.flows[FlowKey(c.company, f)], c, f).None?;
    }
    if c.origin == Retry && RetryOk(w, c) {
      RetriedIsActive(w, c);
    }
  }

  lemma NoRetry(w: World, c: Command)
    requires c.origin != Retry
    ensures RetryOk(w, c)
  {
  }

  lemma FreshAre(n: nat)
    ensures Fresh(n, 1) == [n] && Fresh(n, 2) == [n, n + 1]
  {
  }

  /** In every reachable state a request is answered as `Answered` says: it creates executions exactly when
      it is allowed, company and certificate are in order, each flow of its scope is known, free and ready,
      and it is no retry; otherwise the first failed check decides the error. */
  lemma RequestExactly(steps: seq<Step>, c: Command)
    ensures var w := RunTo(START, steps).world;
            && Answered(w, c, Request(w, c).1)
            && (Request(w, c).1.Created? <==>
                  && c.allowed && c.companyActive && c.certificateUsable && Known(w, c) && c.origin != Retry
                  && forall f | f in Families(c.scope) ::
                       w.flows[FlowKey(c.company, f)].active.None? && Ready(w.flows[FlowKey(c.company, f)], c, f))
            && (Request(w, c).1.Created? ==> Begun(w, c, Request(w, c).0))
            && (!Request(w, c).1.Created? ==> Request(w, c).0 == w)
  {
    hide Ready, WorldOk, Begun, Request;
    var w := RunTo(START, steps).world;
    Reachable(steps);
    MeansOk(w);
    RequestKeeps(w, c);
    RequestAnswers(w, c);
    if c.allowed && c.companyActive && c.certificateUsable && Known(w, c) {
      NamedNone(w, c.company, Families(c.scope));
    }
  }

  lemma {:induction false} NamedNone(w: World, company: string, families: seq<Family>)
    requires forall f | f in families :: FlowKey(company, f) in w.flows
    ensures Named(w, company, families) == [] <==> forall f | f in families :: w.flows[FlowKey(company, f)].active.None?
  {
    if families != [] {
      assert families == families[..|families| - 1] + [families[|families| - 1]];
      NamedNone(w, company, families[..|families| - 1]);
    }
  }

  // ---------- reconciliation ----------

  /** The attempts of the job exceed the limit of the execution's policy. */
  predicate OutOfRetries(x: Execution, attempts: nat) {
    x.policy.Some? && attempts > x.policy.value.retryLimit
  }

  /** Where an execution ends up, and with which error. */
  predicate EndsIn(x: Execution, attempts: nat, kind: J.Kind, r: Report, state: State, error: string) {
    if kind == J.Success then
      error == "" && state == if r.queryValid && r.unitCount == 0 then Empty else Concluded
    else if kind == J.Permanent then state == Blocked && error == "permanent_failure"
    else if OutOfRetries(x, attempts) then state == Blocked && error == "retry_exhausted"
    else
      && (kind == J.Kind.Cooldown ==> state == State.Cooldown && error == "official_cooldown")
      && (kind == J.Kind.Partial ==> state == State.Partial && error == "partial_result")
      && (kind == J.Temporary ==> state == Retrying && error == "temporary_failure")
  }

  /** The vocabulary of a reconciled execution: what was reported, else what the kind means. */
  predicate Speaks(kind: J.Kind, r: Report, outcome: I.Outcome, recovery: I.Recovery) {
    && (r.outcome.Some? ==> outcome == r.outcome.value)
    && (r.recovery.Some? ==> recovery == r.recovery.value)
    && (r.outcome.None? ==>
          && (outcome == I.ValidEmpty <==> kind == J.Success && r.unitCount == 0)
          && (outcome == I.Outcome.Success <==> kind == J.Success && r.unitCount != 0)
          && (outcome == I.Outcome.Partial <==> kind == J.Kind.Partial)
          && (outcome == I.Outcome.Cooldown <==> kind == J.Kind.Cooldown)
          && (outcome == I.PermanentFailure <==> kind == J.Permanent)
          && (outcome == I.TemporaryFailure <==> kind == J.Temporary))
    && (r.recovery.None? ==>
          && (recovery == I.NoAction <==> kind == J.Success)
          && (recovery == I.Recovery.Cooldown <==> kind == J.Kind.Cooldown)
          && (recovery == I.Recovery.Blocked <==> kind == J.Permanent)
          && (recovery == I.Recovery.Retry <==> kind == J.Kind.Partial || kind == J.Temporary))
  }

  predicate Finished(s: State) {
    s == Concluded || s == Empty || s == Blocked || s == Failed
  }

  /** The flow shows the execution's state and error. It lets go of a finished execution, dates a success
      and then waits for nothing, keeps the reason of a block, and cools down for an hour with the
      execution; whatever else it held stays. */
  predicate Follows(a: Flow, b: Flow, y: Execution, now: int) {
    && b.enabled == a.enabled && b.state == Some(y.state) && b.error == y.error
    && b.active == (if Finished(y.state) then None else a.active)
    && b.lastAttemptAt == (if a.lastAttemptAt.Some? then a.lastAttemptAt else Some(now))
    && (if y.state == Concluded || y.state == Empty then
          b.lastSuccessAt == Some(now) && b.nextScheduledAt == None && b.cooldownUntil == None && b.blockedReason == ""
        else
          && b.lastSuccessAt == a.lastSuccessAt
          && b.blockedReason == (if y.state == Blocked then y.error else a.blockedReason)
          && b.nextScheduledAt == (if y.state == State.Cooldown then Some(now + 3600) else a.nextScheduledAt)
          && b.cooldownUntil == (if y.state == State.Cooldown then Some(now + 3600) else a.cooldownUntil))
  }

  /** `reconcile_collection_job` on the job of execution `e`: a finished execution, and one without a flow,
      stay as they are with everything else; any other moves as the kind says, its flow with it, and
      nothing else changes. */
  lemma ReconcileExactly(w: World, e: nat, attempts: nat, kind: J.Kind, r: Report, now: int)
    requires e < |w.execs| && forall d | 0 <= d < |w.execs| :: w.execs[d].job == w.execs[e].job ==> d == e
    ensures var x, t := w.execs[e], Reconcile(w, w.execs[e].job, attempts, kind, r, now);
            if Finished(x.state) || x.key !in w.flows then t == w
            else
              && e < |t.execs| && x.key in t.flows && t == World(w.flows[x.key := t.flows[x.key]], w.execs[e := t.execs[e]], w.jobs)
              && var y := t.execs[e];
                 && EndsIn(x, attempts, kind, r, y.state, y.error) && Speaks(kind, r, y.outcome, y.recovery)
                 && y == x.(state := y.state, error := y.error, outcome := y.outcome, recovery := y.recovery, report := r,
                            startedAt := if x.startedAt.Some? then x.startedAt else Some(now),
                            finishedAt := if Finished(y.state) then Some(now) else x.finishedAt)
                 && Follows(w.flows[x.key], t.flows[x.key], y, now)
  {
    hide Reconciled, FlowAfter, EndsIn, Speaks, Follows;
    assert ExecOf(w.execs, w.execs[e].job) == Some(e);
    ProgressExactly(w.execs[e], attempts, kind, r, now);
    if w.execs[e].key in w.flows {
      FollowExactly(w.flows[w.execs[e].key], Reconciled(w.execs[e], attempts, kind, r, now), kind, now);
    }
  }

  lemma ProgressExactly(x: Execution, attempts: nat, kind: J.Kind, r: Report, now: int)
    ensures var y := Reconciled(x, attempts, kind, r, now);
            && EndsIn(x, attempts, kind, r, y.state, y.error) && Speaks(kind, r, y.outcome, y.recovery)
            && y == x.(state := y.state, error := y.error, outcome := y.outcome, recovery := y.recovery, report := r,
                       startedAt := if x.startedAt.Some? then x.startedAt else Some(now),
                       finishedAt := if Finished(y.state) then Some(now) else x.finishedAt)
  {
  }

  lemma FollowExactly(flow: Flow, y: Execution, kind: J.Kind, now: int)
    ensures Follows(flow, FlowAfter(flow, y, kind, now), y, now)
  {
  }

  lemma UnknownJob(w: World, job: nat, attempts: nat, kind: J.Kind, r: Report, now: int)
    requires forall d | 0 <= d < |w.execs| :: w.execs[d].job != job
    ensures Reconcile(w, job, attempts, kind, r, now) == w
  {
  }

  // ---------- the handler ----------

  /** `collection_handler` on the job of execution `e`: a finished execution is a success; otherwise the
      planned outcome is reconciled at `later` and answered, with a cooldown of an hour from `now`. A job
      without an execution or a flow raises. */
  lemma HandleExactly(w: World, e: nat, attempts: nat, plan: Planned, now: int, later: int)
    requires e < |w.execs| && forall d | 0 <= d < |w.execs| :: w.execs[d].job == w.execs[e].job ==> d == e
    ensures var x, (t, o) := w.execs[e], Handle(w, w.execs[e].job, attempts, plan, now, later);
            if Finished(x.state) then t == w && o == Some(J.HandlerOutcome(J.Success, map[], "", None))
            else if x.key !in w.flows then t == w && o.None?
            else
              var kind := match plan
                          case PlanBlocked => J.Permanent case PlanCooldown => J.Kind.Cooldown case PlanTemporary => J.Temporary
                          case PlanPartial => J.Kind.Partial case PlanEmpty => J.Success;
              var code := match plan
                          case PlanBlocked => "permanent_failure" case PlanCooldown => "official_cooldown"
                          case PlanTemporary => "temporary_failure" case PlanPartial => "partial_result" case PlanEmpty => "";
              var result: J.SafeMap := match plan
                          case PlanPartial => map["unit_count" := J.Number(1)]
                          case PlanEmpty => map["query_valid" := J.Flag(true), "unit_count" := J.Number(0),
                              "coverage" := J.Text("available")]
                          case _ => map[];
              && t == Reconcile(w, x.job, attempts, kind,
                               Report(plan == PlanEmpty, if plan == PlanPartial then 1 else 0, None, None), later)
              && o == Some(J.HandlerOutcome(kind, result, code, if plan == PlanCooldown then Some(now + 3600) else None))
  {
    hide Reconciled, FlowAfter;
    assert ExecOf(w.execs, w.execs[e].job) == Some(e);
  }

  lemma NoExecution(w: World, job: nat, attempts: nat, plan: Planned, now: int, later: int)
    requires forall d | 0 <= d < |w.execs| :: w.execs[d].job != job
    ensures Handle(w, job, attempts, plan, now, later) == (w, None)
  {
  }
}
