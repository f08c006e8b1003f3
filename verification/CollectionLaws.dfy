/** The laws of collection commands that follow from the run invariant, and the agreement of job and
    execution after an uninterrupted `process_one`. */
module CollectionLaws {
  import opened Options
  import opened Collection
  import opened CollectionRuns
  import J = JobEngine
  import W = JobWorkers

  lemma Reachable(steps: seq<Step>)
    ensures Inv(RunTo(START, steps))
  {
    RunKeeps(START, steps);
  }

  /** In every reachable state a flow names an execution exactly when that execution is active, at most
      one execution of a company and family is active, and the flow shows its state. */
  lemma ActiveIndex(steps: seq<Step>, k: FlowKey, e: nat)
    requires k in RunTo(START, steps).world.flows
    ensures var w := RunTo(START, steps).world;
            && (w.flows[k].active == Some(e) <==> e < |w.execs| && w.execs[e].key == k && Active(w.execs[e].state))
            && (w.flows[k].active == Some(e) ==>
                  && w.flows[k].state == Some(w.execs[e].state)
                  && forall d | 0 <= d < |w.execs| && w.execs[d].key == k && Active(w.execs[d].state) :: d == e)
  {
    Reachable(steps);
    var w := RunTo(START, steps).world;
    assert FlowOk(k, w.flows[k], w.execs);
    forall d | 0 <= d < |w.execs| && w.execs[d].key == k && Active(w.execs[d].state)
      ensures w.flows[k].active == Some(d)
    {
      assert Indexed(d, w.execs, w.flows);
    }
  }

  /** A COMPLETED collection job has a terminal execution, also after lost leases and late callers, and
      a terminal execution never changes again. */
  lemma CompletedIsTerminal(steps: seq<Step>, more: seq<Step>, e: nat)
    requires e < |RunTo(START, steps).world.execs|
    ensures var s := RunTo(START, steps); var t := RunTo(s, more).world;
            && s.world.execs[e].job < |s.world.jobs|
            && (s.world.jobs[s.world.execs[e].job].state == J.Completed ==> Terminal(s.world.execs[e].state))
            && e < |t.execs| && t.execs[e].job == s.world.execs[e].job
            && (Terminal(s.world.execs[e].state) ==> t.execs[e] == s.world.execs[e])
  {
    Reachable(steps);
    var s := RunTo(START, steps);
    RunKeeps(s, more);
    assert JobOk(e, s.world.execs[e], s.world.jobs);
    assert ExecAges(s.world.execs[e], RunTo(s, more).world.execs[e]);
  }

  // ---------- blocked flows ----------

  predicate FlowBlocked(w: World, k: FlowKey) {
    k in w.flows && w.flows[k].state == Some(Blocked)
  }

  predicate NoNew(a: seq<Execution>, b: seq<Execution>, k: FlowKey) {
    |a| <= |b| && forall e | |a| <= e < |b| :: b[e].key != k
  }

  lemma BegunElsewhere(w: World, c: Command, t: World, k: FlowKey)
    requires FlowBlocked(w, k) && Begun(w, c, t) && forall f | f in Families(c.scope) :: Startable(w, c, f)
    ensures FlowBlocked(t, k) && NoNew(w.execs, t.execs, k)
  {
    var families := Families(c.scope);
    if k.company == c.company {
      assert !Startable(w, c, k.family);
    }
    assert k.company != c.company || k.family !in families;
    forall e | |w.execs| <= e < |t.execs| ensures t.execs[e].key != k {
      assert BegunAt(w, c, t, e - |w.execs|);
      assert families[e - |w.execs|] in families;
    }
  }

  lemma RequestLeavesBlocked(w: World, c: Command, k: FlowKey)
    requires WorldOk(w) && FlowBlocked(w, k)
    ensures FlowBlocked(Request(w, c).0, k) && NoNew(w.execs, Request(w, c).0.execs, k)
  {
    hide Request, Begun, Startable;
    RequestKeeps(w, c);
    if Request(w, c).1.Created? {
      BegunElsewhere(w, c, Request(w, c).0, k);
    }
  }

  lemma ReconcileLeavesBlocked(w: World, job: nat, attempts: nat, kind: J.Kind, r: Report, now: int, k: FlowKey)
    requires WorldOk(w) && FlowBlocked(w, k)
    ensures var t := Reconcile(w, job, attempts, kind, r, now); FlowBlocked(t, k) && |t.execs| == |w.execs|
  {
    match ExecOf(w.execs, job)
    case None =>
    case Some(e) =>
      assert Indexed(e, w.execs, w.flows) && FlowOk(k, w.flows[k], w.execs) && JobOk(e, w.execs[e], w.jobs);
  }

  lemma StepLeavesBlocked(s: System, step: Step, k: FlowKey)
    requires Inv(s) && FlowBlocked(s.world, k)
    ensures FlowBlocked(Next(s, step).world, k) && NoNew(s.world.execs, Next(s, step).world.execs, k)
  {
    hide Request, Reconcile, J.Apply;
    MeansOk(s.world);
    match step
    case Requesting(c) => RequestLeavesBlocked(s.world, c, k);
    case Reconciling(job, attempts, kind, r, now) => ReconcileLeavesBlocked(s.world, job, attempts, kind, r, now, k);
    case Handling(job, attempts, plan, now, later) =>
      ReconcileLeavesBlocked(s.world, job, attempts, Classified(plan, now).0.kind, Classified(plan, now).1, later, k);
    case _ =>
  }

  /** Once a flow is BLOCKED it stays BLOCKED, and no execution is ever created for it again. */
  lemma {:induction false} BlockedStays(s: System, steps: seq<Step>, k: FlowKey)
    requires Inv(s) && FlowBlocked(s.world, k)
    ensures FlowBlocked(RunTo(s, steps).world, k) && NoNew(s.world.execs, RunTo(s, steps).world.execs, k)
  {
    if steps != [] {
      var init := steps[..|steps| - 1];
      BlockedStays(s, init, k);
      RunKeeps(s, init);
      StepLeavesBlocked(RunTo(s, init), steps[|steps| - 1], k);
      StepKeeps(RunTo(s, init), steps[|steps| - 1]);
      SameKeys(s.world.execs, RunTo(s, init).world.execs, RunTo(s, steps).world.execs, k);
    }
  }

  lemma SameKeys(a: seq<Execution>, b: seq<Execution>, c: seq<Execution>, k: FlowKey)
    requires NoNew(a, b, k) && NoNew(b, c, k) && ExecsAge(b, c)
    ensures NoNew(a, c, k)
  {
    forall e | |a| <= e < |c| ensures c[e].key != k {
      if e < |b| {
        assert ExecAges(b[e], c[e]);
      }
    }
  }

  /** No reachable execution is FAILED and a PARTIAL one is active, so a retry never creates anything:
      its family is either refused or already collected by the very execution to be retried. */
  lemma RetryNeverCreates(steps: seq<Step>, c: Command)
    requires c.origin == Retry
    ensures !Request(RunTo(START, steps).world, c).1.Created?
  {
    Reachable(steps);
    MeansOk(RunTo(START, steps).world);
    RetryCreatesNothing(RunTo(START, steps).world, c);
  }

  lemma RetryCreatesNothing(w: World, c: Command)
    requires WorldOk(w) && c.origin == Retry
    ensures !Request(w, c).1.Created?
  {
    RequestKeeps(w, c);
    if Request(w, c).1.Created? {
      RetryWasOk(w, c);
      RetriedIsActive(w, c);
    }
  }

  lemma RetriedIsActive(w: World, c: Command)
    requires WorldOk(w) && c.origin == Retry && RetryOk(w, c)
    ensures exists f :: f in Families(c.scope) && !Startable(w, c, f)
  {
    var e := c.retryOf.value;
    assert JobOk(e, w.execs[e], w.jobs) && Indexed(e, w.execs, w.flows);
    assert !Startable(w, c, w.execs[e].key.family);
  }

  lemma RetryWasOk(w: World, c: Command)
    requires WorldOk(w) && Request(w, c).1.Created?
    ensures RetryOk(w, c)
  {
    NothingStale(w, c.company, Families(c.scope));
    assert w.(flows := w.flows) == w;
  }

  ghost predicate NoRetries(execs: seq<Execution>) {
    forall e | 0 <= e < |execs| :: execs[e].retryOf.None?
  }

  lemma StepNoRetries(s: System, step: Step)
    requires Inv(s) && NoRetries(s.world.execs)
    ensures NoRetries(Next(s, step).world.execs)
  {
    hide Request, Reconcile, J.Apply;
    var w, t := s.world, Next(s, step).world;
    StepKeeps(s, step);
    forall e | 0 <= e < |t.execs| ensures t.execs[e].retryOf.None? {
      if e < |w.execs| {
        assert ExecAges(w.execs[e], t.execs[e]);
      } else {
        NewIsNoRetry(s, step, e);
      }
    }
  }

  lemma NewIsNoRetry(s: System, step: Step, e: nat)
    requires Inv(s) && |s.world.execs| <= e < |Next(s, step).world.execs|
    ensures Next(s, step).world.execs[e].retryOf.None?
  {
    hide Request, J.Apply, WorldOk, Begun, OthersKept, Startable;
    MeansOk(s.world);
    match step
    case Requesting(c) =>
      RequestKeeps(s.world, c);
      if c.origin == Retry {
        RetryCreatesNothing(s.world, c);
      } else if Request(s.world, c).1.Created? {
        BegunIsNoRetry(s.world, c, Request(s.world, c).0, e);
      }
    case _ =>
  }

  lemma BegunIsNoRetry(w: World, c: Command, t: World, e: nat)
    requires Begun(w, c, t) && c.origin != Retry && |w.execs| <= e < |t.execs|
    ensures t.execs[e].retryOf.None?
  {
    hide OthersKept;
    assert BegunAt(w, c, t, e - |w.execs|);
  }

  /** So no reachable execution is recorded as the retry of another. */
  lemma {:induction false} RetryOfIsNone(steps: seq<Step>)
    ensures NoRetries(RunTo(START, steps).world.execs)
  {
    if steps != [] {
      RetryOfIsNone(steps[..|steps| - 1]);
      Reachable(steps[..|steps| - 1]);
      StepNoRetries(RunTo(START, steps[..|steps| - 1]), steps[|steps| - 1]);
    }
  }

  /** What outcome and recovery of a reconciled execution say about its state, when the ingestion reported
      none. Nothing is left to do exactly for a finished one. A blocked one says so exactly when the
      failure was permanent: one that ran out of retries still asks for a retry or a cooldown. A valid
      empty outcome without the query marked valid is only concluded. */
  lemma VocabularyAgainstState(x: Execution, attempts: nat, kind: J.Kind, r: Report, now: int)
    requires r.outcome.None? && r.recovery.None?
    ensures var y := Reconciled(x, attempts, kind, r, now);
            && (y.recovery == I.NoAction <==> y.state == Concluded || y.state == Empty)
            && (y.recovery == I.Recovery.Blocked <==> y.state == Blocked && y.error == "permanent_failure")
            && (y.state == Blocked && y.error != "permanent_failure" ==>
                  y.error == "retry_exhausted" && (y.recovery == I.Recovery.Retry || y.recovery == I.Recovery.Cooldown))
            && (y.state == Empty <==> y.outcome == I.ValidEmpty && r.queryValid)
            && (y.outcome == I.ValidEmpty ==> y.state == Empty || y.state == Concluded)
            && (y.state == State.Cooldown ==> y.outcome == I.Outcome.Cooldown && y.recovery == I.Recovery.Cooldown)
            && (y.state == State.Partial ==> y.outcome == I.Outcome.Partial && y.recovery == I.Recovery.Retry)
            && (y.state == Retrying ==> y.outcome == I.TemporaryFailure && y.recovery == I.Recovery.Retry)
  {
  }

  // ---------- job and execution after process_one ----------

  /** `process_one` after its claim: the handler, then the finalizing call. */
  function Worked(w: World, id: nat, owner: string, plan: Planned, now: int, later: int, t: W.Readings): World
    requires id < |w.jobs|
  {
    var (v, o) := Handle(w, id, w.jobs[id].attempts, plan, now, later);
    v.(jobs := W.Conclude(v.jobs, id, owner, w.jobs[id].policy, if o.Some? then W.Reaction.Classified(o.value) else W.Raised, t))
  }

  predicate Agree(job: J.State, exec: State) {
    || (job == J.Completed && (exec == Concluded || exec == Empty))
    || (job == J.Blocked && exec == Blocked)
    || (job == J.Queued && (exec == Retrying || exec == Partial || exec == State.Cooldown))
  }

  /** The claim of a collection job leaves its execution's row facts in place. */
  lemma ClaimKeepsWorld(w: World, owner: string, at: int, duration: nat, locked: set<nat>, e: nat)
    requires WorldOk(w) && e < |w.execs|
    requires J.Claim(w.jobs, owner, at, duration, locked).1 == Ok(Some(w.execs[e].job))
    ensures var jobs, id := J.Claim(w.jobs, owner, at, duration, locked).0, w.execs[e].job;
            && id < |jobs| && JobOk(e, w.execs[e], jobs) && (forall d | 0 <= d < |w.execs| :: w.execs[d].job == id ==> d == e)
            && (forall now :: now < at + duration ==> J.Holds(jobs, id, owner, now))
  {
    var id := w.execs[e].job;
    J.ClaimKeeps(w.jobs, owner, at, duration, locked);
    assert JobOk(e, w.execs[e], w.jobs);
    J.ClaimTakesFirst(w.jobs, owner, at, duration, locked);
    forall d | 0 <= d < |w.execs| && w.execs[d].job == id ensures d == e {
      assert JobOk(d, w.execs[d], w.jobs);
      SameJobSameExec(w.execs, w.jobs, d, e);
    }
    var jobs := J.Claim(w.jobs, owner, at, duration, locked).0;
    assert J.Ages(w.jobs[id], jobs[id]);
  }

  /** What the handler leaves of the execution, and what it answers. */
  lemma HandlerLeaves(w: World, e: nat, attempts: nat, plan: Planned, now: int, later: int)
    requires e < |w.execs| && forall d | 0 <= d < |w.execs| :: w.execs[d].job == w.execs[e].job ==> d == e
    requires w.execs[e].policy.Some? && (!Terminal(w.execs[e].state) ==> w.execs[e].key in w.flows)
    ensures var (v, o) := Handle(w, w.execs[e].job, attempts, plan, now, later);
            var exhausted := attempts > w.execs[e].policy.value.retryLimit;
            && v.jobs == w.jobs && |v.execs| == |w.execs| && o.Some?
            && (if Terminal(w.execs[e].state) then v.execs[e] == w.execs[e] && o.value.kind == J.Success
                else
                  && o.value.kind == Classified(plan, now).0.kind
                  && v.execs[e].state == StateFor(o.value.kind, exhausted, Classified(plan, now).1).0)
  {
    assert ExecOf(w.execs, w.execs[e].job) == Some(e);
  }

  /** After an uninterrupted `process_one` on a collection job, job and execution agree, because both
      decide exhaustion from the same attempt count and policy; an execution that was already terminal
      stays as it is and its job completes. */
  lemma JobAndExecutionAgree(w: World, owner: string, at: int, duration: nat, locked: set<nat>, e: nat,
                             plan: Planned, now: int, later: int, t: W.Readings)
    requires WorldOk(w) && e < |w.execs|
    requires J.Claim(w.jobs, owner, at, duration, locked).1 == Ok(Some(w.execs[e].job))
    requires t.now < at + duration && t.later < at + duration
    ensures var jobs, id := J.Claim(w.jobs, owner, at, duration, locked).0, w.execs[e].job;
            id < |jobs| &&
            var v := Worked(w.(jobs := jobs), id, owner, plan, now, later, t);
            && id < |v.jobs| && e < |v.execs| && w.execs[e].policy.Some?
            && (if Terminal(w.execs[e].state) then v.jobs[id].state == J.Completed && v.execs[e] == w.execs[e]
                else
                  && Agree(v.jobs[id].state, v.execs[e].state)
                  && (v.jobs[id].state == J.Completed <==> plan == PlanEmpty)
                  && (v.jobs[id].state == J.Blocked <==>
                        plan == PlanBlocked || (plan != PlanEmpty && jobs[id].attempts > w.execs[e].policy.value.retryLimit)))
  {
    hide J.Claim, W.Conclude, Handle, J.Holds;
    ClaimKeepsWorld(w, owner, at, duration, locked, e);
    var jobs, id := J.Claim(w.jobs, owner, at, duration, locked).0, w.execs[e].job;
    var held := w.(jobs := jobs);
    assert Indexed(e, w.execs, w.flows);
    assert Terminal(w.execs[e].state) || Active(w.execs[e].state);
    HandlerLeaves(held, e, jobs[id].attempts, plan, now, later);
    var o := Handle(held, id, jobs[id].attempts, plan, now, later).1;
    assert J.Holds(jobs, id, owner, t.now) && J.Holds(jobs, id, owner, t.later);
    W.ConclusionOf(jobs, id, owner, W.Reaction.Classified(o.value), t);
    ConcludeLength(jobs, id, owner, jobs[id].policy, W.Reaction.Classified(o.value), t);
  }

  lemma ConcludeLength(jobs: J.Jobs, id: nat, owner: string, policy: Option<J.Policy>, r: W.Reaction, t: W.Readings)
    ensures |W.Conclude(jobs, id, owner, policy, r, t)| == |jobs|
  {
  }

  // ---------- every way a worker can conclude ----------

  /** What a worker does after the handler of a collection job is a step the system permits: it completes
      the job only when the handler returned a success. */
  lemma WorkerIsPermitted(s: System, id: nat, owner: string, policy: Option<J.Policy>, reaction: W.Reaction, t: W.Readings)
    returns (steps: seq<Step>)
    requires IsCollection(s.world.jobs, id) ==> !reaction.Plain?
    requires IsCollection(s.world.jobs, id) && reaction.Classified? && reaction.outcome.kind == J.Success ==> id in s.finished
    ensures RunTo(s, steps) == s.(world := s.world.(jobs := W.Conclude(s.world.jobs, id, owner, policy, reaction, t)))
  {
    hide W.Conclude, J.Apply;
    var op := W.ConcludeByOneOp(s.world.jobs, id, owner, policy, reaction, t);
    steps := [];
    assert s.world.(jobs := s.world.jobs) == s.world && s.(world := s.world) == s;
    if op.Some? {
      assert Permitted(s, op.value);
      steps := [Engine(op.value)];
      assert steps[..0] == [];
    }
  }

  /** `process_one` on a collection job after its claim, handler and conclusion, is a run of the system. */
  lemma WorkedIsRun(s: System, id: nat, owner: string, plan: Planned, now: int, later: int,
      t: W.Readings) returns (steps: seq<Step>)
    requires id < |s.world.jobs|
    ensures RunTo(s, steps).world == Worked(s.world, id, owner, plan, now, later, t)
  {
    hide W.Conclude, Handle, J.Apply;
    var step := Handling(id, s.world.jobs[id].attempts, plan, now, later);
    var o := Handle(s.world, id, s.world.jobs[id].attempts, plan, now, later).1;
    var reaction := if o.Some? then W.Reaction.Classified(o.value) else W.Raised;
    var rest := WorkerIsPermitted(Next(s, step), id, owner, s.world.jobs[id].policy, reaction, t);
    RunAppend(s, step, rest);
    steps := [step] + rest;
  }

  lemma {:induction false} RunAppend(s: System, step: Step, rest: seq<Step>)
    ensures RunTo(s, [step] + rest) == RunTo(Next(s, step), rest)
  {
    if rest == [] {
      assert [step] + rest == [step] && [step][..0] == [];
    } else {
      RunAppend(s, step, rest[..|rest| - 1]);
      assert ([step] + rest)[..|rest|] == [step] + rest[..|rest| - 1];
    }
  }

  predicate GivenUp(reaction: W.Reaction) {
    reaction.Raised? || reaction.NotRegistered?
  }

  predicate Waiting(x: State) {
    x == Retrying || x == State.Partial || x == State.Cooldown
  }

  /** Whatever the handler led to, while the lease lasts: exactly when job and execution agree afterwards,
      and exactly when the job is blocked under an active execution. `x` is the state the execution has
      when the worker concludes. */
  lemma AgreementExactly(w: World, id: nat, owner: string, e: nat, reaction: W.Reaction, t: W.Readings)
    requires WorldOk(w) && e < |w.execs| && w.execs[e].job == id && w.execs[e].policy.Some?
    requires id < |w.jobs| && J.Holds(w.jobs, id, owner, t.now) && J.Holds(w.jobs, id, owner, t.later)
    ensures var v := w.(jobs := W.Conclude(w.jobs, id, owner, w.jobs[id].policy, reaction, t));
            var x, exhausted := w.execs[e].state, w.jobs[id].attempts > w.execs[e].policy.value.retryLimit;
            && id < |v.jobs|
            && (Agree(v.jobs[id].state, x) <==>
                  match reaction
                  case LostLease | Unavailable => false
                  case Plain(_) => x == Concluded || x == Empty
                  case Raised | NotRegistered => if exhausted then x == Blocked else Waiting(x)
                  case Classified(o) =>
                    if o.kind == J.Success then x == Concluded || x == Empty
                    else if o.kind == J.Permanent || exhausted then x == Blocked
                    else Waiting(x))
            && (Stranded(v, e) <==>
                  Active(x) && match reaction
                               case LostLease | Unavailable | Plain(_) => false
                               case Raised | NotRegistered => exhausted
                               case Classified(o) => o.kind == J.Permanent || (o.kind != J.Success && exhausted))
  {
    hide W.Conclude, J.Holds;
    assert JobOk(e, w.execs[e], w.jobs);
    ConcludeLength(w.jobs, id, owner, w.jobs[id].policy, reaction, t);
    if reaction.LostLease? || reaction.Unavailable? {
      NothingConcluded(w.jobs, id, owner, w.jobs[id].policy, reaction, t);
    } else {
      W.ConclusionOf(w.jobs, id, owner, reaction, t);
    }
  }

  lemma NothingConcluded(jobs: J.Jobs, id: nat, owner: string, policy: Option<J.Policy>, reaction: W.Reaction, t: W.Readings)
    requires id < |jobs| && J.Holds(jobs, id, owner, t.now) && (reaction.LostLease? || reaction.Unavailable?)
    ensures W.Conclude(jobs, id, owner, policy, reaction, t) == jobs && jobs[id].state == J.Running
  {
  }

  /** A handler that raised, or that is not registered, on an active execution: the job is blocked under
      it exactly when the attempts are exhausted, and otherwise job and execution agree exactly when the
      execution was already waiting for another attempt. A fresh one is left queued beside a queued job. */
  lemma GivenUpStrands(w: World, id: nat, owner: string, e: nat, reaction: W.Reaction, t: W.Readings)
    requires GivenUp(reaction) && WorldOk(w) && e < |w.execs| && w.execs[e].job == id && Active(w.execs[e].state)
    requires id < |w.jobs| && J.Holds(w.jobs, id, owner, t.now) && J.Holds(w.jobs, id, owner, t.later)
    ensures var v := w.(jobs := W.Conclude(w.jobs, id, owner, w.jobs[id].policy, reaction, t));
            && id < |v.jobs| && w.execs[e].policy.Some?
            && (Stranded(v, e) <==> w.jobs[id].attempts > w.execs[e].policy.value.retryLimit)
            && (Agree(v.jobs[id].state, v.execs[e].state) <==>
                  w.jobs[id].attempts <= w.execs[e].policy.value.retryLimit && Waiting(w.execs[e].state))
  {
    assert JobOk(e, w.execs[e], w.jobs);
    AgreementExactly(w, id, owner, e, reaction, t);
  }

  predicate Stranded(w: World, e: nat) {
    e < |w.execs| && Active(w.execs[e].state) && w.execs[e].job < |w.jobs| && w.jobs[w.execs[e].job].state == J.Blocked
  }

  predicate Touches(step: Step, job: nat) {
    (step.Reconciling? && step.job == job) || (step.Handling? && step.job == job)
  }

  /** Such an execution stays active for good, unless something reconciles it from outside, and no
      request for its company and family creates another one. */
  lemma {:induction false} StrandedStays(s: System, steps: seq<Step>, e: nat, c: Command)
    requires Inv(s) && Stranded(s.world, e)
    requires forall i | 0 <= i < |steps| :: !Touches(steps[i], s.world.execs[e].job)
    requires c.company == s.world.execs[e].key.company && s.world.execs[e].key.family in Families(c.scope)
    ensures var t := RunTo(s, steps).world;
            e < |t.execs| && t.execs[e] == s.world.execs[e] && Stranded(t, e) && !Request(t, c).1.Created?
  {
    RunKeeps(s, steps);
    if steps != [] {
      var init := steps[..|steps| - 1];
      StrandedStays(s, init, e, c);
      RunKeeps(s, init);
      StrandedStep(RunTo(s, init), steps[|steps| - 1], e);
    }
    NoSecond(RunTo(s, steps).world, e, c);
  }

  lemma NoSecond(w: World, e: nat, c: Command)
    requires WorldOk(w) && e < |w.execs| && Active(w.execs[e].state)
    requires c.company == w.execs[e].key.company && w.execs[e].key.family in Families(c.scope)
    ensures !Request(w, c).1.Created?
  {
    RequestKeeps(w, c);
    assert Indexed(e, w.execs, w.flows);
    assert !Startable(w, c, w.execs[e].key.family);
  }

  lemma StrandedRequest(w: World, c: Command, e: nat)
    requires WorldOk(w) && Stranded(w, e)
    ensures var t := Request(w, c).0; e < |t.execs| && t.execs[e] == w.execs[e] && Stranded(t, e)
  {
    hide Request;
    RequestKeeps(w, c);
    var t := Request(w, c).0;
    if Request(w, c).1.Created? {
      assert t.execs[e] == t.execs[..|w.execs|][e];
      assert J.Ages(w.jobs[w.execs[e].job], t.jobs[w.execs[e].job]);
    }
  }

  lemma StrandedReconcile(w: World, job: nat, attempts: nat, kind: J.Kind, r: Report, now: int, e: nat)
    requires Stranded(w, e) && w.execs[e].job != job
    ensures var t := Reconcile(w, job, attempts, kind, r, now); e < |t.execs| && t.execs[e] == w.execs[e] && Stranded(t, e)
  {
  }

  lemma StrandedStep(s: System, step: Step, e: nat)
    requires Inv(s) && Stranded(s.world, e) && !Touches(step, s.world.execs[e].job)
    ensures var t := Next(s, step).world; e < |t.execs| && t.execs[e] == s.world.execs[e] && Stranded(t, e)
  {
    hide Request, J.Apply, Reconcile;
    MeansOk(s.world);
    match step
    case Requesting(c) => StrandedRequest(s.world, c, e);
    case Reconciling(job, attempts, kind, r, now) => StrandedReconcile(s.world, job, attempts, kind, r, now, e);
    case Handling(job, attempts, plan, now, later) =>
      StrandedReconcile(s.world, job, attempts, Classified(plan, now).0.kind, Classified(plan, now).1, later, e);
    case Engine(op) =>
      J.ApplyKeeps(s.world.jobs, op);
      assert J.Ages(s.world.jobs[s.world.execs[e].job], J.Apply(s.world.jobs, op)[s.world.execs[e].job]);
    case _ =>
  }

  // ---------- a reachable stranded execution ----------

  lemma FirstRequest(company: string, f: Family, c: Command)
    requires c.company == company && c.scope == Only(f) && c.origin != Retry
    requires c.allowed && c.companyActive && c.certificateUsable && PolicyFor(c, f).Some?
    ensures var w := Request(World(WithCompany(map[], company), [], []), c).0;
            && w.jobs == [J.NewJob(JobRequest(c, f, 0, PolicyFor(c, f).value), c.now)]
            && |w.execs| == 1 && w.execs[0].job == 0 && w.execs[0].state == Queued && w.execs[0].policy == PolicyFor(c, f)
  {
    var w := World(WithCompany(map[], company), [], []);
    var families := Families(c.scope);
    assert families == [f] && families[..0] == [];
    assert FlowKey(company, f) in w.flows && w.flows[FlowKey(company, f)] == IDLE;
    assert w.flows[FlowKey(company, f) := IDLE] == w.flows;
    assert ActiveOf(w, company, families) == (w.flows, []);
    assert w.(flows := w.flows) == w;
    assert FirstRefusal(w.flows, c, families).None?;
    AllOne(w, c, families);
  }

  /** From the start: one company, one request, one claim, and no handler registered. With no retries
      allowed the execution is stranded; with retries it is queued beside a queued job, and the two do
      not agree. */
  lemma StrandedIsReachable(c: Command, f: Family, owner: string, t: W.Readings) returns (steps: seq<Step>)
    requires c.scope == Only(f) && c.origin != Retry && c.allowed && c.companyActive && c.certificateUsable
    requires PolicyFor(c, f).Some? && J.Named(owner) && t.now < c.now + 30 && t.later < c.now + 30
    ensures var w := RunTo(START, steps).world;
            && |w.execs| == 1 && |w.jobs| == 1
            && (Stranded(w, 0) <==> PolicyFor(c, f).value.retryLimit == 0)
            && !Agree(w.jobs[0].state, w.execs[0].state)
  {
    hide Request, W.Conclude, J.Claim, Next, WithCompany;
    var s1 := Next(START, AddCompany(c.company));
    var s2 := Next(s1, Requesting(c));
    var claim := J.DoClaim(owner, c.now, 30, {});
    var s3 := Next(s2, Engine(claim));
    SetUp(c, f, owner);
    AfterSteps(c, owner);
    Reachable([AddCompany(c.company)] + [Requesting(c)] + [Engine(claim)]);
    MeansOk(s3.world);
    var rest := WorkerIsPermitted(s3, 0, owner, s3.world.jobs[0].policy, W.NotRegistered, t);
    GivenUpStrands(s3.world, 0, owner, 0, W.NotRegistered, t);
    ConcludeLength(s3.world.jobs, 0, owner, s3.world.jobs[0].policy, W.NotRegistered, t);
    steps := [AddCompany(c.company)] + ([Requesting(c)] + ([Engine(claim)] + rest));
    RunAppend(START, AddCompany(c.company), [Requesting(c)] + ([Engine(claim)] + rest));
    RunAppend(s1, Requesting(c), [Engine(claim)] + rest);
    RunAppend(s2, Engine(claim), rest);
  }

  lemma AfterSteps(c: Command, owner: string)
    ensures var claim := Engine(J.DoClaim(owner, c.now, 30, {}));
            RunTo(START, [AddCompany(c.company)] + [Requesting(c)] + [claim])
            == Next(Next(Next(START, AddCompany(c.company)), Requesting(c)), claim)
  {
    hide Next;
    var claim := Engine(J.DoClaim(owner, c.now, 30, {}));
    var none: seq<Step> := [];
    assert [AddCompany(c.company)] + [Requesting(c)] + [claim] == [AddCompany(c.company)] + ([Requesting(c)] + ([claim] + none));
    RunAppend(START, AddCompany(c.company), [Requesting(c)] + ([claim] + none));
    RunAppend(Next(START, AddCompany(c.company)), Requesting(c), [claim] + none);
    RunAppend(Next(Next(START, AddCompany(c.company)), Requesting(c)), claim, none);
  }

  lemma SetUp(c: Command, f: Family, owner: string)
    requires c.scope == Only(f) && c.origin != Retry && c.allowed && c.companyActive && c.certificateUsable
    requires PolicyFor(c, f).Some? && J.Named(owner)
    ensures var s := Next(Next(Next(START, AddCompany(c.company)), Requesting(c)), Engine(J.DoClaim(owner, c.now, 30, {})));
            var w := s.world;
            && |w.execs| == 1 && w.execs[0].job == 0 && w.execs[0].state == Queued && w.execs[0].policy == PolicyFor(c, f)
            && |w.jobs| == 1 && w.jobs[0].attempts == 1 && forall now | now < c.now + 30 :: J.Holds(w.jobs, 0, owner, now)
  {
    hide Request;
    FirstRequest(c.company, f, c);
    var job := J.NewJob(JobRequest(c, f, 0, PolicyFor(c, f).value), c.now);
    assert J.Eligible([job], 0, c.now, {});
    assert J.Reclaim([job], c.now) == [job];
  }
}
