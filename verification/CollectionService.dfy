/** Collection commands over mutable tables, each proved against its specification. An exception rolls
    the transaction back. */
module CollectionService {
  import opened Options
  import opened Collection
  import C = Collection
  import I = Ingestion
  import J = JobEngine

  class CollectionCommands {
    var flows: Flows
    var execs: seq<Execution>
    var jobs: J.Jobs

    function State(): World
      reads this
    {
      World(flows, execs, jobs)
    }

    constructor ()
      ensures State() == World(map[], [], [])
    {
      flows, execs, jobs := map[], [], [];
    }

    /** `_active_execution`: the active execution of a flow; a stale pointer is cleared. */
    method ActiveExecution(key: FlowKey) returns (active: Option<nat>)
      requires key in flows
      modifies this`flows
      ensures flows == old(flows)[key := Cleared(old(flows)[key], execs)]
      ensures active == if StillActive(execs, old(flows)[key].active) then old(flows)[key].active else None
    {
      active := flows[key].active;
      if active.Some? && !(active.value < |execs| && C.Active(execs[active.value].state)) {
        flows := flows[key := flows[key].(active := None)];
        active := None;
      }
      assert flows == old(flows)[key := Cleared(old(flows)[key], execs)];
    }

    method CollectActive(company: string, families: seq<Family>) returns (found: seq<nat>)
      requires forall f | f in families :: FlowKey(company, f) in flows
      requires forall i, j | 0 <= i < j < |families| :: families[i] != families[j]
      modifies this`flows
      ensures (flows, found) == ActiveOf(old(State()), company, families)
    {
      found := [];
      ghost var start := State();
      for i := 0 to |families|
        invariant flows.Keys == start.flows.Keys
        invariant forall k | i <= k < |families| ::
                    flows[FlowKey(company, families[k])] == start.flows[FlowKey(company, families[k])]
        invariant (flows, found) == ActiveOf(start, company, families[..i])
      {
        assert families[..i + 1][..i] == families[..i];
        assert families[i] in families;
        var active := ActiveExecution(FlowKey(company, families[i]));
        if active.Some? {
          found := found + [active.value];
        }
      }
      assert families[..|families|] == families;
    }

    /** The checks on each flow, first refusal first. */
    method CheckFlows(c: Command, families: seq<Family>) returns (refusal: Option<Error>)
      requires forall f | f in families :: FlowKey(c.company, f) in flows
      ensures refusal == FirstRefusal(flows, c, families)
    {
      refusal := None;
      for i := 0 to |families|
        invariant refusal == FirstRefusal(flows, c, families[..i])
      {
        assert families[..i + 1][..i] == families[..i];
        assert families[i] in families;
        var flow := flows[FlowKey(c.company, families[i])];
        if refusal.None? {
          if !flow.enabled {
            refusal := Some(FlowPaused);
          } else if flow.state == Some(Blocked) {
            refusal := Some(CollectionBlocked);
          } else if flow.cooldownUntil.Some? && flow.cooldownUntil.value > c.now {
            refusal := Some(CooldownActive);
          } else if PolicyFor(c, families[i]).None? {
            refusal := Some(PolicyUnavailable);
          }
        }
      }
      assert families[..|families|] == families;
    }

    /** Execution, job and flow pointer of one family. */
    method BeginOne(c: Command, f: Family) returns (refusal: Option<Error>)
      requires FlowKey(c.company, f) in flows && PolicyFor(c, f).Some?
      modifies this
      ensures match CreateFor(old(State()), c, f)
              case Ok(w) => refusal == None && State() == w
              case Err(e) => refusal == Some(e) && State() == old(State())
    {
      hide Started, NewExecution, HasActive;
      var key, policy, e := FlowKey(c.company, f), PolicyFor(c, f).value, |execs|;
      if HasActive(execs, key) {
        return Some(ConcurrentRequest);
      }
      var queued := J.Enqueue(jobs, JobRequest(c, f, e, policy), c.now);
      if queued.1.Err? {
        return Some(JobRefused);
      }
      var x := FreshExecution(c, f, policy, queued.1.value);
      var flow := MarkStarted(flows[key], e, c.now);
      flows := flows[key := flow];
      execs := execs + [x];
      jobs := queued.0;
      return None;
    }

    /** A retry names the execution it repeats only for that execution's own family. */
    method FreshExecution(c: Command, f: Family, policy: J.Policy, job: nat) returns (x: Execution)
      ensures x == NewExecution(State(), c, f, policy, job)
    {
      x := Execution(
        key := FlowKey(c.company, f), scope := c.scope, origin := c.origin, retryOf := None, policy := Some(policy),
        job := job, state := Queued, outcome := I.Outcome.Unknown, recovery := I.NoAction, report := NOTHING,
        error := "", startedAt := None, finishedAt := None);
      if c.origin == Retry && c.retryOf.Some? && c.retryOf.value < |execs| {
        if execs[c.retryOf.value].key.family == f {
          x := x.(retryOf := c.retryOf);
        }
      }
    }

    static method MarkStarted(flow: Flow, e: nat, now: int) returns (r: Flow)
      ensures r == Started(flow, e, now)
    {
      r := flow.(active := Some(e), state := Some(Queued));
      r := r.(lastAttemptAt := Some(now), nextScheduledAt := Some(now), cooldownUntil := None);
      r := r.(error := "", blockedReason := "");
    }

    method BeginAll(c: Command, families: seq<Family>) returns (refusal: Option<Error>)
      requires forall f | f in families :: FlowKey(c.company, f) in flows && PolicyFor(c, f).Some?
      modifies this
      ensures match CreateAll(old(State()), c, families)
              case Ok(w) => refusal == None && State() == w
              case Err(e) => refusal == Some(e)
    {
      hide CreateFor;
      ghost var start := State();
      refusal := None;
      for i := 0 to |families|
        invariant refusal.None? ==> CreateAll(start, c, families[..i]) == Ok(State())
        invariant refusal.Some? ==> CreateAll(start, c, families[..i]) == Err(refusal.value)
      {
        assert families[..i + 1][..i] == families[..i];
        assert families[i] in families;
        if refusal.None? {
          refusal := BeginOne(c, families[i]);
        }
      }
      assert families[..|families|] == families;
    }

    /** `request_collection`. */
    method RequestCollection(c: Command) returns (a: Answer)
      modifies this
      ensures (State(), a) == Request(old(State()), c)
    {
      hide CreateAll, ActiveOf, FirstRefusal, RetryOk;
      var families := Families(c.scope);
      if !c.allowed {
        return Rejected(AccessDenied);
      }
      if !c.companyActive {
        return Rejected(CompanyInactive);
      }
      if !c.certificateUsable {
        return Rejected(CertificateUnavailable);
      }
      for i := 0 to |families|
        invariant State() == old(State())
        invariant forall k | 0 <= k < i :: FlowKey(c.company, families[k]) in flows
      {
        if FlowKey(c.company, families[i]) !in flows {
          assert families[i] in families;
          return Rejected(FlowPaused);
        }
      }
      var savedFlows, savedExecs, savedJobs := flows, execs, jobs;
      var active := CollectActive(c.company, families);
      if active != [] {
        return Duplicate(active);
      }
      var refusal := CheckFlows(c, families);
      if refusal.None? && !RetryOk(State(), c) {
        refusal := Some(RetryNotEligible);
      }
      var first := |execs|;
      if refusal.None? {
        refusal := BeginAll(c, families);
      }
      if refusal.Some? {
        flows, execs, jobs := savedFlows, savedExecs, savedJobs;
        return Rejected(refusal.value);
      }
      return Created(Fresh(first, |families|));
    }

    /** `reconcile_collection_job`. */
    method ReconcileJob(job: nat, attempts: nat, kind: J.Kind, r: Report, now: int)
      modifies this`flows, this`execs
      ensures State() == Reconcile(old(State()), job, attempts, kind, r, now)
    {
      hide Reconciled, FlowAfter;
      var found := ExecOf(execs, job);
      if found.None? || execs[found.value].key !in flows || Terminal(execs[found.value].state) {
        return;
      }
      var e := found.value;
      var x := execs[e];
      var y := Progress(x, attempts, kind, r, now);
      var flow := Follow(flows[x.key], y, kind, now);
      execs := execs[e := y];
      flows := flows[x.key := flow];
    }

    /** Outcome and recovery: what the ingestion reported, else what the kind stands for. */
    static method Vocabulary(kind: J.Kind, r: Report) returns (outcome: I.Outcome, recovery: I.Recovery)
      ensures outcome == OutcomeOf(kind, r) && recovery == RecoveryOf(kind, r)
    {
      outcome, recovery := I.TemporaryFailure, I.NoAction;
      if r.outcome.Some? {
        outcome := r.outcome.value;
      } else if kind == J.Success {
        outcome := if r.unitCount == 0 then I.ValidEmpty else I.Outcome.Success;
      } else if kind == J.Kind.Partial {
        outcome := I.Outcome.Partial;
      } else if kind == J.Kind.Cooldown {
        outcome := I.Outcome.Cooldown;
      } else if kind == J.Permanent {
        outcome := I.PermanentFailure;
      }
      if r.recovery.Some? {
        recovery := r.recovery.value;
      } else if kind == J.Kind.Cooldown {
        recovery := I.Recovery.Cooldown;
      } else if kind == J.Permanent {
        recovery := I.Recovery.Blocked;
      } else if kind == J.Kind.Partial || kind == J.Temporary {
        recovery := I.Recovery.Retry;
      }
    }

    /** The field assignments on the execution row. */
    static method Progress(x: Execution, attempts: nat, kind: J.Kind, r: Report, now: int) returns (y: Execution)
      ensures y == Reconciled(x, attempts, kind, r, now)
    {
      hide OutcomeOf, RecoveryOf;
      var exhausted := x.policy.Some? && attempts > x.policy.value.retryLimit;
      var outcome, recovery := Vocabulary(kind, r);
      y := x.(report := r, error := "", outcome := outcome, recovery := recovery);
      if y.startedAt.None? {
        y := y.(startedAt := Some(now));
      }
      if kind == J.Success {
        y := y.(state := if r.queryValid && r.unitCount == 0 then Empty else Concluded, finishedAt := Some(now));
      } else if kind == J.Permanent {
        y := y.(state := Blocked, error := "permanent_failure", finishedAt := Some(now));
      } else if exhausted {
        y := y.(state := Blocked, error := "retry_exhausted", finishedAt := Some(now));
      } else if kind == J.Kind.Cooldown {
        y := y.(state := C.State.Cooldown, error := "official_cooldown");
      } else if kind == J.Kind.Partial {
        y := y.(state := C.State.Partial, error := "partial_result");
      } else {
        y := y.(state := Retrying, error := "temporary_failure");
      }
    }

    /** The field assignments on the flow row. */
    static method Follow(flow: Flow, y: Execution, kind: J.Kind, now: int) returns (r: Flow)
      ensures r == FlowAfter(flow, y, kind, now)
    {
      r := flow.(state := Some(y.state), error := y.error);
      if r.lastAttemptAt.None? {
        r := r.(lastAttemptAt := Some(now));
      }
      if y.state == Concluded || y.state == Empty {
        r := r.(lastSuccessAt := Some(now), nextScheduledAt := None, cooldownUntil := None, blockedReason := "");
      } else if y.state == C.State.Cooldown {
        r := r.(cooldownUntil := Some(now + HOUR), nextScheduledAt := Some(now + HOUR));
      } else if y.state == Blocked {
        r := r.(blockedReason := y.error);
      }
      if Terminal(y.state) {
        r := r.(active := None);
      }
    }

    /** `collection_handler`. */
    method HandleJob(job: nat, attempts: nat, plan: Planned, now: int, later: int) returns (o: Option<J.HandlerOutcome>)
      modifies this`flows, this`execs
      ensures (State(), o) == Handle(old(State()), job, attempts, plan, now, later)
    {
      hide Reconcile;
      var found := ExecOf(execs, job);
      if found.None? {
        return None;
      }
      if Terminal(execs[found.value].state) {
        return Some(J.HandlerOutcome(J.Success, map[], "", None));
      }
      var (classified, report) := Classified(plan, now);
      o := if execs[found.value].key in flows then Some(classified) else None;
      ReconcileJob(job, attempts, classified.kind, report, later);
    }
  }
}
