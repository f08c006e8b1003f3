/** `JobEngine` over a mutable job table, and `process_one` on top of it. */
module JobWorkers {
  import opened Options
  import opened JobEngine
  import opened JobFencing
  import opened JobRuns

  // ---------- process_one as a function ----------

  /** What running the handler of a claimed job led to. `Unavailable` is a lost database connection. */
  datatype Reaction =
    | NotRegistered
    | Classified(outcome: HandlerOutcome)
    | Plain(result: SafeMap)
    | LostLease
    | Unavailable
    | Raised

  /** Clock and jitter readings of the finalizing call and of the fallback call. */
  datatype Readings = Readings(at: int, now: int, jitter: int, laterAt: int, later: int, laterJitter: int)

  /** The call for a job that could not be handled: `finalize` as temporary, or `fail` without a policy. */
  function GiveBack(jobs: Jobs, id: nat, owner: string, policy: Option<Policy>, code: string, jitter: int, at: int, now: int)
    : (Jobs, Result<(), Error>)
  {
    if policy.Some? then Finalize(jobs, id, owner, HandlerOutcome(Temporary, map[], code, None), jitter, now)
    else Fail(jobs, id, owner, code, at, now)
  }

  /** `process_one` after the handler: every refusal leaves the table alone, and one that is not a lost
      lease leads to the fallback call. */
  function Conclude(jobs: Jobs, id: nat, owner: string, policy: Option<Policy>, reaction: Reaction, t: Readings): Jobs {
    var fallback := GiveBack(jobs, id, owner, policy, "handler_failed", t.laterJitter, t.laterAt, t.later).0;
    match reaction
    case NotRegistered => GiveBack(jobs, id, owner, policy, "handler_not_registered", t.jitter, t.at, t.now).0
    case Classified(o) =>
      (match Finalize(jobs, id, owner, o, t.jitter, t.now)
       case (t', Ok(_)) => t'
       case (_, Err(LeaseLost)) => jobs
       case (_, Err(_)) => fallback)
    case Plain(result) =>
      (match Complete(jobs, id, owner, result, t.at, t.now)
       case (t', Ok(_)) => t'
       case (_, Err(LeaseLost)) => jobs
       case (_, Err(_)) => fallback)
    case LostLease => jobs
    case Unavailable => jobs
    case Raised => fallback
  }

  // ---------- its steps ----------

  /** The finalizing steps of one worker. */
  function FinalSteps(owner: string, o: HandlerOutcome, jitter: int, now: int): seq<Step> {
    [Reading(owner, o, jitter, now)] + [Writing(owner)]
  }

  lemma TwoSteps(s: System, a: Step, b: Step)
    ensures From(s, [a] + [b]) == Next(Next(s, a), b)
  {
    FromStep(s, [a], b);
    OneStep(s, a);
  }

  lemma OneStep(s: System, a: Step)
    ensures From(s, [a]) == Next(s, a)
  {
    assert [a] == [] + [a];
    FromStep(s, [], a);
  }

  predicate Works(s: System, owner: string, id: nat) {
    id < |s.jobs| && owner in s.busy && s.busy[owner].Holding? && s.busy[owner].id == id
  }

  lemma FinalizeSteps(s: System, owner: string, id: nat, o: HandlerOutcome, jitter: int, now: int)
    requires Works(s, owner, id)
    ensures From(s, FinalSteps(owner, o, jitter, now)).jobs == Finalize(s.jobs, id, owner, o, jitter, now).0
    ensures Finalize(s.jobs, id, owner, o, jitter, now).1 == Err(InvalidTransition) ==>
              From(s, FinalSteps(owner, o, jitter, now)) == s
  {
    hide Changed, Decide, Holds;
    TwoSteps(s, Reading(owner, o, jitter, now), Writing(owner));
    DecideNow(s.jobs[id], o, jitter, now);
  }

  lemma GiveBackSteps(s: System, owner: string, id: nat, code: string, jitter: int, at: int, now: int) returns (steps: seq<Step>)
    requires Works(s, owner, id)
    ensures From(s, steps).jobs == GiveBack(s.jobs, id, owner, s.jobs[id].policy, code, jitter, at, now).0
  {
    if s.jobs[id].policy.Some? {
      var o := HandlerOutcome(Temporary, map[], code, None);
      steps := FinalSteps(owner, o, jitter, now);
      FinalizeSteps(s, owner, id, o, jitter, now);
    } else {
      steps := [Failing(owner, code, at, now)];
      OneStep(s, steps[0]);
    }
  }

  /** `process_one` is a run of worker steps, so fencing and the retry budget hold of it. */
  lemma ConcludeIsRun(s: System, owner: string, id: nat, reaction: Reaction, t: Readings) returns (steps: seq<Step>)
    requires Works(s, owner, id)
    ensures From(s, steps).jobs == Conclude(s.jobs, id, owner, s.jobs[id].policy, reaction, t)
  {
    hide Next, Finalize, GiveBack;
    match reaction
    case NotRegistered => steps := GiveBackSteps(s, owner, id, "handler_not_registered", t.jitter, t.at, t.now);
    case Classified(o) =>
      if Finalize(s.jobs, id, owner, o, t.jitter, t.now).1 == Err(InvalidTransition) {
        steps := GiveBackSteps(s, owner, id, "handler_failed", t.laterJitter, t.laterAt, t.later);
      } else {
        FinalizeErrors(s.jobs, id, owner, o, t.jitter, t.now);
        steps := FinalSteps(owner, o, t.jitter, t.now);
        FinalizeSteps(s, owner, id, o, t.jitter, t.now);
      }
    case Plain(result) =>
      if Complete(s.jobs, id, owner, result, t.at, t.now).1 == Err(InvalidTransition) {
        steps := GiveBackSteps(s, owner, id, "handler_failed", t.laterJitter, t.laterAt, t.later);
      } else {
        steps := [Completing(owner, result, t.at, t.now)];
        OneStep(s, steps[0]);
        CompletingStep(s, owner, id, result, t.at, t.now);
      }
    case Raised => steps := GiveBackSteps(s, owner, id, "handler_failed", t.laterJitter, t.laterAt, t.later);
    case _ => steps := [];
  }

  lemma CompletingStep(s: System, owner: string, id: nat, result: SafeMap, at: int, now: int)
    requires Works(s, owner, id)
    ensures Next(s, Completing(owner, result, at, now)).jobs == Complete(s.jobs, id, owner, result, at, now).0
  {
  }

  lemma FinalizeErrors(jobs: Jobs, id: nat, owner: string, o: HandlerOutcome, jitter: int, now: int)
    ensures var (t, r) := Finalize(jobs, id, owner, o, jitter, now);
            r.Err? ==> t == jobs && (r.error == LeaseLost || r.error == InvalidTransition)
  {
  }

  /** The conclusion is at most one transaction. It completes the job only with the plain result or the
      success the handler returned. */
  lemma ConcludeByOneOp(jobs: Jobs, id: nat, owner: string, policy: Option<Policy>, reaction: Reaction, t: Readings)
    returns (op: Option<Op>)
    ensures Conclude(jobs, id, owner, policy, reaction, t) == if op.Some? then Apply(jobs, op.value) else jobs
    ensures op.Some? ==> (op.value.DoWrite? || op.value.DoFail? || op.value.DoComplete?) && op.value.id == id
    ensures op.Some? && op.value.DoComplete? ==> reaction.Plain? && op.value.result == reaction.result
    ensures op.Some? && op.value.DoWrite? && op.value.change.decision == Done ==>
              reaction.Classified? && reaction.outcome.kind == Success && op.value.change.result == reaction.outcome.result
  {
    hide Changed, Holds;
    match reaction
    case NotRegistered => op := GiveBackOp(jobs, id, owner, policy, "handler_not_registered", t.jitter, t.at, t.now);
    case Classified(o) =>
      if Finalize(jobs, id, owner, o, t.jitter, t.now).1 == Err(InvalidTransition) {
        op := GiveBackOp(jobs, id, owner, policy, "handler_failed", t.laterJitter, t.laterAt, t.later);
      } else {
        FinalizeErrors(jobs, id, owner, o, t.jitter, t.now);
        op := FinalizeOp(jobs, id, owner, o, t.jitter, t.now);
      }
    case Plain(result) =>
      CompleteErrors(jobs, id, owner, result, t.at, t.now);
      if Complete(jobs, id, owner, result, t.at, t.now).1 == Err(InvalidTransition) {
        op := GiveBackOp(jobs, id, owner, policy, "handler_failed", t.laterJitter, t.laterAt, t.later);
      } else {
        op := Some(DoComplete(id, owner, result, t.at, t.now));
      }
    case Raised => op := GiveBackOp(jobs, id, owner, policy, "handler_failed", t.laterJitter, t.laterAt, t.later);
    case _ => op := None;
  }

  lemma FinalizeOp(jobs: Jobs, id: nat, owner: string, o: HandlerOutcome, jitter: int, now: int) returns (op: Option<Op>)
    ensures Finalize(jobs, id, owner, o, jitter, now).0 == if op.Some? then Apply(jobs, op.value) else jobs
    ensures op.Some? ==> op.value.DoWrite? && op.value.id == id
    ensures op.Some? && op.value.change.decision == Done ==> o.kind == Success && op.value.change.result == o.result
  {
    hide Changed, Holds;
    match Read(jobs, id, owner, o, jitter, now)
    case Ok(c) => op := Some(DoWrite(id, owner, c));
    case Err(_) => op := None;
  }

  lemma GiveBackOp(jobs: Jobs, id: nat, owner: string, policy: Option<Policy>, code: string, jitter: int, at: int, now: int)
    returns (op: Option<Op>)
    ensures GiveBack(jobs, id, owner, policy, code, jitter, at, now).0 == if op.Some? then Apply(jobs, op.value) else jobs
    ensures op.Some? ==> (op.value.DoWrite? || op.value.DoFail?) && op.value.id == id
    ensures op.Some? && op.value.DoWrite? ==> op.value.change.decision != Done
  {
    if policy.Some? {
      op := FinalizeOp(jobs, id, owner, HandlerOutcome(Temporary, map[], code, None), jitter, now);
    } else {
      op := Some(DoFail(id, owner, code, at, now));
    }
  }

  /** A claim followed by the worker's conclusion: where the job stands when the lease lasted. */
  lemma ConclusionOf(jobs: Jobs, id: nat, owner: string, reaction: Reaction, t: Readings)
    requires Holds(jobs, id, owner, t.now) && Holds(jobs, id, owner, t.later)
    requires !reaction.LostLease? && !reaction.Unavailable?
    ensures var j, p := Conclude(jobs, id, owner, jobs[id].policy, reaction, t)[id], jobs[id].policy;
            var success := reaction.Plain? || (reaction.Classified? && reaction.outcome.kind == Success);
            var permanent := reaction.Classified? && reaction.outcome.kind == Permanent;
            && (j.state == Completed <==> success)
            && (permanent ==> j.state == Blocked)
            && (!success && !permanent && p.Some? ==>
                  (if jobs[id].attempts > p.value.retryLimit then j.state == Blocked && j.blockedReason == "retry_exhausted"
                   else j.state == Queued))
            && (!success && !permanent && p.None? ==>
                  (if reaction.Classified? then j.state == Blocked && j.blockedReason == "policy_required"
                   else j.state == Queued))
            && j.attempts == jobs[id].attempts && j.state != Running
  {
  }

  // ---------- the engine over a mutable table ----------

  function ExpiredCount(jobs: Jobs, now: int): nat {
    if jobs == [] then 0
    else ExpiredCount(jobs[..|jobs| - 1], now) + (if Expired(jobs[|jobs| - 1], now) then 1 else 0)
  }

  function DueCount(jobs: Jobs, now: int): nat {
    if jobs == [] then 0
    else DueCount(jobs[..|jobs| - 1], now) + (if Due(jobs[|jobs| - 1], now) then 1 else 0)
  }

  class Engine {
    const leaseDuration: nat
    var jobs: Jobs

    constructor (duration: nat)
      requires duration > 0
      ensures leaseDuration == duration && jobs == []
    {
      leaseDuration, jobs := duration, [];
    }

    method Enqueue(r: Request, now: int) returns (answer: Result<nat, Error>)
      modifies this`jobs
      ensures (jobs, answer) == JobEngine.Enqueue(old(jobs), r, now)
    {
      if !ValidRequest(r, now) {
        return Err(InvalidArgument);
      }
      var existing := ActiveFor(jobs, r.key);
      if existing.Some? {
        return Ok(existing.value);
      }
      if Taken(jobs, r.key) {
        return Err(KeyUnresolved);
      }
      var due := if r.scheduledAt.Some? then r.scheduledAt.value else now;
      jobs := jobs + [Job(
        jobType := r.jobType, target := r.target, payload := r.payload, priority := r.priority, key := r.key,
        policy := r.policy, scheduledAt := due, attempts := 0, state := Queued, lease := None, result := None, error := "",
        lastOutcome := None, cooldownUntil := None, blockedAt := None, blockedReason := "", completedAt := None)];
      return Ok(|jobs| - 1);
    }

    /** The bulk update of expired leases. */
    method ReclaimExpired(now: int) returns (count: nat)
      modifies this`jobs
      ensures jobs == Reclaim(old(jobs), now) && count == ExpiredCount(old(jobs), now)
    {
      count := 0;
      ghost var before := jobs;
      for i := 0 to |jobs|
        invariant |jobs| == |before|
        invariant forall k | 0 <= k < i :: jobs[k] == Requeued(before[k], now)
        invariant forall k | i <= k < |before| :: jobs[k] == before[k]
        invariant count == ExpiredCount(before[..i], now)
      {
        assert before[..i + 1][..i] == before[..i];
        var job := jobs[i];
        if Expired(job, now) {
          job := job.(state := Queued, scheduledAt := now);
          job := job.(lease := None, error := "lease_expired");
          jobs := jobs[i := job];
          count := count + 1;
        }
      }
      assert before[..|before|] == before;
    }

    method Recover(now: int) returns (reclaimed: nat, due: nat)
      modifies this`jobs
      ensures jobs == Reclaim(old(jobs), now)
      ensures reclaimed == ExpiredCount(old(jobs), now) && due == DueCount(jobs, now)
    {
      reclaimed := ReclaimExpired(now);
      due := 0;
      for i := 0 to |jobs|
        invariant due == DueCount(jobs[..i], now)
      {
        assert jobs[..i + 1][..i] == jobs[..i];
        if Due(jobs[i], now) {
          due := due + 1;
        }
      }
      assert jobs[..|jobs|] == jobs;
    }

    method Claim(owner: string, now: int, locked: set<nat>) returns (r: Result<Option<nat>, Error>)
      modifies this`jobs
      ensures (jobs, r) == JobEngine.Claim(old(jobs), owner, now, leaseDuration, locked)
    {
      hide Due, Reclaim;
      if !Named(owner) {
        return Err(InvalidArgument);
      }
      var _ := ReclaimExpired(now);
      var best: Option<nat> := None;
      for i := 0 to |jobs|
        invariant best == FirstDue(jobs[..i], now, locked)
      {
        assert jobs[..i + 1][..i] == jobs[..i];
        if i !in locked && Due(jobs[i], now) {
          if best.None? || Before(jobs, i, best.value) {
            best := Some(i);
          }
        }
      }
      assert jobs[..|jobs|] == jobs;
      if best.Some? {
        var job := jobs[best.value];
        job := job.(state := Running, lease := Some(Lease(owner, now, now + leaseDuration)));
        jobs := jobs[best.value := job.(attempts := job.attempts + 1)];
      }
      return Ok(best);
    }

    method Renew(id: nat, owner: string, at: int, now: int) returns (r: Result<(), Error>)
      modifies this`jobs
      ensures (jobs, r) == JobEngine.Renew(old(jobs), id, owner, at, now, leaseDuration)
    {
      if !Holds(jobs, id, owner, now) {
        return Err(Refusal(jobs, id));
      }
      var lease := jobs[id].lease.value;
      jobs := jobs[id := jobs[id].(lease := Some(lease.(expiresAt := at + leaseDuration)))];
      return Ok(());
    }

    method Complete(id: nat, owner: string, result: SafeMap, at: int, now: int) returns (r: Result<(), Error>)
      modifies this`jobs
      ensures (jobs, r) == JobEngine.Complete(old(jobs), id, owner, result, at, now)
    {
      if !Holds(jobs, id, owner, now) {
        return Err(Refusal(jobs, id));
      }
      var job := jobs[id];
      job := job.(state := Completed, lease := None, completedAt := Some(at));
      job := job.(result := Some(result), error := "", lastOutcome := Some(Success));
      job := job.(cooldownUntil := None, blockedAt := None, blockedReason := "");
      jobs := jobs[id := job];
      return Ok(());
    }

    method Fail(id: nat, owner: string, code: string, due: int, now: int) returns (r: Result<(), Error>)
      modifies this`jobs
      ensures (jobs, r) == JobEngine.Fail(old(jobs), id, owner, code, due, now)
    {
      if !Holds(jobs, id, owner, now) {
        return Err(Refusal(jobs, id));
      }
      var job := jobs[id];
      job := job.(state := Queued, scheduledAt := due, lease := None, completedAt := None);
      job := job.(result := None, error := SafeError(code), lastOutcome := Some(Temporary));
      job := job.(cooldownUntil := None, blockedAt := None, blockedReason := "");
      jobs := jobs[id := job];
      return Ok(());
    }

    /** The unlocked read, the decision, and the conditional update. */
    method Finalize(id: nat, owner: string, o: HandlerOutcome, jitter: int, now: int) returns (r: Result<(), Error>)
      modifies this`jobs
      ensures (jobs, r) == JobEngine.Finalize(old(jobs), id, owner, o, jitter, now)
    {
      hide Changed, Decide;
      if !Holds(jobs, id, owner, now) {
        return Err(Refusal(jobs, id));
      }
      DecideNow(jobs[id], o, jitter, now);
      var decided := Choose(jobs[id], o, jitter, now);
      match decided
      case Err(e) => return Err(e);
      case Ok(c) =>
        var job := AssignFields(jobs[id], c);
        jobs := jobs[id := job];
        return Ok(());
    }

    /** The field assignments of a finalize. */
    static method AssignFields(row: Job, c: Change) returns (job: Job)
      ensures job == Changed(row, c)
    {
      job := row.(result := Some(c.result), error := c.error, lastOutcome := Some(c.kind), lease := None);
      job := job.(cooldownUntil := None, blockedAt := None, blockedReason := "");
      match c.decision {
        case Done => job := job.(state := Completed, completedAt := Some(c.now));
        case Halt(reason) =>
          job := job.(state := Blocked, completedAt := None, blockedAt := Some(c.now), blockedReason := reason);
        case Again(due, cooldown) =>
          job := job.(state := Queued, scheduledAt := due, completedAt := None);
          if cooldown {
            job := job.(cooldownUntil := Some(due));
          }
      }
    }

    /** The branches of `finalize` on the row it read. */
    static method Choose(job: Job, o: HandlerOutcome, jitter: int, now: int) returns (r: Result<Change, Error>)
      ensures r == Decide(job, o, jitter, now)
    {
      var c := Change(Done, o.kind, o.result, ErrorCode(o), now);
      if o.kind == Permanent {
        c := c.(decision := Halt(c.error));
      } else if o.kind != Success {
        if job.policy.None? {
          c := c.(decision := Halt("policy_required"), error := "policy_required");
        } else if job.attempts > job.policy.value.retryLimit {
          c := c.(decision := Halt("retry_exhausted"), error := "retry_exhausted");
        } else {
          var due := now + RetryDelay(job.attempts, job.policy.value, jitter);
          if o.kind == Cooldown {
            var until := CooldownDue(o, job.policy.value, now);
            if until.None? {
              return Err(InvalidTransition);
            }
            due := until.value;
          }
          c := c.(decision := Again(due, o.kind == Cooldown));
        }
      }
      return Ok(c);
    }

    method ReturnJob(id: nat, owner: string, policy: Option<Policy>, code: string, jitter: int, at: int, now: int)
      returns (r: Result<(), Error>)
      modifies this`jobs
      ensures (jobs, r) == GiveBack(old(jobs), id, owner, policy, code, jitter, at, now)
    {
      if policy.Some? {
        r := Finalize(id, owner, HandlerOutcome(Temporary, map[], code, None), jitter, now);
      } else {
        r := Fail(id, owner, code, at, now);
      }
    }

    /** `process_one` after the handler has run. */
    method Settle(id: nat, owner: string, policy: Option<Policy>, reaction: Reaction, t: Readings)
      modifies this`jobs
      ensures jobs == Conclude(old(jobs), id, owner, policy, reaction, t)
    {
      hide JobEngine.Finalize, GiveBack, JobEngine.Complete;
      var r: Result<(), Error> := Ok(());
      match reaction {
        case NotRegistered => r := ReturnJob(id, owner, policy, "handler_not_registered", t.jitter, t.at, t.now);
        case Classified(o) =>
          FinalizeErrors(jobs, id, owner, o, t.jitter, t.now);
          r := Finalize(id, owner, o, t.jitter, t.now);
        case Plain(result) =>
          CompleteErrors(jobs, id, owner, result, t.at, t.now);
          r := Complete(id, owner, result, t.at, t.now);
        case Raised => r := Err(InvalidTransition);
        case LostLease =>
        case Unavailable =>
      }
      if !reaction.NotRegistered? && r == Err(InvalidTransition) {
        r := ReturnJob(id, owner, policy, "handler_failed", t.laterJitter, t.laterAt, t.later);
      }
    }
  }

  lemma CompleteErrors(jobs: Jobs, id: nat, owner: string, result: SafeMap, at: int, now: int)
    ensures var (t, r) := Complete(jobs, id, owner, result, at, now);
            r.Err? ==> t == jobs && (r.error == LeaseLost || r.error == InvalidTransition)
  {
  }
}
