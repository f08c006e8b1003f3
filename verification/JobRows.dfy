/** What each transaction of the engine leaves of a row, column by column, and exactly when it is refused. */
module JobRows {
  import opened Options
  import opened JobEngine
  import W = JobWorkers

  // ---------- enqueue, reclaim, claim ----------

  /** A key without an open or blocked row gets a queued row with no trace of an attempt; otherwise
      nothing changes. An unusable request is refused, and so is a key that only blocked rows hold. */
  lemma EnqueuedRow(jobs: Jobs, r: Request, now: int)
    ensures var (t, answer) := Enqueue(jobs, r, now);
            var due := if r.scheduledAt.Some? then r.scheduledAt.value else now;
            var unusable := r.jobType == "" || r.target == "" || r.key == ""
                            || (r.policy.Some? && due < r.policy.value.validFrom)
                            || (r.policy.Some? && r.policy.value.validUntil.Some? && r.policy.value.validUntil.value <= due);
            && (answer == Err(InvalidArgument) <==> unusable)
            && (answer.Err? ==> t == jobs)
            && (!unusable ==>
                  if forall i | 0 <= i < |jobs| :: jobs[i].key == r.key ==> jobs[i].state == Completed then
                    && answer == Ok(|jobs|)
                    && t == jobs + [Job(r.jobType, r.target, r.payload, r.priority, r.key, r.policy, due, 0, Queued, None,
                                        None, "", None, None, None, "", None)]
                  else
                    && t == jobs
                    && match answer
                       case Ok(i) => i < |jobs| && jobs[i].key == r.key && (jobs[i].state == Queued || jobs[i].state == Running)
                       case Err(e) => e == KeyUnresolved && forall i | 0 <= i < |jobs| && jobs[i].key == r.key ::
                                                              jobs[i].state == Completed || jobs[i].state == Blocked)
  {
  }

  /** A lease that has run out at `now` is given back: queued for now, without lease, marked, and at the
      same attempt. No other row changes. */
  predicate GivenBack(a: Job, b: Job, now: int) {
    if a.state == Running && a.lease.Some? && a.lease.value.expiresAt <= now
    then b == a.(state := Queued, scheduledAt := now, lease := None, error := "lease_expired") else b == a
  }

  lemma ReclaimedRows(jobs: Jobs, now: int)
    ensures var t := Reclaim(jobs, now); |t| == |jobs| && forall i | 0 <= i < |jobs| :: GivenBack(jobs[i], t[i], now)
  {
  }

  /** A claim gives back what has run out and leases at most one row, to the caller, for the lease
      duration, one attempt further. A blank owner is refused. */
  lemma ClaimedRows(jobs: Jobs, owner: string, now: int, duration: nat, locked: set<nat>)
    ensures var (t, r) := Claim(jobs, owner, now, duration, locked);
            && (r.Err? <==> forall i | 0 <= i < |owner| :: owner[i] == ' ')
            && (r.Err? ==> t == jobs && r.error == InvalidArgument)
            && |t| == |jobs|
            && (r.Ok? ==>
                  && (forall i | 0 <= i < |jobs| && r.value != Some(i) :: GivenBack(jobs[i], t[i], now))
                  && (r.value.Some? ==>
                        var i := r.value.value;
                        && i < |jobs| && i !in locked && LeasedTo(jobs[i], t[i], owner, now, duration)
                        && forall j | 0 <= j < |t| && j != i && j !in locked && t[j].state == Queued
                            && t[j].scheduledAt <= now :: First(t, i, j))
                  && (r.value.None? ==> forall j | 0 <= j < |t| && j !in locked && t[j].state == Queued :: t[j].scheduledAt > now))
  {
    var (t, r) := Claim(jobs, owner, now, duration, locked);
    ClaimOrder(jobs, owner, now, duration, locked);
    if r.Ok? && r.value.Some? {
      var i := r.value.value;
      assert GivenBack(jobs[i], Reclaim(jobs, now)[i], now);
    }
  }

  /** Row `i` goes before row `j`: higher priority, else earlier schedule, else earlier creation. */
  predicate First(jobs: Jobs, i: nat, j: nat)
    requires i < |jobs| && j < |jobs|
  {
    if jobs[i].priority != jobs[j].priority then jobs[i].priority > jobs[j].priority
    else if jobs[i].scheduledAt != jobs[j].scheduledAt then jobs[i].scheduledAt < jobs[j].scheduledAt
    else i < j
  }

  lemma ClaimOrder(jobs: Jobs, owner: string, now: int, duration: nat, locked: set<nat>)
    ensures var (t, r) := Claim(jobs, owner, now, duration, locked);
            r.Ok? ==>
              && (r.value.Some? ==>
                    && r.value.value < |t|
                    && forall j | 0 <= j < |t| && j != r.value.value && j !in locked && t[j].state == Queued && t[j].scheduledAt <= now ::
                         First(t, r.value.value, j))
              && (r.value.None? ==> forall j | 0 <= j < |t| && j !in locked && t[j].state == Queued :: t[j].scheduledAt > now)
  {
    var (t, r) := Claim(jobs, owner, now, duration, locked);
    if r.Ok? {
      var open := Reclaim(jobs, now);
      forall j | 0 <= j < |t| && j !in locked && t[j].state == Queued && t[j].scheduledAt <= now && r.value != Some(j)
        ensures Eligible(open, j, now, locked)
      {
      }
    }
  }

  ghost predicate LeasedTo(a: Job, b: Job, owner: string, now: int, duration: nat) {
    exists open: Job ::
      && GivenBack(a, open, now) && open.state == Queued && open.scheduledAt <= now
      && b == open.(state := Running, lease := Some(Lease(owner, now, now + duration)), attempts := a.attempts + 1)
  }

  predicate HasRunOut(j: Job, now: int) {
    j.state == Running && j.lease.Some? && j.lease.value.expiresAt <= now
  }

  predicate IsDue(j: Job, now: int) {
    j.state == Queued && j.scheduledAt <= now
  }

  function RowsThat(jobs: Jobs, holds: Job -> bool, n: nat): set<nat>
    requires n <= |jobs|
  {
    set i: nat | i < n && holds(jobs[i])
  }

  lemma OneMoreRow(jobs: Jobs, holds: Job -> bool, n: nat)
    requires 0 < n <= |jobs|
    ensures |RowsThat(jobs, holds, n)| == |RowsThat(jobs, holds, n - 1)| + if holds(jobs[n - 1]) then 1 else 0
  {
    var before := RowsThat(jobs, holds, n - 1);
    assert RowsThat(jobs, holds, n) == if holds(jobs[n - 1]) then before + {n - 1} else before;
  }

  /** What `reclaim_expired` and `recover` report: the rows whose lease has run out, and the rows that are due. */
  lemma {:induction false} CountsExactly(jobs: Jobs, now: int, n: nat)
    requires n <= |jobs|
    ensures W.ExpiredCount(jobs[..n], now) == |RowsThat(jobs, j => HasRunOut(j, now), n)|
    ensures W.DueCount(jobs[..n], now) == |RowsThat(jobs, j => IsDue(j, now), n)|
  {
    hide RowsThat;
    if n == 0 {
      NoRows(jobs, j => HasRunOut(j, now));
      NoRows(jobs, j => IsDue(j, now));
    } else {
      CountsExactly(jobs, now, n - 1);
      assert jobs[..n][..n - 1] == jobs[..n - 1];
      OneMoreRow(jobs, j => HasRunOut(j, now), n);
      OneMoreRow(jobs, j => IsDue(j, now), n);
    }
  }

  lemma NoRows(jobs: Jobs, holds: Job -> bool)
    ensures RowsThat(jobs, holds, 0) == {}
  {
  }

  // ---------- the calls of a lease holder ----------

  /** The job runs under this owner's lease, which has not run out. */
  predicate Live(jobs: Jobs, id: nat, owner: string, now: int) {
    && id < |jobs| && jobs[id].state == Running && jobs[id].lease.Some?
    && jobs[id].lease.value.owner == owner && now < jobs[id].lease.value.expiresAt
  }

  /** A refused call changes nothing and says whether the job still runs. */
  predicate RefusedCall(jobs: Jobs, id: nat, t: Jobs, r: Result<(), Error>) {
    t == jobs && r == Err(if id < |jobs| && jobs[id].state == Running then LeaseLost else InvalidTransition)
  }

  predicate Sets(jobs: Jobs, id: nat, t: Jobs, r: Result<(), Error>, row: Job) {
    id < |jobs| && t == jobs[id := row] && r == Ok(())
  }

  /** A row without lease and time marks. */
  function Bare(j: Job): Job {
    j.(lease := None, cooldownUntil := None, blockedAt := None, blockedReason := "", completedAt := None)
  }

  lemma RenewedRow(jobs: Jobs, id: nat, owner: string, at: int, now: int, duration: nat)
    ensures var (t, r) := Renew(jobs, id, owner, at, now, duration);
            if Live(jobs, id, owner, now) then
              Sets(jobs, id, t, r, jobs[id].(lease := Some(Lease(owner, jobs[id].lease.value.issuedAt, at + duration))))
            else RefusedCall(jobs, id, t, r)
  {
  }

  lemma CompletedRow(jobs: Jobs, id: nat, owner: string, result: SafeMap, at: int, now: int)
    ensures var (t, r) := Complete(jobs, id, owner, result, at, now);
            if Live(jobs, id, owner, now) then
              Sets(jobs, id, t, r,
                   Bare(jobs[id]).(state := Completed, result := Some(result), error := "",
                       lastOutcome := Some(Success), completedAt := Some(at)))
            else RefusedCall(jobs, id, t, r)
  {
  }

  lemma FailedRow(jobs: Jobs, id: nat, owner: string, code: string, due: int, now: int)
    ensures var (t, r) := Fail(jobs, id, owner, code, due, now);
            if Live(jobs, id, owner, now) then
              Sets(jobs, id, t, r,
                   Bare(jobs[id]).(state := Queued, scheduledAt := due, result := None,
                                   error := if IsSafeError(code) then code else "handler_failed", lastOutcome := Some(Temporary)))
            else RefusedCall(jobs, id, t, r)
  {
  }

  // ---------- finalize ----------

  /** The error column: the outcome's own code, or its kind when it names none, unless that is unsafe. */
  predicate CodeOf(o: HandlerOutcome, code: string) {
    code == if o.errorCode != "" then (if IsSafeError(o.errorCode) then o.errorCode else "handler_failed")
            else match o.kind
                 case Success => "success" case Temporary => "temporary" case Cooldown => "cooldown"
                 case Permanent => "permanent" case Partial => "partial"
  }

  /** A safe code is up to 64 lower-case letters, digits and three marks, and starts with a letter. */
  lemma SafeExactly(s: string)
    ensures IsSafeError(s) <==>
              && 0 < |s| <= 64 && 'a' <= s[0] <= 'z'
              && forall i | 0 < i < |s| :: 'a' <= s[i] <= 'z' || s[i] in "0123456789" || s[i] == '_' || s[i] == '.' || s[i] == '-'
  {
  }

  lemma CodeIs(o: HandlerOutcome)
    ensures CodeOf(o, ErrorCode(o))
  {
  }

  /** The deadline of a cooldown: the one the outcome names, else the policy's from now on. */
  function Deadline(o: HandlerOutcome, p: Policy, now: int): Option<int> {
    if o.cooldownUntil.Some? then o.cooldownUntil else if p.cooldown == 0 then None else Some(now + p.cooldown)
  }

  /** `finalize`, by kind of outcome. A success completes; a permanent failure blocks; anything else blocks
      without a policy or beyond its retry limit. Within the limit a cooldown waits for its deadline, and is
      refused when that is missing or not in the future; a temporary or partial result waits for the retry
      delay. The row has the outcome's result, kind and code, and nothing else of it changes. */
  lemma FinalizedExactly(jobs: Jobs, id: nat, owner: string, o: HandlerOutcome, jitter: int, now: int)
    ensures var (t, r) := Finalize(jobs, id, owner, o, jitter, now);
            if !Live(jobs, id, owner, now) then RefusedCall(jobs, id, t, r)
            else
              var (j, p) := (jobs[id], jobs[id].policy);
              var row := Bare(j).(result := Some(o.result), lastOutcome := Some(o.kind), error := ErrorCode(o));
              var halted := row.(state := Blocked, blockedAt := Some(now));
              if o.kind == Success then Sets(jobs, id, t, r, row.(state := Completed, completedAt := Some(now)))
              else if o.kind == Permanent then Sets(jobs, id, t, r, halted.(blockedReason := ErrorCode(o)))
              else if p.None? then Sets(jobs, id, t, r, halted.(blockedReason := "policy_required", error := "policy_required"))
              else if j.attempts > p.value.retryLimit then
                Sets(jobs, id, t, r, halted.(blockedReason := "retry_exhausted", error := "retry_exhausted"))
              else if o.kind != Cooldown then
                Sets(jobs, id, t, r, row.(state := Queued, scheduledAt := now + RetryDelay(j.attempts, p.value, jitter)))
              else
                var due := Deadline(o, p.value, now);
                if due.None? || due.value <= now then t == jobs && r == Err(InvalidTransition)
                else Sets(jobs, id, t, r, row.(state := Queued, scheduledAt := due.value, cooldownUntil := due))
  {
    hide ErrorCode, RetryDelay;
  }

  /** Without jitter the delay starts at the initial one and doubles with each attempt, up to the cap. */
  lemma DelayDoubles(n: nat, p: Policy)
    requires n >= 1
    ensures RetryDelay(0, p, 0) == p.initial && RetryDelay(1, p, 0) == p.initial
    ensures RetryDelay(n + 1, p, 0) == Min(p.cap, 2 * RetryDelay(n, p, 0))
  {
    assert Pow2(0) == 1 && Pow2(n) == 2 * Pow2(n - 1);
    Twice(p.initial, Pow2(n - 1));
  }

  lemma Twice(a: nat, b: nat)
    ensures a * (2 * b) == 2 * (a * b)
  {
  }

  /** Jitter shifts the delay by itself, limited to the policy's jitter and to the range from 0 to the cap. */
  lemma DelayJitter(n: nat, p: Policy, jitter: int)
    ensures var shift: int := if jitter > p.jitter then p.jitter else if jitter < 0 - p.jitter then 0 - p.jitter else jitter;
            var d := RetryDelay(n, p, 0) + shift;
            RetryDelay(n, p, jitter) == if d < 0 then 0 else if d > p.cap then p.cap else d
  {
    hide Base;
  }

  // ---------- process_one ----------

  /** What a worker does after the handler. A result is completed or finalized; a handler that is missing or
      raised, and an outcome or result the engine refuses for another reason than a lost lease, give the
      job back as a temporary failure with its own code, or by `fail` when it has no policy. A lost lease
      or database ends the call. */
  lemma ConcludedExactly(jobs: Jobs, id: nat, owner: string, policy: Option<Policy>, reaction: W.Reaction, t: W.Readings)
    ensures var u := W.Conclude(jobs, id, owner, policy, reaction, t);
            var back := if policy.Some? then Finalize(jobs, id, owner, HandlerOutcome(Temporary, map[],
                "handler_failed", None), t.laterJitter, t.later).0
                        else Fail(jobs, id, owner, "handler_failed", t.laterAt, t.later).0;
            match reaction
            case LostLease | Unavailable => u == jobs
            case Raised => u == back
            case NotRegistered =>
              u == if policy.Some? then Finalize(jobs, id, owner, HandlerOutcome(Temporary, map[],
                  "handler_not_registered", None), t.jitter, t.now).0
                   else Fail(jobs, id, owner, "handler_not_registered", t.at, t.now).0
            case Classified(o) =>
              var (v, r) := Finalize(jobs, id, owner, o, t.jitter, t.now); u == if r == Err(InvalidTransition) then back else v
            case Plain(result) =>
              var (v, r) := Complete(jobs, id, owner, result, t.at, t.now); u == if r == Err(InvalidTransition) then back else v
  {
    hide Finalize, Fail, Complete;
    match reaction
    case Classified(o) => W.FinalizeErrors(jobs, id, owner, o, t.jitter, t.now);
    case Plain(result) => W.CompleteErrors(jobs, id, owner, result, t.at, t.now);
    case _ =>
  }
}
