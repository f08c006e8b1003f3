/** The durable job table and one function per transaction of `JobEngine`. Rows are append-only; a job's
    id is its index, which is also its creation order. Clock readings are arguments. */
module JobEngine {
  import opened Options

  datatype State = Queued | Running | Completed | Blocked

  datatype Kind = Success | Temporary | Cooldown | Permanent | Partial

  datatype Value = Null | Flag(flag: bool) | Number(number: int) | Text(text: string)

  type SafeMap = map<string, Value>

  /** A published retry policy; the bounds are the row constraints of the policy table. */
  datatype PolicyRow = PolicyRow(
    validFrom: int, validUntil: Option<int>, retryLimit: nat, initial: nat, cap: nat, jitter: nat, cooldown: nat)

  type Policy = p: PolicyRow | 0 < p.initial <= p.cap && (p.validUntil.Some? ==> p.validFrom < p.validUntil.value)
    witness PolicyRow(0, None, 3, 1, 3600, 0, 0)

  datatype Lease = Lease(owner: string, issuedAt: int, expiresAt: int)

  datatype Job = Job(
    jobType: string, target: string, payload: SafeMap, priority: int, key: string, policy: Option<Policy>,
    scheduledAt: int, attempts: nat, state: State, lease: Option<Lease>,
    result: Option<SafeMap>, error: string, lastOutcome: Option<Kind>,
    cooldownUntil: Option<int>, blockedAt: Option<int>, blockedReason: string, completedAt: Option<int>)

  type Jobs = seq<Job>

  datatype Request = Request(
    jobType: string, target: string, payload: SafeMap, key: string, priority: int,
    scheduledAt: Option<int>, policy: Option<Policy>)

  datatype HandlerOutcome = HandlerOutcome(kind: Kind, result: SafeMap, errorCode: string, cooldownUntil: Option<int>)

  datatype Error = InvalidArgument | KeyUnresolved | InvalidTransition | LeaseLost

  // ---------- enqueue ----------

  /** The active row of an idempotency key. */
  function ActiveFor(jobs: Jobs, key: string): (r: Option<nat>)
    ensures r.Some? ==> r.value < |jobs| && jobs[r.value].key == key && Active(jobs[r.value])
    ensures r.None? ==> forall i | 0 <= i < |jobs| :: !(jobs[i].key == key && Active(jobs[i]))
  {
    if jobs == [] then None
    else
      match ActiveFor(jobs[..|jobs| - 1], key)
      case Some(i) => Some(i)
      case None =>
        var last := jobs[|jobs| - 1];
        if last.key == key && Active(last) then Some(|jobs| - 1) else None
  }

  predicate Active(j: Job) { j.state == Queued || j.state == Running }

  /** The partial unique constraint: a key is taken by any row that is not completed. */
  predicate Taken(jobs: Jobs, key: string) {
    exists i | 0 <= i < |jobs| :: jobs[i].key == key && jobs[i].state != Completed
  }

  predicate ValidRequest(r: Request, now: int) {
    && r.jobType != "" && r.target != "" && r.key != ""
    && (r.policy.Some? ==> CoversTime(r.policy.value, DueAt(r, now)))
  }

  function DueAt(r: Request, now: int): int {
    if r.scheduledAt.Some? then r.scheduledAt.value else now
  }

  predicate CoversTime(p: PolicyRow, at: int) {
    p.validFrom <= at && (p.validUntil.Some? ==> at < p.validUntil.value)
  }

  function NewJob(r: Request, now: int): Job {
    Job(r.jobType, r.target, r.payload, r.priority, r.key, r.policy, DueAt(r, now), 0, Queued, None,
        None, "", None, None, None, "", None)
  }

  /** `enqueue`: the active row of the key, or a new row; a key held by a blocked row stays unresolved. */
  function Enqueue(jobs: Jobs, r: Request, now: int): (Jobs, Result<nat, Error>) {
    if !ValidRequest(r, now) then (jobs, Err(InvalidArgument))
    else
      match ActiveFor(jobs, r.key)
      case Some(i) => (jobs, Ok(i))
      case None =>
        if Taken(jobs, r.key) then (jobs, Err(KeyUnresolved))
        else (jobs + [NewJob(r, now)], Ok(|jobs|))
  }

  // ---------- leases ----------

  predicate Expired(j: Job, now: int) {
    j.state == Running && j.lease.Some? && j.lease.value.expiresAt <= now
  }

  /** The row update of an expired lease; the retry limit is not consulted. */
  function Requeued(j: Job, now: int): Job {
    if Expired(j, now) then j.(state := Queued, scheduledAt := now, lease := None, error := "lease_expired") else j
  }

  function Reclaim(jobs: Jobs, now: int): (r: Jobs)
    ensures |r| == |jobs| && forall i | 0 <= i < |jobs| :: r[i] == Requeued(jobs[i], now)
  {
    seq(|jobs|, i requires 0 <= i < |jobs| => Requeued(jobs[i], now))
  }

  predicate Due(j: Job, now: int) { j.state == Queued && j.scheduledAt <= now }

  /** Rows locked by another transaction are skipped. */
  predicate Eligible(jobs: Jobs, i: nat, now: int, locked: set<nat>) {
    i < |jobs| && i !in locked && Due(jobs[i], now)
  }

  /** Claim order: priority descending, then schedule, then creation. */
  predicate Before(jobs: Jobs, i: nat, j: nat)
    requires i < |jobs| && j < |jobs|
  {
    var (a, b) := (jobs[i], jobs[j]);
    || a.priority > b.priority
    || (a.priority == b.priority && a.scheduledAt < b.scheduledAt)
    || (a.priority == b.priority && a.scheduledAt == b.scheduledAt && i < j)
  }

  function FirstDue(jobs: Jobs, now: int, locked: set<nat>): (r: Option<nat>)
    ensures r.Some? ==> Eligible(jobs, r.value, now, locked)
    ensures r.Some? ==> forall j: nat | Eligible(jobs, j, now, locked) && j != r.value :: Before(jobs, r.value, j)
    ensures r.None? ==> forall j: nat :: !Eligible(jobs, j, now, locked)
    decreases |jobs|
  {
    if jobs == [] then None
    else
      var n := |jobs| - 1;
      var best := FirstDue(jobs[..n], now, locked);
      assert forall j: nat :: Eligible(jobs, j, now, locked) ==> j == n || Eligible(jobs[..n], j, now, locked);
      if !Eligible(jobs, n, now, locked) then best
      else if best.None? || Before(jobs, n, best.value) then Some(n)
      else best
  }

  predicate Named(owner: string) {
    exists i | 0 <= i < |owner| :: owner[i] != ' '
  }

  function Claimed(j: Job, owner: string, now: int, duration: nat): Job {
    j.(state := Running, lease := Some(Lease(owner, now, now + duration)), attempts := j.attempts + 1)
  }

  /** `claim`: reclaim every expired lease, then lease the first due row. */
  function Claim(jobs: Jobs, owner: string, now: int, duration: nat, locked: set<nat>): (Jobs, Result<Option<nat>, Error>) {
    if !Named(owner) then (jobs, Err(InvalidArgument))
    else
      var open := Reclaim(jobs, now);
      match FirstDue(open, now, locked)
      case None => (open, Ok(None))
      case Some(i) => (open[i := Claimed(open[i], owner, now, duration)], Ok(Some(i)))
  }

  /** The condition of every conditional update: still running, still this owner, not yet expired. */
  predicate Holds(jobs: Jobs, id: nat, owner: string, now: int) {
    id < |jobs| && OwnedBy(jobs[id], owner) && jobs[id].lease.value.expiresAt > now
  }

  predicate OwnedBy(j: Job, owner: string) {
    j.state == Running && j.lease.Some? && j.lease.value.owner == owner
  }

  function Refusal(jobs: Jobs, id: nat): Error {
    if id < |jobs| && jobs[id].state == Running then LeaseLost else InvalidTransition
  }

  /** `renew`; `at` is the clock reading of the new expiry, `now` that of the update. */
  function Renew(jobs: Jobs, id: nat, owner: string, at: int, now: int, duration: nat): (Jobs, Result<(), Error>) {
    if !Holds(jobs, id, owner, now) then (jobs, Err(Refusal(jobs, id)))
    else (jobs[id := jobs[id].(lease := Some(jobs[id].lease.value.(expiresAt := at + duration)))], Ok(()))
  }

  function Complete(jobs: Jobs, id: nat, owner: string, result: SafeMap, at: int, now: int): (Jobs, Result<(), Error>) {
    if !Holds(jobs, id, owner, now) then (jobs, Err(Refusal(jobs, id)))
    else
      (jobs[id := jobs[id].(
          state := Completed, lease := None, result := Some(result), error := "", completedAt := Some(at),
          lastOutcome := Some(Success), cooldownUntil := None, blockedAt := None, blockedReason := "")], Ok(()))
  }

  /** `fail`: requeue at `due` whatever the attempt count. */
  function Fail(jobs: Jobs, id: nat, owner: string, code: string, due: int, now: int): (Jobs, Result<(), Error>) {
    if !Holds(jobs, id, owner, now) then (jobs, Err(Refusal(jobs, id)))
    else
      (jobs[id := jobs[id].(
          state := Queued, scheduledAt := due, lease := None, result := None, error := SafeError(code),
          completedAt := None, lastOutcome := Some(Temporary), cooldownUntil := None, blockedAt := None,
          blockedReason := "")], Ok(()))
  }

  // ---------- finalize: a decision on a row read without a lock, then a conditional update ----------

  predicate IsSafeError(s: string) {
    && 0 < |s| <= 64 && 'a' <= s[0] <= 'z'
    && forall i | 0 < i < |s| :: 'a' <= s[i] <= 'z' || '0' <= s[i] <= '9' || s[i] in "_.-"
  }

  function SafeError(s: string): string {
    if IsSafeError(s) then s else "handler_failed"
  }

  function KindText(k: Kind): string {
    match k
    case Success => "success" case Temporary => "temporary" case Cooldown => "cooldown"
    case Permanent => "permanent" case Partial => "partial"
  }

  function ErrorCode(o: HandlerOutcome): string {
    SafeError(if o.errorCode != "" then o.errorCode else KindText(o.kind))
  }

  function Pow2(n: nat): (r: nat)
    ensures r > 0
  {
    if n == 0 then 1 else 2 * Pow2(n - 1)
  }

  function Min(a: int, b: int): int { if a <= b then a else b }

  function Max(a: int, b: int): int { if a >= b then a else b }

  /** The capped exponential part of the delay after the given number of attempts. */
  function Base(attempts: nat, p: Policy): (r: nat)
    ensures r <= p.cap
  {
    Min(p.cap, p.initial * Pow2(Max(0, attempts - 1)))
  }

  /** `_retry_delay`, given what the jitter source returned. */
  function RetryDelay(attempts: nat, p: Policy, jitter: int): (r: int)
    ensures 0 <= r <= p.cap
    ensures 0 - p.jitter <= r - Base(attempts, p) <= p.jitter
    ensures p.jitter == 0 ==> r == Base(attempts, p)
  {
    var clamped := Max(0 - p.jitter, Min(p.jitter, jitter));
    Min(p.cap, Max(0, Base(attempts, p) + clamped))
  }

  /** `_cooldown_due`. */
  function CooldownDue(o: HandlerOutcome, p: Policy, now: int): (r: Option<int>)
    ensures r.Some? ==> r.value > now
    ensures o.cooldownUntil.Some? ==> r == if o.cooldownUntil.value > now then o.cooldownUntil else None
    ensures o.cooldownUntil.None? ==> (r.Some? <==> p.cooldown > 0) && (r.Some? ==> r.value - now == p.cooldown)
  {
    var due := if o.cooldownUntil.None? && p.cooldown > 0 then Some(now + p.cooldown) else o.cooldownUntil;
    if due.None? || due.value <= now then None else due
  }

  datatype Decision =
    | Done
    | Halt(reason: string)
    | Again(dueAt: int, cooldown: bool)

  /** The fields a finalize writes, and the clock reading of its lease check. */
  datatype Change = Change(decision: Decision, kind: Kind, result: SafeMap, error: string, now: int)

  /** What a finalize decides for a row; `Err` is the cooldown without a future deadline. */
  function Decide(j: Job, o: HandlerOutcome, jitter: int, now: int): Result<Change, Error> {
    var code := ErrorCode(o);
    match o.kind
    case Success => Ok(Change(Done, Success, o.result, code, now))
    case Permanent => Ok(Change(Halt(code), Permanent, o.result, code, now))
    case _ =>
      if j.policy.None? then Ok(Change(Halt("policy_required"), o.kind, o.result, "policy_required", now))
      else if j.attempts > j.policy.value.retryLimit then
        Ok(Change(Halt("retry_exhausted"), o.kind, o.result, "retry_exhausted", now))
      else if o.kind == Cooldown then
        match CooldownDue(o, j.policy.value, now)
        case Some(due) => Ok(Change(Again(due, true), o.kind, o.result, code, now))
        case None => Err(InvalidTransition)
      else Ok(Change(Again(now + RetryDelay(j.attempts, j.policy.value, jitter), false), o.kind, o.result, code, now))
  }

  function Changed(j: Job, c: Change): Job {
    var base := j.(result := Some(c.result), error := c.error, lastOutcome := Some(c.kind),
                   cooldownUntil := None, blockedAt := None, blockedReason := "", lease := None);
    match c.decision
    case Done => base.(state := Completed, completedAt := Some(c.now))
    case Halt(reason) => base.(state := Blocked, completedAt := None, blockedAt := Some(c.now), blockedReason := reason)
    case Again(due, cooldown) =>
      base.(state := Queued, scheduledAt := due, completedAt := None, cooldownUntil := if cooldown then Some(due) else None)
  }

  /** The first half of `finalize`: the unlocked read and its checks. */
  function Read(jobs: Jobs, id: nat, owner: string, o: HandlerOutcome, jitter: int, now: int): Result<Change, Error> {
    if Holds(jobs, id, owner, now) then Decide(jobs[id], o, jitter, now) else Err(Refusal(jobs, id))
  }

  /** The second half of `finalize`: the conditional update. */
  function Write(jobs: Jobs, id: nat, owner: string, c: Change): (Jobs, Result<(), Error>) {
    if Holds(jobs, id, owner, c.now) then (jobs[id := Changed(jobs[id], c)], Ok(())) else (jobs, Err(LeaseLost))
  }

  /** `finalize` without anything in between. */
  function Finalize(jobs: Jobs, id: nat, owner: string, o: HandlerOutcome, jitter: int, now: int): (Jobs, Result<(), Error>) {
    match Read(jobs, id, owner, o, jitter, now)
    case Ok(c) => Write(jobs, id, owner, c)
    case Err(e) => (jobs, Err(e))
  }

  // ---------- any interleaving of transactions, by any callers ----------

  datatype Op =
    | DoEnqueue(request: Request, now: int)
    | DoReclaim(now: int)
    | DoClaim(owner: string, now: int, duration: nat, locked: set<nat>)
    | DoRenew(id: nat, owner: string, at: int, now: int, duration: nat)
    | DoComplete(id: nat, owner: string, result: SafeMap, at: int, now: int)
    | DoFail(id: nat, owner: string, code: string, due: int, now: int)
    | DoWrite(id: nat, owner: string, change: Change)

  function Apply(jobs: Jobs, op: Op): Jobs {
    match op
    case DoEnqueue(r, now) => Enqueue(jobs, r, now).0
    case DoReclaim(now) => Reclaim(jobs, now)
    case DoClaim(owner, now, duration, locked) => Claim(jobs, owner, now, duration, locked).0
    case DoRenew(id, owner, at, now, duration) => Renew(jobs, id, owner, at, now, duration).0
    case DoComplete(id, owner, result, at, now) => Complete(jobs, id, owner, result, at, now).0
    case DoFail(id, owner, code, due, now) => Fail(jobs, id, owner, code, due, now).0
    case DoWrite(id, owner, change) => Write(jobs, id, owner, change).0
  }

  function Run(jobs: Jobs, ops: seq<Op>): Jobs {
    if ops == [] then jobs else Apply(Run(jobs, ops[..|ops| - 1]), ops[|ops| - 1])
  }

  /** A row holds a lease exactly while it runs; no two rows that are not completed share a key. */
  ghost predicate Good(jobs: Jobs) {
    && (forall i | 0 <= i < |jobs| :: LeaseOk(jobs[i]))
    && (forall i, j | 0 <= i < j < |jobs| :: !SameKey(jobs[i], jobs[j]))
  }

  predicate LeaseOk(j: Job) { j.lease.Some? <==> j.state == Running }

  predicate SameKey(a: Job, b: Job) {
    a.key == b.key && a.state != Completed && b.state != Completed
  }

  predicate Settled(j: Job) { j.state == Completed || j.state == Blocked }

  /** What no transaction changes about a row, and that completed and blocked are absorbing. */
  predicate Ages(a: Job, b: Job) {
    && b.jobType == a.jobType && b.target == a.target && b.payload == a.payload && b.priority == a.priority
    && b.key == a.key && b.policy == a.policy && a.attempts <= b.attempts
    && (Settled(a) ==> b == a)
  }

  ghost predicate AllAge(a: Jobs, b: Jobs) {
    |a| <= |b| && forall i | 0 <= i < |a| :: Ages(a[i], b[i])
  }

  lemma SetRow(jobs: Jobs, id: nat, row: Job)
    requires Good(jobs) && id < |jobs| && !Settled(jobs[id]) && Ages(jobs[id], row) && LeaseOk(row)
    ensures Good(jobs[id := row]) && AllAge(jobs, jobs[id := row])
  {
    var t := jobs[id := row];
    forall i, j | 0 <= i < j < |t| ensures !SameKey(t[i], t[j]) {
      assert !SameKey(jobs[i], jobs[j]);
    }
  }

  lemma ReclaimKeeps(jobs: Jobs, now: int)
    requires Good(jobs)
    ensures Good(Reclaim(jobs, now)) && AllAge(jobs, Reclaim(jobs, now))
    ensures forall i | 0 <= i < |jobs| :: !Expired(Reclaim(jobs, now)[i], now)
  {
    var t := Reclaim(jobs, now);
    forall i, j | 0 <= i < j < |t| ensures !SameKey(t[i], t[j]) {
      assert !SameKey(jobs[i], jobs[j]);
    }
  }

  lemma EnqueueKeeps(jobs: Jobs, r: Request, now: int)
    requires Good(jobs)
    ensures Good(Enqueue(jobs, r, now).0) && AllAge(jobs, Enqueue(jobs, r, now).0)
  {
    var t := Enqueue(jobs, r, now).0;
    if |t| > |jobs| {
      forall i, j | 0 <= i < j < |t| ensures !SameKey(t[i], t[j]) {
        assert j < |jobs| ==> !SameKey(jobs[i], jobs[j]);
      }
    }
  }

  lemma ClaimKeeps(jobs: Jobs, owner: string, now: int, duration: nat, locked: set<nat>)
    requires Good(jobs)
    ensures var t := Claim(jobs, owner, now, duration, locked).0; Good(t) && AllAge(jobs, t)
  {
    var open := Reclaim(jobs, now);
    ReclaimKeeps(jobs, now);
    match FirstDue(open, now, locked)
    case None =>
    case Some(i) => SetRow(open, i, Claimed(open[i], owner, now, duration));
  }

  lemma ApplyKeeps(jobs: Jobs, op: Op)
    requires Good(jobs)
    ensures Good(Apply(jobs, op)) && AllAge(jobs, Apply(jobs, op))
  {
    match op
    case DoEnqueue(r, now) => EnqueueKeeps(jobs, r, now);
    case DoReclaim(now) => ReclaimKeeps(jobs, now);
    case DoClaim(owner, now, duration, locked) => ClaimKeeps(jobs, owner, now, duration, locked);
    case DoRenew(id, owner, _, now, _) => if Holds(jobs, id, owner, now) { SetRow(jobs, id, Apply(jobs, op)[id]); }
    case DoComplete(id, owner, _, _, now) => if Holds(jobs, id, owner, now) { SetRow(jobs, id, Apply(jobs, op)[id]); }
    case DoFail(id, owner, _, _, now) => if Holds(jobs, id, owner, now) { SetRow(jobs, id, Apply(jobs, op)[id]); }
    case DoWrite(id, owner, c) => if Holds(jobs, id, owner, c.now) { SetRow(jobs, id, Changed(jobs[id], c)); }
  }

  /** Rows appear only by enqueueing. */
  lemma NewRow(jobs: Jobs, op: Op)
    requires |Apply(jobs, op)| > |jobs|
    ensures op.DoEnqueue? && |Apply(jobs, op)| == |jobs| + 1 && Apply(jobs, op)[|jobs|] == NewJob(op.request, op.now)
  {
  }

  /** Only a completion or a success written by a finalize completes a job. */
  lemma CompletedBy(jobs: Jobs, op: Op, id: nat)
    requires id < |jobs| && id < |Apply(jobs, op)|
    requires Apply(jobs, op)[id].state == Completed && jobs[id].state != Completed
    ensures || (op.DoComplete? && op.id == id)
            || (op.DoWrite? && op.id == id && op.change.decision == Done && Apply(jobs, op)[id].result == Some(op.change.result))
  {
  }

  lemma AgesTransitive(a: Jobs, b: Jobs, c: Jobs)
    requires AllAge(a, b) && AllAge(b, c)
    ensures AllAge(a, c)
  {
    forall i | 0 <= i < |a| ensures Ages(a[i], c[i]) {
      assert Ages(a[i], b[i]) && Ages(b[i], c[i]);
    }
  }

  /** The engine invariant over all runs: leases, unique keys, nothing lost, what a row was enqueued
      with never changes, attempts never fall, completed and blocked rows never change again. */
  lemma {:induction false} RunKeeps(jobs: Jobs, ops: seq<Op>)
    requires Good(jobs)
    ensures Good(Run(jobs, ops)) && AllAge(jobs, Run(jobs, ops))
  {
    if ops != [] {
      var before := Run(jobs, ops[..|ops| - 1]);
      RunKeeps(jobs, ops[..|ops| - 1]);
      ApplyKeeps(before, ops[|ops| - 1]);
      AgesTransitive(jobs, before, Run(jobs, ops));
    }
  }

  /** `claim` leases the first due unlocked row in claim order, judged after all expired leases were
      taken back, and only when there is one; it leaves no expired running row behind. */
  lemma ClaimTakesFirst(jobs: Jobs, owner: string, now: int, duration: nat, locked: set<nat>)
    requires Good(jobs) && Named(owner)
    ensures var (t, r) := Claim(jobs, owner, now, duration, locked);
            var open := Reclaim(jobs, now);
            && r.Ok? && |t| == |jobs|
            && (r.value.None? <==> forall j: nat :: !Eligible(open, j, now, locked))
            && (r.value.Some? ==>
                  && Eligible(open, r.value.value, now, locked)
                  && (forall j: nat | Eligible(open, j, now, locked) && j != r.value.value :: Before(open, r.value.value, j))
                  && OwnedBy(t[r.value.value], owner) && t[r.value.value].attempts == jobs[r.value.value].attempts + 1)
            && (forall i | 0 <= i < |t| && Some(i) != r.value :: t[i] == open[i] && !Expired(t[i], now))
            && (duration > 0 ==> forall i | 0 <= i < |t| :: !Expired(t[i], now))
  {
    ReclaimKeeps(jobs, now);
  }

  /** Enqueueing answers with the one row of the key, unless that row is blocked. */
  lemma EnqueueAnswers(jobs: Jobs, r: Request, now: int)
    requires Good(jobs) && ValidRequest(r, now)
    ensures var (t, answer) := Enqueue(jobs, r, now);
            && (answer.Err? <==> exists i | 0 <= i < |jobs| :: jobs[i].key == r.key && jobs[i].state == Blocked)
            && (answer.Err? ==> t == jobs && answer.error == KeyUnresolved)
            && (answer.Ok? ==>
                  && answer.value < |t| && t[answer.value].key == r.key && Active(t[answer.value])
                  && (forall j | 0 <= j < |t| && t[j].key == r.key && t[j].state != Completed :: j == answer.value)
                  && Enqueue(t, r, now) == (t, answer))
  {
    hide Good;
    EnqueueKeeps(jobs, r, now);
    var (t, answer) := Enqueue(jobs, r, now);
    if exists i :: 0 <= i < |jobs| && jobs[i].key == r.key && jobs[i].state == Blocked {
      var b :| 0 <= b < |jobs| && jobs[b].key == r.key && jobs[b].state == Blocked;
      OneHolder(jobs, b);
    }
    if answer.Ok? {
      OneHolder(t, answer.value);
      var again := ActiveFor(t, r.key);
      assert t[answer.value].key == r.key && Active(t[answer.value]);
    }
  }

  lemma OneHolder(jobs: Jobs, i: nat)
    requires Good(jobs) && i < |jobs| && jobs[i].state != Completed
    ensures forall j | 0 <= j < |jobs| && jobs[j].key == jobs[i].key && jobs[j].state != Completed :: j == i
  {
    forall j | 0 <= j < |jobs| && jobs[j].key == jobs[i].key && jobs[j].state != Completed ensures j == i {
      assert !SameKey(jobs[if i < j then i else j], jobs[if i < j then j else i]) || i == j;
    }
  }

  // ---------- what the columns of a row say ----------

  /** The time marks of a row tell its state. */
  predicate Marked(j: Job) {
    && (j.completedAt.Some? <==> j.state == Completed)
    && (j.blockedAt.Some? <==> j.state == Blocked)
    && (j.cooldownUntil.Some? ==> Active(j))
  }

  ghost predicate AllMarked(jobs: Jobs) {
    forall i | 0 <= i < |jobs| :: Marked(jobs[i])
  }

  lemma ApplyMarks(jobs: Jobs, op: Op)
    requires Good(jobs) && AllMarked(jobs)
    ensures AllMarked(Apply(jobs, op))
  {
    ApplyKeeps(jobs, op);
    var t := Apply(jobs, op);
    forall i | 0 <= i < |t| ensures Marked(t[i]) {
      assert i < |jobs| ==> Marked(jobs[i]);
    }
  }

  /** Over all runs a job has a completion time exactly while COMPLETED, a blocking time exactly while
      BLOCKED, and a cooldown deadline only while it may still run. */
  lemma {:induction false} MarksAgree(jobs: Jobs, ops: seq<Op>)
    requires Good(jobs) && AllMarked(jobs)
    ensures AllMarked(Run(jobs, ops))
  {
    if ops != [] {
      MarksAgree(jobs, ops[..|ops| - 1]);
      RunKeeps(jobs, ops[..|ops| - 1]);
      ApplyMarks(Run(jobs, ops[..|ops| - 1]), ops[|ops| - 1]);
    }
  }

  /** The row a finalize leaves says what happened: the lease is gone, a blocked row gives its reason as
      its error, a cooling row is due at the outcome's own deadline or else the policy's, a retried one not before now and
      within the cap, and nothing else about the job changed. */
  lemma FinalizedRow(jobs: Jobs, id: nat, owner: string, o: HandlerOutcome, jitter: int, now: int)
    requires Holds(jobs, id, owner, now) && Finalize(jobs, id, owner, o, jitter, now).1.Ok?
    ensures var (before, j) := (jobs[id], Finalize(jobs, id, owner, o, jitter, now).0[id]);
            && Ages(before, j) && j.attempts == before.attempts && j.lease.None?
            && j.result == Some(o.result) && j.lastOutcome == Some(o.kind) && Marked(j)
            && (j.state == Completed ==> o.kind == Success && j.completedAt == Some(now) && j.scheduledAt == before.scheduledAt)
            && (j.state == Blocked ==>
                  && j.blockedAt == Some(now)
                  && j.blockedReason == j.error != ""
                  && j.scheduledAt == before.scheduledAt)
            && (j.state != Blocked ==> j.blockedReason == "")
            && (j.state == Queued ==>
                  && before.policy.Some? && before.attempts <= before.policy.value.retryLimit
                  && (o.kind == Cooldown <==> j.cooldownUntil.Some?)
                  && (o.kind == Cooldown ==>
                        && j.cooldownUntil == Some(j.scheduledAt) && j.scheduledAt > now
                        && j.scheduledAt == if o.cooldownUntil.Some? then o.cooldownUntil.value
                            else now + before.policy.value.cooldown)
                  && (o.kind != Cooldown ==> now <= j.scheduledAt <= now + before.policy.value.cap))
  {
    hide ErrorCode, RetryDelay, CooldownDue, Changed;
    ErrorCodeNotEmpty(o);
    var c := Decide(jobs[id], o, jitter, now).value;
    ChangedRow(jobs[id], c);
  }

  lemma ErrorCodeNotEmpty(o: HandlerOutcome)
    ensures ErrorCode(o) != ""
  {
  }

  lemma ChangedRow(before: Job, c: Change)
    requires before.state == Running
    ensures var j := Changed(before, c);
            && Ages(before, j) && j.attempts == before.attempts && j.lease.None? && Marked(j)
            && j.result == Some(c.result) && j.lastOutcome == Some(c.kind) && j.error == c.error
            && (match c.decision
                case Done =>
                  j.state == Completed && j.completedAt == Some(c.now) && j.scheduledAt == before.scheduledAt
                      && j.blockedReason == ""
                case Halt(reason) =>
                  j.state == Blocked && j.blockedAt == Some(c.now) && j.scheduledAt == before.scheduledAt
                      && j.blockedReason == reason
                case Again(due, cooldown) =>
                  && j.state == Queued && j.scheduledAt == due && j.blockedReason == ""
                  && j.cooldownUntil == if cooldown then Some(due) else None)
  {
  }
}
