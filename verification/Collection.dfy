/** Collection commands: executions and company flows, kept in step with the job table. An execution's
    id is its index. What the repository looks up elsewhere (company status, certificate, actor rights,
    the policies in force) comes with the command. */
module Collection {
  import opened Options
  import I = Ingestion
  import J = JobEngine

  datatype Family = Nfe | Nfse

  datatype Scope = Complete | Only(family: Family)

  datatype Origin = Automatic | Manual | Retry

  datatype State = Queued | Running | Concluded | Empty | Partial | Retrying | Cooldown | Blocked | Failed

  datatype FlowKey = FlowKey(company: string, family: Family)

  /** The part of a safe summary the decisions read; absent or unknown vocabulary is `None`. */
  datatype Report = Report(queryValid: bool, unitCount: int, outcome: Option<I.Outcome>, recovery: Option<I.Recovery>)

  datatype Execution = Execution(
    key: FlowKey, scope: Scope, origin: Origin, retryOf: Option<nat>, policy: Option<J.Policy>, job: nat,
    state: State, outcome: I.Outcome, recovery: I.Recovery, report: Report, error: string,
    startedAt: Option<int>, finishedAt: Option<int>)

  /** `state` is `None` while idle. */
  datatype Flow = Flow(
    enabled: bool, state: Option<State>, active: Option<nat>, lastAttemptAt: Option<int>, lastSuccessAt: Option<int>,
    nextScheduledAt: Option<int>, cooldownUntil: Option<int>, blockedReason: string, error: string)

  type Flows = map<FlowKey, Flow>

  datatype World = World(flows: Flows, execs: seq<Execution>, jobs: J.Jobs)

  datatype Command = Command(
    company: string, scope: Scope, origin: Origin, allowed: bool, now: int, retryOf: Option<nat>,
    companyActive: bool, certificateUsable: bool, policies: map<Family, J.Policy>)

  datatype Error =
    | AccessDenied | CompanyInactive | CertificateUnavailable | FlowPaused | CollectionBlocked
    | CooldownActive | PolicyUnavailable | RetryNotEligible | ConcurrentRequest | JobRefused

  datatype Answer =
    | Duplicate(active: seq<nat>)
    | Created(execs: seq<nat>)
    | Rejected(error: Error)

  const COLLECTION := "collection.synthetic"
  const NOTHING := Report(false, 0, None, None)

  predicate Active(s: State) {
    match s
    case Queued | Running | Retrying | Cooldown | Partial => true
    case _ => false
  }

  predicate Terminal(s: State) {
    match s
    case Concluded | Empty | Blocked | Failed => true
    case _ => false
  }

  function Families(s: Scope): seq<Family> {
    match s
    case Complete => [Nfe, Nfse]
    case Only(f) => [f]
  }

  // ---------- requests ----------

  predicate StillActive(execs: seq<Execution>, active: Option<nat>) {
    active.Some? && active.value < |execs| && Active(execs[active.value].state)
  }

  /** `_active_execution`: a pointer to an execution that is no longer active is cleared. */
  function Cleared(flow: Flow, execs: seq<Execution>): Flow {
    if flow.active.Some? && !StillActive(execs, flow.active) then flow.(active := None) else flow
  }

  /** The active executions of the families, oldest family first, and the flows with stale pointers cleared. */
  function ActiveOf(w: World, company: string, families: seq<Family>): (r: (Flows, seq<nat>))
    requires forall f | f in families :: FlowKey(company, f) in w.flows
    ensures r.0.Keys == w.flows.Keys
  {
    if families == [] then (w.flows, [])
    else
      var (flows, found) := ActiveOf(w, company, families[..|families| - 1]);
      var key := FlowKey(company, families[|families| - 1]);
      (flows[key := Cleared(w.flows[key], w.execs)],
       if StillActive(w.execs, w.flows[key].active) then found + [w.flows[key].active.value] else found)
  }

  function PolicyFor(c: Command, f: Family): Option<J.Policy> {
    if f in c.policies && J.CoversTime(c.policies[f], c.now) then Some(c.policies[f]) else None
  }

  /** Why a flow may not be collected now. */
  function FlowRefusal(flow: Flow, c: Command, f: Family): Option<Error> {
    if !flow.enabled then Some(FlowPaused)
    else if flow.state == Some(Blocked) then Some(CollectionBlocked)
    else if flow.cooldownUntil.Some? && flow.cooldownUntil.value > c.now then Some(CooldownActive)
    else if PolicyFor(c, f).None? then Some(PolicyUnavailable)
    else None
  }

  /** The first refusal, in family order. */
  function FirstRefusal(flows: Flows, c: Command, families: seq<Family>): (r: Option<Error>)
    requires forall f | f in families :: FlowKey(c.company, f) in flows
    ensures r.Some? ==> r.value != ConcurrentRequest && r.value != JobRefused
    ensures r.None? ==> forall f | f in families :: FlowRefusal(flows[FlowKey(c.company, f)], c, f).None?
  {
    if families == [] then None
    else
      match FirstRefusal(flows, c, families[..|families| - 1])
      case Some(e) => Some(e)
      case None => FlowRefusal(flows[FlowKey(c.company, families[|families| - 1])], c, families[|families| - 1])
  }

  predicate RetryOk(w: World, c: Command) {
    c.origin == Retry ==>
      && c.retryOf.Some? && c.retryOf.value < |w.execs|
      && var e := w.execs[c.retryOf.value];
         e.key.company == c.company && e.key.family in Families(c.scope) && (e.state == Failed || e.state == Partial)
  }

  function JobKey(e: nat): string {
    "collection:" + I.Decimal(e)
  }

  function FamilyText(f: Family): string {
    match f case Nfe => "nfe" case Nfse => "nfse"
  }

  function ScopeText(s: Scope): string {
    match s case Complete => "completa" case Only(f) => FamilyText(f)
  }

  function OriginText(o: Origin): string {
    match o case Automatic => "automatica" case Manual => "manual" case Retry => "retry"
  }

  function JobRequest(c: Command, f: Family, e: nat, p: J.Policy): J.Request {
    J.Request(COLLECTION, "company:" + c.company + ":flow:" + FamilyText(f),
              map["execution_id" := J.Text(I.Decimal(e)), "company_id" := J.Text(c.company),
                  "family" := J.Text(FamilyText(f)), "scope" := J.Text(ScopeText(c.scope)),
                  "origin" := J.Text(OriginText(c.origin)), "outcome" := J.Text("valid_empty")],
              JobKey(e), 0, Some(c.now), Some(p))
  }

  /** The unique constraint on active executions of a company and family. */
  predicate HasActive(execs: seq<Execution>, key: FlowKey) {
    exists e | 0 <= e < |execs| :: execs[e].key == key && Active(execs[e].state)
  }

  function NewExecution(w: World, c: Command, f: Family, p: J.Policy, job: nat): Execution {
    var retry := if c.origin == Retry && c.retryOf.Some? && c.retryOf.value < |w.execs|
                    && w.execs[c.retryOf.value].key.family == f then c.retryOf else None;
    Execution(FlowKey(c.company, f), c.scope, c.origin, retry, Some(p), job,
              Queued, I.Outcome.Unknown, I.NoAction, NOTHING, "", None, None)
  }

  function Started(flow: Flow, e: nat, now: int): Flow {
    flow.(active := Some(e), state := Some(Queued), lastAttemptAt := Some(now), nextScheduledAt := Some(now),
          cooldownUntil := None, error := "", blockedReason := "")
  }

  /** One family's execution, its job and its flow pointer. */
  function CreateFor(w: World, c: Command, f: Family): Result<World, Error>
    requires FlowKey(c.company, f) in w.flows && PolicyFor(c, f).Some?
  {
    var (key, p, e) := (FlowKey(c.company, f), PolicyFor(c, f).value, |w.execs|);
    if HasActive(w.execs, key) then Err(ConcurrentRequest)
    else
      match J.Enqueue(w.jobs, JobRequest(c, f, e, p), c.now)
      case (_, Err(_)) => Err(JobRefused)
      case (jobs, Ok(job)) =>
        Ok(World(w.flows[key := Started(w.flows[key], e, c.now)], w.execs + [NewExecution(w, c, f, p, job)], jobs))
  }

  function CreateAll(w: World, c: Command, families: seq<Family>): (r: Result<World, Error>)
    requires forall f | f in families :: FlowKey(c.company, f) in w.flows && PolicyFor(c, f).Some?
    ensures r.Ok? ==> r.value.flows.Keys == w.flows.Keys && |r.value.execs| == |w.execs| + |families|
  {
    if families == [] then Ok(w)
    else
      match CreateAll(w, c, families[..|families| - 1])
      case Err(e) => Err(e)
      case Ok(before) => CreateFor(before, c, families[|families| - 1])
  }

  function Fresh(n: nat, count: nat): seq<nat> {
    seq(count, i => n + i)
  }

  /** `request_collection`; a refusal rolls the whole transaction back. */
  function Request(w: World, c: Command): (World, Answer) {
    var families := Families(c.scope);
    if !c.allowed then (w, Rejected(AccessDenied))
    else if !c.companyActive then (w, Rejected(CompanyInactive))
    else if !c.certificateUsable then (w, Rejected(CertificateUnavailable))
    else if exists f | f in families :: FlowKey(c.company, f) !in w.flows then (w, Rejected(FlowPaused))
    else
      var (flows, active) := ActiveOf(w, c.company, families);
      if active != [] then (w.(flows := flows), Duplicate(active))
      else Begin(w.(flows := flows), w, c)
  }

  /** The rest of a request once no execution is active; `before` is what a rollback restores. */
  function Begin(w: World, before: World, c: Command): (World, Answer)
    requires forall f | f in Families(c.scope) :: FlowKey(c.company, f) in w.flows
  {
    var families := Families(c.scope);
    match FirstRefusal(w.flows, c, families)
    case Some(e) => (before, Rejected(e))
    case None =>
      if !RetryOk(w, c) then (before, Rejected(RetryNotEligible))
      else
        match CreateAll(w, c, families)
        case Err(e) => (before, Rejected(e))
        case Ok(after) => (after, Created(Fresh(|w.execs|, |families|)))
  }

  // ---------- reconciliation with the job ----------

  function ExecOf(execs: seq<Execution>, job: nat): (r: Option<nat>)
    ensures r.Some? ==> r.value < |execs| && execs[r.value].job == job
    ensures r.None? ==> forall e | 0 <= e < |execs| :: execs[e].job != job
  {
    if execs == [] then None
    else
      match ExecOf(execs[..|execs| - 1], job)
      case Some(e) => Some(e)
      case None => if execs[|execs| - 1].job == job then Some(|execs| - 1) else None
  }

  function OutcomeOf(kind: J.Kind, r: Report): I.Outcome {
    if r.outcome.Some? then r.outcome.value
    else
      match kind
      case Success => if r.unitCount == 0 then I.ValidEmpty else I.Outcome.Success
      case Partial => I.Outcome.Partial
      case Cooldown => I.Outcome.Cooldown
      case Permanent => I.PermanentFailure
      case Temporary => I.TemporaryFailure
  }

  function RecoveryOf(kind: J.Kind, r: Report): I.Recovery {
    if r.recovery.Some? then r.recovery.value
    else
      match kind
      case Cooldown => I.Recovery.Cooldown
      case Permanent => I.Recovery.Blocked
      case Partial | Temporary => I.Recovery.Retry
      case Success => I.NoAction
  }

  /** The execution state and safe error a job outcome leads to. */
  function StateFor(kind: J.Kind, exhausted: bool, r: Report): (State, string) {
    match kind
    case Success => (if r.queryValid && r.unitCount == 0 then Empty else Concluded, "")
    case Permanent => (Blocked, "permanent_failure")
    case Cooldown => if exhausted then (Blocked, "retry_exhausted") else (State.Cooldown, "official_cooldown")
    case Partial => if exhausted then (Blocked, "retry_exhausted") else (State.Partial, "partial_result")
    case Temporary => if exhausted then (Blocked, "retry_exhausted") else (Retrying, "temporary_failure")
  }

  predicate Exhausted(policy: Option<J.Policy>, attempts: nat) {
    policy.Some? && attempts > policy.value.retryLimit
  }

  function Reconciled(e: Execution, attempts: nat, kind: J.Kind, r: Report, now: int): Execution {
    var (state, error) := StateFor(kind, Exhausted(e.policy, attempts), r);
    e.(state := state, error := error, report := r, outcome := OutcomeOf(kind, r), recovery := RecoveryOf(kind, r),
       startedAt := if e.startedAt.Some? then e.startedAt else Some(now),
       finishedAt := if Terminal(state) then Some(now) else e.finishedAt)
  }

  const HOUR := 3600

  function FlowAfter(flow: Flow, e: Execution, kind: J.Kind, now: int): Flow {
    var seen := flow.(state := Some(e.state), error := e.error, active := if Terminal(e.state) then None else flow.active,
                      lastAttemptAt := if flow.lastAttemptAt.Some? then flow.lastAttemptAt else Some(now));
    match e.state
    case Concluded | Empty => seen.(lastSuccessAt := Some(now), nextScheduledAt := None, cooldownUntil := None, blockedReason := "")
    case Blocked => seen.(blockedReason := e.error)
    case Cooldown => seen.(cooldownUntil := Some(now + HOUR), nextScheduledAt := Some(now + HOUR))
    case _ => seen
  }

  /** `reconcile_collection_job` with the attempt count of the job object it was given. */
  function Reconcile(w: World, job: nat, attempts: nat, kind: J.Kind, r: Report, now: int): World {
    match ExecOf(w.execs, job)
    case None => w
    case Some(e) =>
      var x := w.execs[e];
      if x.key !in w.flows || Terminal(x.state) then w
      else
        var y := Reconciled(x, attempts, kind, r, now);
        w.(execs := w.execs[e := y], flows := w.flows[x.key := FlowAfter(w.flows[x.key], y, kind, now)])
  }

  // ---------- the handler ----------

  /** The outcome named by the job's payload. */
  datatype Planned = PlanBlocked | PlanCooldown | PlanTemporary | PlanPartial | PlanEmpty

  const EMPTY_REPORT := Report(true, 0, None, None)
  const PARTIAL_REPORT := Report(false, 1, None, None)

  function Classified(plan: Planned, now: int): (J.HandlerOutcome, Report) {
    match plan
    case PlanBlocked => (J.HandlerOutcome(J.Permanent, map[], "permanent_failure", None), NOTHING)
    case PlanCooldown => (J.HandlerOutcome(J.Kind.Cooldown, map[], "official_cooldown", Some(now + HOUR)), NOTHING)
    case PlanTemporary => (J.HandlerOutcome(J.Temporary, map[], "temporary_failure", None), NOTHING)
    case PlanPartial => (J.HandlerOutcome(J.Kind.Partial, map["unit_count" := J.Number(1)], "partial_result", None), PARTIAL_REPORT)
    case PlanEmpty =>
      (J.HandlerOutcome(J.Success, map["query_valid" := J.Flag(true), "unit_count" := J.Number(0),
          "coverage" := J.Text("available")], "", None),
       EMPTY_REPORT)
  }

  /** `collection_handler`; `None` is the exception for a job without an execution. */
  function Handle(w: World, job: nat, attempts: nat, plan: Planned, now: int, later: int): (World, Option<J.HandlerOutcome>) {
    match ExecOf(w.execs, job)
    case None => (w, None)
    case Some(e) =>
      if Terminal(w.execs[e].state) then (w, Some(J.HandlerOutcome(J.Success, map[], "", None)))
      else
        var (o, r) := Classified(plan, now);
        (Reconcile(w, job, attempts, o.kind, r, later), if w.execs[e].key in w.flows then Some(o) else None)
  }
}
