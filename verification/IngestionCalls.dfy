/** Whole calls of the ingestion service, built from its transactions: treating one unit, `ingest`
    and `reconcile`. Everything outside the database is an input: `UnitEnv` says what the object
    store, the payload and metadata factories and the document lookup do for one unit. */
module IngestionCalls {
  import opened Options
  import opened Ingestion
  import A = Artifacts
  import E = EvidenceStore
  import K = IdentityKeys

  datatype Payload = Payload(digest: Digest, size: nat)

  datatype MetadataResult =
    | MetadataRaises
    | MetadataInvalid
    | Metadata(emittedAt: int, authorizedAt: Option<int>, identity: K.FiscalIdentity, role: string, category: string,
               situation: E.Situation, parent: Option<string>, relationship: Option<E.Relationship>)

  datatype UnitEnv = UnitEnv(
    beginFails: bool, payload: Option<Payload>, metadata: MetadataResult, documentParent: Option<string>, persistRaises: bool,
    newId: K.Uuid)

  function FamilyText(f: Family): string {
    match f case Nfe => "nfe" case Adn => "adn" case Nfse => "nfse"
  }

  function DocumentFamily(f: Family): string {
    if f == Nfe then "nfe" else "nfse"
  }

  /** The artifact key of a unit's content; the scope part is kept as text where the code hashes it. */
  function LogicalKey(scope: Scope, u: FiscalUnit): string {
    "ingestion:" + scope.company + ":" + FamilyText(scope.family) + ":" + scope.flow + ":" + u.identity + ":" + u.contentHash
  }

  // ---------- one unit ----------

  /** The oldest artifact of the key, begun and transmitted as far as needed. */
  function Obtain(rows: A.Rows, key: string, env: UnitEnv): (r: (A.Rows, Option<nat>))
    ensures r.1.Some? ==> r.1.value < |r.0| && r.0[r.1.value].state == A.Finalized
  {
    match A.FirstOf(rows, key)
    case Some(i) => Transmit(rows, i, env)
    case None => if env.beginFails then (rows, None)
      else Transmit(rows + [A.NewArtifact(key, "application/octet-stream")], |rows|, env)
  }

  function Transmit(rows: A.Rows, i: nat, env: UnitEnv): (r: (A.Rows, Option<nat>))
    requires i < |rows|
    ensures r.1.Some? ==> r.1.value < |r.0| && r.0[r.1.value].state == A.Finalized
  {
    if rows[i].state == A.Finalized then (rows, Some(i))
    else if rows[i].state != A.State.Pending || env.payload.None? then (rows, None)
    else
      match A.FinalizeRow(rows, i, env.payload.value.digest, env.payload.value.size)
      case (next, Ok(o)) => (next, Some(o))
      case (next, Err(_)) => (next, None)
  }

  predicate AlreadyHeld(s: Store, u: nat, hash: Digest)
    requires u < |s.units|
  {
    var a := s.units[u].artifact;
    a.Some? && a.value < |s.artifacts| && s.artifacts[a.value].state == A.Finalized && s.artifacts[a.value].digest == hash
  }

  /** `_ensure_artifact`: `None` is the exception path. */
  function EnsureArtifact(s: Store, u: nat, scope: Scope, unit: FiscalUnit, env: UnitEnv): (r: (Store, Option<nat>))
    requires u < |s.units|
    ensures |r.0.units| == |s.units|
  {
    if AlreadyHeld(s, u, unit.contentHash) then (s, s.units[u].artifact)
    else
      var (rows, got) := Obtain(s.artifacts, LogicalKey(scope, unit), env);
      var s1 := s.(artifacts := rows);
      if got.None? || rows[got.value].digest != unit.contentHash then (s1, None)
      else (Link(s1, u, got.value, unit.contentHash), got)
  }

  /** The oldest unit of the scope with this identity that already has a document. */
  function FindParent(units: seq<Unit>, scope: Scope, identity: string): Option<string> {
    if units == [] then None
    else
      match FindParent(units[..|units| - 1], scope, identity)
      case Some(d) => Some(d)
      case None =>
        var last := units[|units| - 1];
        if last.scope == scope && last.identity == identity then last.document else None
  }

  predicate NeedsParent(unit: FiscalUnit) {
    unit.kind == "event" || unit.kind == "substitution"
  }

  function ParentOf(s: Store, scope: Scope, unit: FiscalUnit, env: UnitEnv): Option<string> {
    var found := FindParent(s.units, scope, unit.parentIdentity);
    if found.None? && unit.parentIdentity != "" then env.documentParent else found
  }

  function InputOf(c: Context, unit: FiscalUnit, a: nat, m: MetadataResult, parent: Option<string>, newId: K.Uuid): E.Input
    requires m.Metadata?
  {
    E.Input(
      K.Naming(c.scope.company, DocumentFamily(c.scope.family), m.role, m.category, c.source,
               if c.documentFlow.Some? then c.documentFlow.value else c.scope.flow),
      m.identity, m.emittedAt, m.authorizedAt, m.situation, a, c.executionRef, c.correlation,
      if NeedsParent(unit) then E.Kind.Event else E.PlainDocument, parent, m.relationship, newId)
  }

  function StatusState(st: E.Status): UnitState {
    match st
    case Persisted => UnitState.Persisted case Replay => UnitState.Replay
    case Quarantine => UnitState.Quarantine case Conflict => UnitState.Conflict
  }

  function InvalidInputVerdict(): Verdict {
    Finish(UnitState.Quarantine, "document_input_invalid", Outcome.Malformed, Recovery.Quarantine, None, None)
  }

  function VerdictOf(o: E.Outcome): Verdict {
    match o
    case Invalid => InvalidInputVerdict()
    case Done(st, document, event, reason) =>
      var (outcome, recovery) := UnitClassification(StatusState(st));
      Finish(StatusState(st), reason, outcome, recovery, document, event)
  }

  /** From metadata to `persist_document`. */
  function Treat(s: Store, c: Context, unit: FiscalUnit, a: nat, env: UnitEnv): (E.Store, Verdict) {
    match env.metadata
    case MetadataRaises => (s.docs, Fail("document_persistence_unavailable"))
    case MetadataInvalid => (s.docs, InvalidInputVerdict())
    case Metadata(_, _, _, _, _, _, given, _) =>
      var parent := if NeedsParent(unit) && given.None? then ParentOf(s, c.scope, unit, env) else given;
      if NeedsParent(unit) && parent.None? then
        (s.docs, Finish(UnitState.Quarantine, "parent_missing", Outcome.Quarantine, Recovery.Quarantine, None, None))
      else if env.persistRaises then (s.docs, Fail("document_persistence_unavailable"))
      else
        var (docs, o) := E.Persist(s.docs, s.artifacts, InputOf(c, unit, a, env.metadata, parent, env.newId));
        (docs, VerdictOf(o))
  }

  predicate Settled(row: Unit, unit: FiscalUnit) {
    && IsTerminal(row.state) && row.contentHash == unit.contentHash
    && !(row.state == UnitState.Quarantine && row.safeReason == "parent_missing")
  }

  /** `_process_unit`. */
  function ProcessUnit(s: Store, u: nat, c: Context, unit: FiscalUnit, env: UnitEnv): (r: (Store, UnitState))
    requires u < |s.units|
    ensures |r.0.units| == |s.units| && r.0.pages == s.pages && r.0.checkpoints == s.checkpoints
    ensures r.1 == r.0.units[u].state
    ensures r.0.units[u].page == s.units[u].page && r.0.units[u].identity == s.units[u].identity
    ensures forall i | 0 <= i < |s.units| && i != u :: r.0.units[i] == s.units[i]
  {
    if Settled(s.units[u], unit) then (s, s.units[u].state)
    else
      var (s1, got) := EnsureArtifact(Touch(s, u), u, c.scope, unit, env);
      if got.None? then (FailUnit(s1, u, "object_unavailable", Outcome.Unavailable), UnitState.Failed)
      else
        var (docs, v) := Treat(s1, c, unit, got.value, env);
        var s2 := s1.(docs := docs);
        match v
        case Fail(reason) => (FailUnit(s2, u, reason, TemporaryFailure), UnitState.Failed)
        case Finish(treatment, _, _, _, _, _) => (FinishUnit(s2, u, got.value, unit.contentHash, v), treatment)
  }

  // ---------- ingest ----------

  /** The first `k` units of a response registered and processed, with their results. */
  function UnitsUpTo(s: Store, p: nat, c: Context, units: seq<FiscalUnit>, env: nat -> UnitEnv, k: nat)
      : (r: (Store, seq<UnitState>))
    requires k <= |units|
    ensures r.0.pages == s.pages && r.0.checkpoints == s.checkpoints && |s.units| <= |r.0.units| && |r.1| == k
  {
    if k == 0 then (s, [])
    else
      var (before, states) := UnitsUpTo(s, p, c, units, env, k - 1);
      var (s1, u) := RegisterUnit(before, p, c.scope, units[k - 1]);
      var (s2, st) := ProcessUnit(s1, u, c, units[k - 1], env(k - 1));
      (s2, states + [st])
  }

  function FinalClassification(r: Response, states: seq<UnitState>): Classification {
    if r.outcome == FiscalOutcome.Partial then
      Classification(PageState.Partial, Outcome.Partial, Recovery.Retry, "partial_response", false)
    else if r.units != [] then ClassifyTreatments(states)
    else ClassifyResponse(r)
  }

  function FinishAs(s: Store, p: nat, cl: Classification): Store
    requires p < |s.pages|
  {
    FinishPage(s, p, cl.state, cl.reason, cl.outcome, cl.recovery)
  }

  /** From an opened page to its finish. */
  function RunPage(s: Store, p: nat, c: Context, r: Response, env: nat -> UnitEnv): Store
    requires p < |s.pages|
  {
    if IsFailureOutcome(r.outcome) then FinishAs(s, p, ClassifyResponse(r))
    else
      var (s1, states) := UnitsUpTo(s, p, c, r.units, env, |r.units|);
      FinishAs(s1, p, FinalClassification(r, states))
  }

  /** `ingest`, uninterrupted. */
  function Ingest(s: Store, c: Context, r: Response, env: nat -> UnitEnv): Store {
    if !Acceptable(c, r) then s
    else
      var (s1, p, created) := RegisterPage(s, c, r);
      if created then if s1.pages[p].state == PageState.Failed then s1 else RunPage(s1, p, c, r, env)
      else if !CanResume(s1.pages[p], r) then s1
      else RunPage(PrepareRetry(s1, p, r), p, c, r, env)
  }

  // ---------- what a call answers ----------

  datatype Reply = Reply(
    page: nat, state: PageState, unitStates: seq<UnitState>, advanced: bool, nextCursor: string, nextNsu: string,
    reason: string, outcome: Outcome, recovery: Recovery)

  function ReplyOf(page: Page, p: nat, states: seq<UnitState>, advanced: bool): Reply {
    Reply(p, page.state, states, advanced, page.nextCursor, page.nextNsu, page.safeError, page.outcome, page.recovery)
  }

  /** `_result_for_page`. */
  function PageReply(s: Store, p: nat): Reply
    requires p < |s.pages|
  {
    ReplyOf(s.pages[p], p, StatesOf(s.units, p), s.pages[p].finalized)
  }

  predicate Closing(target: PageState) {
    target == PageState.Complete || target == PageState.Empty
  }

  /** `_finish_page` returns before its last statement. */
  predicate EndsEarly(s: Store, p: nat, target: PageState)
    requires p < |s.pages|
  {
    Parked(s.pages[p]) || (Closing(target) && (!Durable(s, p) || Position(s, s.pages[p].scope) != Requested(s.pages[p])))
  }

  /** What `_finish_page` returns. */
  function FinishReply(s: Store, p: nat, cl: Classification, states: seq<UnitState>): Reply
    requires p < |s.pages|
  {
    var t := FinishAs(s, p, cl);
    if EndsEarly(s, p, cl.state) then PageReply(t, p)
    else ReplyOf(t.pages[p], p, states, Closing(cl.state) && Refused(s.pages[p]).None? && NextOf(s.pages[p]) != "")
  }

  function RunReply(s: Store, p: nat, c: Context, r: Response, env: nat -> UnitEnv): Reply
    requires p < |s.pages|
  {
    if IsFailureOutcome(r.outcome) then FinishReply(s, p, ClassifyResponse(r), [])
    else
      var (s1, states) := UnitsUpTo(s, p, c, r.units, env, |r.units|);
      FinishReply(s1, p, FinalClassification(r, states), states)
  }

  /** What `ingest` returns; `None` when it raises. */
  function IngestReply(s: Store, c: Context, r: Response, env: nat -> UnitEnv): Option<Reply> {
    if !Acceptable(c, r) then None
    else
      var (s1, p, created) := RegisterPage(s, c, r);
      Some(if created then if s1.pages[p].state == PageState.Failed then PageReply(s1, p) else RunReply(s1, p, c, r, env)
           else if !CanResume(s1.pages[p], r) then PageReply(s1, p)
           else RunReply(PrepareRetry(s1, p, r), p, c, r, env))
  }

  // ---------- reconcile ----------

  predicate Retriable(row: Unit) {
    row.state == UnitState.Pending || row.state == UnitState.Failed
    || (row.state == UnitState.Quarantine && row.safeReason == "parent_missing")
  }

  /** Units to retry, oldest first; `only` restricts the call to one unit. */
  function CandidateUnits(units: seq<Unit>, only: Option<nat>): (r: seq<nat>)
    ensures forall i | 0 <= i < |r| :: r[i] < |units|
  {
    if units == [] then []
    else
      var n := |units| - 1;
      CandidateUnits(units[..n], only) + (if Retriable(units[n]) && (only.None? || only.value == n) then [n] else [])
  }

  /** Exactly the retriable rows are selected, each once and in order. */
  lemma {:induction false} CandidatesExactly(units: seq<Unit>, only: Option<nat>)
    ensures var r := CandidateUnits(units, only);
            && (forall i, j | 0 <= i < j < |r| :: r[i] < r[j])
            && (forall i: nat :: i in r <==> i < |units| && Retriable(units[i]) && (only.None? || only.value == i))
            && (forall i: nat :: i in r <==>
                  && i < |units| && (only.None? || only.value == i)
                  && (units[i].state == UnitState.Pending || units[i].state == UnitState.Failed
                      || (units[i].state == UnitState.Quarantine && units[i].safeReason == "parent_missing")))
  {
    if units != [] {
      CandidatesExactly(units[..|units| - 1], only);
    }
  }

  predicate Open(p: Page) {
    p.state == PageState.Pending || p.state == PageState.Partial
  }

  function CandidatePages(pages: seq<Page>): (r: seq<nat>)
    ensures forall i | 0 <= i < |r| :: r[i] < |pages|
  {
    if pages == [] then []
    else
      var n := |pages| - 1;
      CandidatePages(pages[..n]) + (if Open(pages[n]) then [n] else [])
  }

  function RemoveSuffix(s: string, suffix: string): string {
    if |suffix| <= |s| && s[|s| - |suffix|..] == suffix then s[..|s| - |suffix|] else s
  }

  function ReplayContext(row: Unit): Context {
    Context(row.scope, "synthetic", "execution:replay", "correlation:replay", None, None, None,
            Some(RemoveSuffix(row.scope.flow, ":followup")))
  }

  function StoredUnit(row: Unit): FiscalUnit {
    FiscalUnit(row.identity, row.contentHash, row.kind, row.parentIdentity)
  }

  function ReplayFinish(s: Store, p: nat): Store
    requires p < |s.pages|
  {
    var cl := ClassifyTreatments(StatesOf(s.units, p));
    FinishPage(s, p, if s.pages[p].unitCount == 0 then PageState.Empty else PageState.Complete, "", cl.outcome, cl.recovery)
  }

  /** What the retry of a stored unit does before it judges the page. */
  function Retried(s: Store, u: nat, env: UnitEnv): (Store, UnitState)
    requires u < |s.units|
  {
    ProcessUnit(s, u, ReplayContext(s.units[u]), StoredUnit(s.units[u]), env)
  }

  function ReconcileUnit(s: Store, u: nat, env: UnitEnv): (r: Store)
    ensures |r.units| == |s.units| && |r.pages| == |s.pages|
  {
    if u >= |s.units| then s
    else
      var s1 := Retried(s, u, env).0;
      var p := s.units[u].page;
      if p < |s1.pages| && s1.pages[p].state == PageState.Partial && s1.pages[p].adapterOutcome != FiscalOutcome.Partial
         && StatesOf(s1.units, p) != [] && AllTerminal(StatesOf(s1.units, p))
      then ReplayFinish(s1, p) else s1
  }

  function ReconcileUnits(s: Store, ids: seq<nat>, env: nat -> UnitEnv, k: nat): (r: Store)
    requires k <= |ids|
    ensures |r.units| == |s.units| && |r.pages| == |s.pages|
  {
    if k == 0 then s else ReconcileUnit(ReconcileUnits(s, ids, env, k - 1), ids[k - 1], env(k - 1))
  }

  /** The retried units whose treatment did not fail, which `reconcile` returns. */
  function Repaired(s: Store, ids: seq<nat>, env: nat -> UnitEnv, k: nat): nat
    requires k <= |ids|
  {
    if k == 0 then 0
    else
      var before, u := ReconcileUnits(s, ids, env, k - 1), ids[k - 1];
      Repaired(s, ids, env, k - 1) + (if u < |before.units| && Retried(before, u, env(k - 1)).1 != UnitState.Failed then 1 else 0)
  }

  /** What the second loop of `reconcile` asks of an open page before finishing it. */
  predicate Finishable(s: Store, p: nat)
    requires p < |s.pages|
  {
    && (s.pages[p].unitCount == 0 || |StatesOf(s.units, p)| == s.pages[p].unitCount)
    && AllTerminal(StatesOf(s.units, p))
    && s.pages[p].adapterOutcome != FiscalOutcome.Partial
  }

  function ReconcilePage(s: Store, p: nat): (r: Store)
    ensures |r.pages| == |s.pages| && r.units == s.units
  {
    if p < |s.pages| && Finishable(s, p) then ReplayFinish(s, p) else s
  }

  function ReconcilePages(s: Store, ids: seq<nat>, k: nat): (r: Store)
    requires k <= |ids|
    ensures |r.pages| == |s.pages| && r.units == s.units
  {
    if k == 0 then s else ReconcilePage(ReconcilePages(s, ids, k - 1), ids[k - 1])
  }

  /** The second loop of `reconcile`. */
  function ReconcileOpenPages(s: Store): Store {
    var ids := CandidatePages(s.pages);
    ReconcilePages(s, ids, |ids|)
  }

  /** `reconcile`, uninterrupted. */
  function ReconcileAll(s: Store, only: Option<nat>, env: nat -> UnitEnv): Store {
    var ids := CandidateUnits(s.units, only);
    ReconcileOpenPages(ReconcileUnits(s, ids, env, |ids|))
  }
}
