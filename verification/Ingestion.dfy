/** The tables of the ingestion protocol, the pure classification of a response, and one function
    per transaction of `FiscalIngestionService`. Tables are append-only; a row's id is its index,
    which is also its creation order. */
module Ingestion {
  import opened Options
  import A = Artifacts
  import E = EvidenceStore
  import K = IdentityKeys

  type Digest = A.Digest

  datatype Family = Nfe | Adn | Nfse

  datatype Scope = Scope(company: string, family: Family, flow: string)

  datatype FiscalOutcome =
    | Success | Empty | NoCoverage | Unavailable | Timeout | Partial | Cooldown | Blocked | Duplicate
    | Conflict | Malformed | Unknown | EventWithoutParent | RepeatedCursor

  datatype PageState =
    | Pending | Complete | Empty | NoCoverage | Unavailable | Retry | Cooldown | Blocked | Partial | Failed

  datatype UnitState = Pending | Persisted | Replay | Quarantine | Conflict | Failed

  datatype Outcome =
    | Success | ValidEmpty | NoCoverage | Unavailable | TemporaryFailure | Cooldown | PermanentFailure
    | Malformed | Unknown | Partial | Quarantine | Conflict

  datatype Recovery = NoAction | Retry | Cooldown | Blocked | Quarantine | ConflictReview | Reconcile

  datatype FiscalUnit = FiscalUnit(identity: string, contentHash: Digest, kind: string, parentIdentity: string)

  datatype Response = Response(
    outcome: FiscalOutcome, units: seq<FiscalUnit>, nextCursor: Option<string>, nextNsu: Option<string>, errorCode: string)

  datatype Context = Context(
    scope: Scope, source: string, executionRef: string, correlation: string,
    requestCursor: Option<string>, requestNsu: Option<string>, pageKey: Option<string>, documentFlow: Option<string>)

  datatype Checkpoint = Checkpoint(cursor: string, nsu: string, lastPage: Option<nat>)

  datatype Page = Page(
    scope: Scope, key: string, requestCursor: string, requestNsu: string, nextCursor: string, nextNsu: string,
    adapterOutcome: FiscalOutcome, state: PageState, outcome: Outcome, recovery: Recovery,
    safeError: string, unitCount: nat, finalized: bool)

  /** `linked` and `treated` are history, not columns: the hash the linked artifact was checked
      against, and the hash the last finished treatment was for. */
  datatype Unit = Unit(
    page: nat, scope: Scope, identity: string, kind: string, parentIdentity: string, contentHash: Digest,
    artifact: Option<nat>, document: Option<string>, event: Option<string>,
    state: UnitState, outcome: Outcome, recovery: Recovery, safeReason: string, attempts: nat,
    linked: Digest, treated: Digest)

  datatype Store = Store(
    checkpoints: map<Scope, Checkpoint>, pages: seq<Page>, units: seq<Unit>, artifacts: A.Rows, docs: E.Store)

  datatype Classification = Classification(state: PageState, outcome: Outcome, recovery: Recovery, reason: string, canAdvance: bool)

  // ---------- classification ----------

  predicate IsFailureOutcome(o: FiscalOutcome) {
    match o
    case NoCoverage | Unavailable | Timeout | Cooldown | Blocked | Conflict | Malformed | EventWithoutParent | RepeatedCursor => true
    case _ => false
  }

  predicate IsTerminal(u: UnitState) {
    match u
    case Persisted | Replay | Quarantine | Conflict => true
    case Pending | Failed => false
  }

  function OutcomeText(o: FiscalOutcome): string {
    match o
    case Success => "success" case Empty => "empty" case NoCoverage => "no_coverage"
    case Unavailable => "unavailable" case Timeout => "timeout" case Partial => "partial"
    case Cooldown => "cooldown" case Blocked => "blocked" case Duplicate => "duplicate"
    case Conflict => "conflict" case Malformed => "malformed" case Unknown => "unknown"
    case EventWithoutParent => "event_without_parent" case RepeatedCursor => "repeated_cursor"
  }

  predicate IsSafeReason(s: string) {
    && 0 < |s| <= 64 && 'a' <= s[0] <= 'z'
    && forall i | 0 < i < |s| :: 'a' <= s[i] <= 'z' || '0' <= s[i] <= '9' || s[i] in "_.-"
  }

  function SafeReason(s: string): (r: string)
    ensures r != "" && (IsSafeReason(s) ==> r == s)
  {
    if s != "" && IsSafeReason(s) then s else "ingestion_failure"
  }

  function ClassifyResponse(r: Response): Classification {
    var reason := SafeReason(if r.errorCode != "" then r.errorCode else OutcomeText(r.outcome));
    match r.outcome
    case Success | Duplicate =>
      if r.units != [] then Classification(PageState.Complete, Outcome.Success, NoAction, "", true)
      else Classification(PageState.Empty, ValidEmpty, NoAction, "query_valid_empty", true)
    case Empty => Classification(PageState.Empty, ValidEmpty, NoAction, "query_valid_empty", true)
    case NoCoverage => Classification(PageState.NoCoverage, Outcome.NoCoverage, NoAction, reason, false)
    case Unavailable => Classification(PageState.Unavailable, Outcome.Unavailable, Recovery.Retry, reason, false)
    case Timeout => Classification(PageState.Retry, TemporaryFailure, Recovery.Retry, reason, false)
    case RepeatedCursor => Classification(PageState.Retry, TemporaryFailure, Reconcile, reason, false)
    case Cooldown => Classification(PageState.Cooldown, Outcome.Cooldown, Recovery.Cooldown, reason, false)
    case Blocked => Classification(PageState.Blocked, PermanentFailure, Recovery.Blocked, reason, false)
    case Partial => Classification(PageState.Partial, Outcome.Partial, Recovery.Retry, reason, false)
    case EventWithoutParent => Classification(PageState.Failed, Outcome.Quarantine, Recovery.Quarantine, reason, false)
    case Malformed => Classification(PageState.Failed, Outcome.Malformed, Recovery.Quarantine, reason, false)
    case Conflict => Classification(PageState.Failed, Outcome.Conflict, ConflictReview, reason, false)
    case Unknown => Classification(PageState.Failed, Outcome.Unknown, Reconcile, "unknown_outcome", false)
  }

  /** A response may advance exactly when it is a success, a duplicate or empty, and then its page closes;
      otherwise it carries a reason, and only a retriable failure or a partial answer asks for a retry. */
  lemma ResponseClassified(r: Response)
    ensures var cl := ClassifyResponse(r);
            && (cl.canAdvance <==> r.outcome == FiscalOutcome.Success || r.outcome == Duplicate || r.outcome == FiscalOutcome.Empty)
            && (cl.canAdvance <==> cl.state == PageState.Complete || cl.state == PageState.Empty)
            && (cl.state == PageState.Empty ==> r.units == [] || r.outcome == FiscalOutcome.Empty)
            && (!cl.canAdvance ==> cl.reason != "")
            && (cl.recovery == Recovery.Retry <==>
                  r.outcome == FiscalOutcome.Unavailable || r.outcome == Timeout || r.outcome == FiscalOutcome.Partial)
            && cl.state != PageState.Pending
            && (IsFailureOutcome(r.outcome) ==> cl.state != PageState.Partial && !cl.canAdvance)
  {
    hide SafeReason;
  }

  function ClassifyTreatments(states: seq<UnitState>): Classification {
    if UnitState.Pending in states || UnitState.Failed in states then
      Classification(PageState.Partial, Outcome.Partial, Recovery.Retry, "unit_pending", false)
    else if UnitState.Conflict in states then
      Classification(PageState.Complete, Outcome.Conflict, ConflictReview, "content_hash_mismatch", true)
    else if UnitState.Quarantine in states then
      Classification(PageState.Complete, Outcome.Quarantine, Recovery.Quarantine, "quarantined", true)
    else Classification(PageState.Complete, Outcome.Success, NoAction, "", true)
  }

  /** A page may advance by its units exactly when every unit is terminal. */
  lemma TreatmentsAdvance(states: seq<UnitState>)
    ensures ClassifyTreatments(states).canAdvance <==> forall i | 0 <= i < |states| :: IsTerminal(states[i])
    ensures ClassifyTreatments(states).canAdvance <==> ClassifyTreatments(states).state == PageState.Complete
  {
    if ClassifyTreatments(states).canAdvance {
      forall i | 0 <= i < |states| ensures IsTerminal(states[i]) {
        assert states[i] in states;
        assert states[i] != UnitState.Pending && states[i] != UnitState.Failed;
      }
    }
  }

  function UnitClassification(t: UnitState): (Outcome, Recovery) {
    match t
    case Persisted | Replay => (Outcome.Success, NoAction)
    case Quarantine => (Outcome.Quarantine, Recovery.Quarantine)
    case Conflict => (Outcome.Conflict, ConflictReview)
    case _ => (TemporaryFailure, Recovery.Retry)
  }

  // ---------- trailing position numbers ----------

  predicate IsDigit(c: char) { '0' <= c <= '9' }

  predicate IsSeparator(c: char) { c == ':' || c == '_' || c == '-' }

  function TrailingDigits(s: string): nat {
    if s == "" || !IsDigit(s[|s| - 1]) then 0 else 1 + TrailingDigits(s[..|s| - 1])
  }

  lemma TrailingDigitsOf(s: string)
    ensures TrailingDigits(s) <= |s|
    ensures forall i | |s| - TrailingDigits(s) <= i < |s| :: IsDigit(s[i])
  {}

  /** Digits beyond '0' to '9' count as zero; `PositionNumber` applies this to digits only. */
  function DecimalValue(s: string): nat {
    if s == "" then 0
    else 10 * DecimalValue(s[..|s| - 1]) + (if IsDigit(s[|s| - 1]) then s[|s| - 1] as int - '0' as int else 0)
  }

  /** `_position_number`: the digits that end the text, when they start it or follow ':', '_' or '-'. */
  function PositionNumber(s: string): Option<nat> {
    var n := TrailingDigits(s);
    TrailingDigitsOf(s);
    if n == 0 then None
    else if n < |s| && !IsSeparator(s[|s| - n - 1]) then None
    else Some(DecimalValue(s[|s| - n..]))
  }

  function Decimal(n: nat): (s: string)
    ensures |s| > 0 && forall i | 0 <= i < |s| :: IsDigit(s[i])
  {
    (if n < 10 then "" else Decimal(n / 10)) + ['0' + (n % 10) as char]
  }

  lemma {:induction false} DecimalRoundTrip(n: nat)
    ensures DecimalValue(Decimal(n)) == n
  {
    if n >= 10 {
      DecimalRoundTrip(n / 10);
      assert Decimal(n)[..|Decimal(n)| - 1] == Decimal(n / 10);
    }
  }

  lemma {:induction false} TrailingDigitsAre(s: string, k: nat)
    requires k <= |s| && forall i | |s| - k <= i < |s| :: IsDigit(s[i])
    requires k < |s| ==> !IsDigit(s[|s| - k - 1])
    ensures TrailingDigits(s) == k
  {
    if k > 0 {
      assert IsDigit(s[|s| - 1]);
      TrailingDigitsAre(s[..|s| - 1], k - 1);
    }
  }

  lemma DigitsAfter(front: string, d: string)
    requires forall i | 0 <= i < |d| :: IsDigit(d[i])
    requires front != "" ==> !IsDigit(front[|front| - 1])
    ensures TrailingDigits(front + d) == |d| && (front + d)[|front|..] == d
    ensures front != "" ==> (front + d)[|front| - 1] == front[|front| - 1]
  {
    var s := front + d;
    assert forall i | |front| <= i < |s| :: s[i] == d[i - |front|];
    TrailingDigitsAre(s, |d|);
  }

  lemma PositionNumberAfter(prefix: string, d: string)
    requires d != "" && forall i | 0 <= i < |d| :: IsDigit(d[i])
    requires prefix == "" || IsSeparator(prefix[|prefix| - 1])
    ensures PositionNumber(prefix + d) == Some(DecimalValue(d))
  {
    DigitsAfter(prefix, d);
  }

  /** A rendered number is read back, alone or after a prefix ending in a separator. */
  lemma PositionNumberReads(prefix: string, n: nat)
    requires prefix == "" || IsSeparator(prefix[|prefix| - 1])
    ensures PositionNumber(prefix + Decimal(n)) == Some(n)
  {
    PositionNumberAfter(prefix, Decimal(n));
    DecimalRoundTrip(n);
  }

  /** A position that does not end in digits, or whose digits follow other text, has no number. */
  lemma PositionNumberAbsent(prefix: string, c: char, d: string)
    requires !('0' <= c <= '9') && forall i | 0 <= i < |d| :: '0' <= d[i] <= '9'
    ensures PositionNumber("") == None
    ensures PositionNumber(prefix + [c] + d)
            == if d != "" && (c == ':' || c == '_' || c == '-') then Some(DecimalValue(d)) else None
  {
    DigitsAfter(prefix + [c], d);
  }

  // ---------- contexts and positions ----------

  function Text(o: Option<string>): string {
    if o.Some? then o.value else ""
  }

  function DefaultKey(cursor: string, nsu: string): string {
    if cursor != "" then "cursor:" + cursor else if nsu != "" then "nsu:" + nsu else "initial"
  }

  function PageKey(c: Context): string {
    if Text(c.pageKey) != "" then Text(c.pageKey) else DefaultKey(Text(c.requestCursor), Text(c.requestNsu))
  }

  /** The position kind a family continues from. */
  function Requested(p: Page): string {
    if p.scope.family == Nfe then p.requestCursor else p.requestNsu
  }

  function NextOf(p: Page): string {
    if p.scope.family == Nfe then p.nextCursor else p.nextNsu
  }

  function CheckpointOf(s: Store, scope: Scope): Checkpoint {
    if scope in s.checkpoints then s.checkpoints[scope] else Checkpoint("", "", None)
  }

  function Position(s: Store, scope: Scope): string {
    if scope.family == Nfe then CheckpointOf(s, scope).cursor else CheckpointOf(s, scope).nsu
  }

  function OtherPosition(s: Store, scope: Scope): string {
    if scope.family == Nfe then CheckpointOf(s, scope).nsu else CheckpointOf(s, scope).cursor
  }

  /** `IngestionContext.validate` and `_validate_response_position`. */
  predicate Acceptable(c: Context, r: Response) {
    && K.IsUuidText(c.scope.company)
    && K.IsReference(c.scope.flow) && K.IsReference(c.source) && K.IsReference(c.executionRef) && K.IsReference(c.correlation)
    && !(c.requestCursor.Some? && c.requestNsu.Some?)
    && (c.requestCursor.Some? ==> K.IsReference(c.requestCursor.value))
    && (c.requestNsu.Some? ==> K.IsReference(c.requestNsu.value))
    && (c.pageKey.Some? ==> K.IsReference(c.pageKey.value))
    && (c.documentFlow.Some? ==> K.IsReference(c.documentFlow.value))
    && (if c.scope.family == Nfe then r.nextNsu.None? else r.nextCursor.None?)
  }

  // ---------- pages ----------

  function FindPage(pages: seq<Page>, scope: Scope, key: string): (r: Option<nat>)
    ensures r.Some? ==> r.value < |pages| && pages[r.value].scope == scope && pages[r.value].key == key
    ensures r.None? ==> forall i | 0 <= i < |pages| :: !(pages[i].scope == scope && pages[i].key == key)
  {
    if pages == [] then None
    else
      match FindPage(pages[..|pages| - 1], scope, key)
      case Some(i) => Some(i)
      case None =>
        var last := pages[|pages| - 1];
        if last.scope == scope && last.key == key then Some(|pages| - 1) else None
  }

  function NewPage(s: Store, c: Context, r: Response): Page {
    var cl := ClassifyResponse(r);
    var requested := if c.scope.family == Nfe then Text(c.requestCursor) else Text(c.requestNsu);
    var stale := Position(s, c.scope) != requested;
    Page(c.scope, PageKey(c), Text(c.requestCursor), Text(c.requestNsu), Text(r.nextCursor), Text(r.nextNsu), r.outcome,
         if stale then PageState.Failed else PageState.Pending,
         if stale then TemporaryFailure else cl.outcome,
         if stale then Reconcile else cl.recovery,
         if !stale then "" else if requested != "" then "stale_cursor" else "checkpoint_position_mismatch",
         |r.units|, false)
  }

  /** `_register_page`: the store, the page and whether it was created. */
  function RegisterPage(s: Store, c: Context, r: Response): (Store, nat, bool) {
    var s1 := s.(checkpoints := s.checkpoints[c.scope := CheckpointOf(s, c.scope)]);
    match FindPage(s.pages, c.scope, PageKey(c))
    case Some(p) => (s1, p, false)
    case None => (s1.(pages := s.pages + [NewPage(s, c, r)]), |s.pages|, true)
  }

  predicate CanResume(p: Page, r: Response) {
    && p.state != PageState.Complete && p.state != PageState.Empty
    && (p.recovery == Recovery.Retry || p.recovery == Reconcile || p.recovery == NoAction)
    && p.adapterOutcome != r.outcome
  }

  function PrepareRetry(s: Store, p: nat, r: Response): Store
    requires p < |s.pages|
  {
    var cl := ClassifyResponse(r);
    s.(pages := s.pages[p := s.pages[p].(
         adapterOutcome := r.outcome, nextCursor := Text(r.nextCursor), nextNsu := Text(r.nextNsu),
         state := PageState.Pending, outcome := cl.outcome, recovery := cl.recovery,
         safeError := "", unitCount := |r.units|, finalized := false)])
  }

  /** States of the units of a page, oldest first. */
  function StatesOf(units: seq<Unit>, p: nat): seq<UnitState> {
    if units == [] then []
    else
      var last := units[|units| - 1];
      StatesOf(units[..|units| - 1], p) + (if last.page == p then [last.state] else [])
  }

  predicate AllTerminal(states: seq<UnitState>) {
    forall i | 0 <= i < |states| :: IsTerminal(states[i])
  }

  predicate Durable(s: Store, p: nat)
    requires p < |s.pages|
  {
    s.pages[p].unitCount == |StatesOf(s.units, p)| && AllTerminal(StatesOf(s.units, p))
  }

  predicate Parked(p: Page) {
    && (match p.state
        case Failed | NoCoverage | Unavailable | Retry | Cooldown | Blocked => true
        case _ => false)
    && p.safeError != ""
  }

  /** The continuation refused at the compare-and-swap, with its reason; `None` when it is taken. */
  function Refused(p: Page): Option<string> {
    var next, requested := NextOf(p), Requested(p);
    if p.scope.family == Nfe then
      if next != "" && next == requested then Some("repeated_cursor") else None
    else if requested == "" && next == "" then None
    else if next == requested then Some("repeated_nsu")
    else if PositionNumber(requested).Some? && PositionNumber(next).Some?
            && PositionNumber(next).value < PositionNumber(requested).value then Some("non_monotonic_nsu")
    else None
  }

  /** The checkpoint after an accepted finish: NF-e keeps its cursor on a last page, ADN takes even an empty NSU. */
  function Advanced(c: Checkpoint, p: Page, id: nat): Checkpoint {
    if p.scope.family == Nfe then
      c.(cursor := if p.nextCursor == "" then c.cursor else p.nextCursor, lastPage := Some(id))
    else c.(nsu := p.nextNsu, lastPage := Some(id))
  }

  /** `_finish_page`. */
  function FinishPage(s: Store, p: nat, target: PageState, reason: string, outcome: Outcome, recovery: Recovery): (r: Store)
    requires p < |s.pages|
    ensures |r.pages| == |s.pages| && r.units == s.units && r.artifacts == s.artifacts && r.docs == s.docs
  {
    var page := s.pages[p];
    if Parked(page) then s
    else if target != PageState.Complete && target != PageState.Empty then
      s.(pages := s.pages[p := page.(state := target, outcome := outcome, recovery := recovery,
                                     safeError := if reason != "" then SafeReason(reason) else "")])
    else if !Durable(s, p) then
      s.(pages := s.pages[p := page.(state := PageState.Partial, outcome := Outcome.Partial, recovery := Recovery.Retry,
                                     safeError := "unit_pending")])
    else if Position(s, page.scope) != Requested(page) then
      s.(pages := s.pages[p := page.(state := PageState.Failed, safeError := "stale_checkpoint")])
    else TakeContinuation(s, p, target, outcome, recovery)
  }

  /** The tail of `_finish_page`, once the compare of the compare-and-swap succeeded. */
  function TakeContinuation(s: Store, p: nat, target: PageState, outcome: Outcome, recovery: Recovery): (r: Store)
    requires p < |s.pages|
    ensures |r.pages| == |s.pages| && r.units == s.units && r.artifacts == s.artifacts && r.docs == s.docs
  {
    var page := s.pages[p];
    match Refused(page)
    case Some(why) =>
      s.(pages := s.pages[p := page.(state := PageState.Failed, outcome := TemporaryFailure, recovery := Reconcile,
          safeError := why)])
    case None =>
      // a page left Failed without a reason keeps that state unless the family's last-page branch rewrites it
      if page.state == PageState.Failed && !LastPage(page) then
        s.(pages := s.pages[p := page.(outcome := outcome, recovery := recovery)])
      else
        s.(pages := s.pages[p := page.(state := target, outcome := outcome, recovery := recovery, finalized := true)],
           checkpoints := s.checkpoints[page.scope := Advanced(CheckpointOf(s, page.scope), page, p)])
  }

  predicate LastPage(p: Page) {
    if p.scope.family == Nfe then p.nextCursor == "" else p.requestNsu == "" && p.nextNsu == ""
  }

  // ---------- units ----------

  function FindUnit(units: seq<Unit>, p: nat, identity: string): (r: Option<nat>)
    ensures r.Some? ==> r.value < |units| && units[r.value].page == p && units[r.value].identity == identity
    ensures r.None? ==> forall i | 0 <= i < |units| :: !(units[i].page == p && units[i].identity == identity)
  {
    if units == [] then None
    else
      match FindUnit(units[..|units| - 1], p, identity)
      case Some(i) => Some(i)
      case None =>
        var last := units[|units| - 1];
        if last.page == p && last.identity == identity then Some(|units| - 1) else None
  }

  function NewUnit(p: nat, scope: Scope, u: FiscalUnit): Unit {
    Unit(p, scope, u.identity, u.kind, u.parentIdentity, u.contentHash, None, None, None,
         UnitState.Pending, Outcome.Unknown, NoAction, "", 0, "", "")
  }

  /** `_register_unit`: a changed hash reopens the unit but does not update the stored hash. */
  function RegisterUnit(s: Store, p: nat, scope: Scope, u: FiscalUnit): (r: (Store, nat))
    ensures r.1 < |r.0.units| && r.0.units[r.1].page == p && r.0.units[r.1].identity == u.identity
  {
    match FindUnit(s.units, p, u.identity)
    case None => (s.(units := s.units + [NewUnit(p, scope, u)]), |s.units|)
    case Some(i) =>
      if s.units[i].contentHash == u.contentHash then (s, i)
      else (s.(units := s.units[i := s.units[i].(state := UnitState.Pending, safeReason := "content_hash_changed")]), i)
  }

  function Touch(s: Store, u: nat): Store
    requires u < |s.units|
  {
    s.(units := s.units[u := s.units[u].(attempts := s.units[u].attempts + 1)])
  }

  function Link(s: Store, u: nat, a: nat, hash: Digest): Store
    requires u < |s.units|
  {
    s.(units := s.units[u := s.units[u].(artifact := Some(a), linked := hash)])
  }

  datatype Verdict =
    | Fail(reason: string)
    | Finish(treatment: UnitState, reason: string, outcome: Outcome, recovery: Recovery, document: Option<string>,
        event: Option<string>)

  /** `_finish_unit`: document and event are only overwritten when given. */
  function FinishUnit(s: Store, u: nat, a: nat, hash: Digest, v: Verdict): Store
    requires u < |s.units| && v.Finish?
  {
    var row := s.units[u];
    s.(units := s.units[u := row.(
         artifact := Some(a), state := v.treatment, outcome := v.outcome, recovery := v.recovery,
         safeReason := if v.reason != "" then SafeReason(v.reason) else "",
         document := if v.document.Some? then v.document else row.document,
         event := if v.event.Some? then v.event else row.event,
         linked := hash, treated := hash)])
  }

  function FailUnit(s: Store, u: nat, reason: string, outcome: Outcome): Store
    requires u < |s.units|
  {
    s.(units := s.units[u := s.units[u].(state := UnitState.Failed, outcome := outcome, recovery := Recovery.Retry,
                                         safeReason := SafeReason(reason))])
  }
}
