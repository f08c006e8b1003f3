/** Where an `ingest` leaves its page and its scope's position, exactly, for every response. */
module IngestionOutcomes {
  import opened Options
  import opened Ingestion
  import opened IngestionCalls
  import opened IngestionSteps
  import opened IngestionRuns
  import opened IngestionReplay
  import opened IngestionContent
  import opened IngestionAnswers
  import A = Artifacts
  import E = EvidenceStore
  import K = IdentityKeys

  // ---------- the response alone ----------

  /** The text a failure or partial response leaves: its own code when it has one, else its name. */
  predicate NamesFailure(r: Response, reason: string) {
    && (r.errorCode != "" ==> reason == if IsSafeReason(r.errorCode) then r.errorCode else "ingestion_failure")
    && (r.errorCode == "" ==>
          reason == match r.outcome
                    case NoCoverage => "no_coverage" case Unavailable => "unavailable" case Timeout => "timeout"
                    case Partial => "partial" case Cooldown => "cooldown" case Blocked => "blocked" case Conflict => "conflict"
                    case Malformed => "malformed" case EventWithoutParent => "event_without_parent"
                    case RepeatedCursor => "repeated_cursor" case Success => "success" case Empty => "empty"
                    case Duplicate => "duplicate" case Unknown => "unknown")
  }

  /** Page state, outcome and recovery of a failure response. */
  predicate FailureLands(o: FiscalOutcome, state: PageState, outcome: Outcome, recovery: Recovery) {
    match o
    case NoCoverage => (state, outcome, recovery) == (PageState.NoCoverage, Outcome.NoCoverage, NoAction)
    case Unavailable => (state, outcome, recovery) == (PageState.Unavailable, Outcome.Unavailable, Recovery.Retry)
    case Timeout => (state, outcome, recovery) == (PageState.Retry, TemporaryFailure, Recovery.Retry)
    case RepeatedCursor => (state, outcome, recovery) == (PageState.Retry, TemporaryFailure, Reconcile)
    case Cooldown => (state, outcome, recovery) == (PageState.Cooldown, Outcome.Cooldown, Recovery.Cooldown)
    case Blocked => (state, outcome, recovery) == (PageState.Blocked, PermanentFailure, Recovery.Blocked)
    case EventWithoutParent => (state, outcome, recovery) == (PageState.Failed, Outcome.Quarantine, Recovery.Quarantine)
    case Malformed => (state, outcome, recovery) == (PageState.Failed, Outcome.Malformed, Recovery.Quarantine)
    case Conflict => (state, outcome, recovery) == (PageState.Failed, Outcome.Conflict, ConflictReview)
    case _ => false
  }

  predicate Failure(o: FiscalOutcome) {
    && o != FiscalOutcome.Success && o != FiscalOutcome.Empty && o != Duplicate
    && o != FiscalOutcome.Partial && o != FiscalOutcome.Unknown
  }

  lemma FailureExactly(r: Response)
    ensures IsFailureOutcome(r.outcome) <==> Failure(r.outcome)
    ensures Failure(r.outcome) ==>
              var cl := ClassifyResponse(r);
              FailureLands(r.outcome, cl.state, cl.outcome, cl.recovery) && NamesFailure(r, cl.reason)
  {
    hide IsSafeReason, SafeReason;
    NameIsSafe(r.outcome);
    CodeIsKept(r.errorCode);
  }

  /** A safe reason is up to 64 lower-case letters, digits and three marks, and starts with a letter. */
  lemma SafeReasonExactly(s: string)
    ensures IsSafeReason(s) <==>
              && 0 < |s| <= 64 && 'a' <= s[0] <= 'z'
              && forall i | 0 < i < |s| :: 'a' <= s[i] <= 'z' || s[i] in "0123456789" || s[i] == '_' || s[i] == '.' || s[i] == '-'
  {
  }

  lemma CodeIsKept(code: string)
    ensures code != "" ==> SafeReason(code) == if IsSafeReason(code) then code else "ingestion_failure"
  {
  }

  lemma NameIsSafe(o: FiscalOutcome)
    ensures SafeReason(OutcomeText(o)) == OutcomeText(o)
  {
    assert "_.-"[0] == '_';
  }

  // ---------- the rows of a page ----------

  function RowsOf(units: seq<Unit>, p: nat): set<nat> {
    set i: nat | i < |units| && units[i].page == p
  }

  lemma {:induction false} StatesCount(units: seq<Unit>, p: nat)
    ensures |StatesOf(units, p)| == |RowsOf(units, p)|
  {
    if units != [] {
      var n := |units| - 1;
      StatesCount(units[..n], p);
      var init := RowsOf(units[..n], p);
      assert RowsOf(units, p) == if units[n].page == p then init + {n} else init;
    }
  }

  /** Among the states of a page, oldest first, a row comes after as many as the page has earlier rows. */
  lemma {:induction false} StatesAre(units: seq<Unit>, p: nat, i: nat)
    requires i < |units| && units[i].page == p
    ensures var k := |RowsOf(units[..i], p)|; k < |StatesOf(units, p)| && StatesOf(units, p)[k] == units[i].state
  {
    var n := |units| - 1;
    StatesCount(units[..n], p);
    if i < n {
      assert units[..n][..i] == units[..i];
      StatesAre(units[..n], p, i);
    }
  }

  /** The page has exactly `count` rows, all terminal. */
  ghost predicate AllIn(s: Store, p: nat, count: nat) {
    |RowsOf(s.units, p)| == count && forall i | 0 <= i < |s.units| && s.units[i].page == p :: IsTerminal(s.units[i].state)
  }

  lemma DurableExactly(s: Store, p: nat)
    requires p < |s.pages|
    ensures Durable(s, p) <==> AllIn(s, p, s.pages[p].unitCount)
  {
    StatesCount(s.units, p);
    AllTerminalMeans(s.units, p);
  }

  // ---------- where a page lands ----------

  predicate Waiting(b: Page, reason: string) {
    b.state == PageState.Partial && b.outcome == Outcome.Partial && b.recovery == Recovery.Retry && b.safeError == reason
  }

  predicate AllDone(treated: seq<UnitState>) {
    forall j | 0 <= j < |treated| :: IsTerminal(treated[j])
  }

  /** Why the page's continuation cannot be taken, if it cannot: it asks for what was just requested, or an
      NSU with a lower number. */
  predicate Objection(page: Page, why: Option<string>) {
    var next, requested := NextOf(page), Requested(page);
    var repeated := next != "" && next == requested;
    var falling := next != requested && PositionNumber(requested).Some? && PositionNumber(next).Some?
                   && PositionNumber(next).value < PositionNumber(requested).value;
    if page.scope.family == Nfe then why == if repeated then Some("repeated_cursor") else None
    else why == if repeated then Some("repeated_nsu") else if falling then Some("non_monotonic_nsu") else None
  }

  lemma ObjectionExactly(page: Page)
    ensures Objection(page, Refused(page))
  {
    hide PositionNumber;
  }

  /** A closed page: empty without units, otherwise complete, with the worst of its treatments. */
  predicate ClosedFor(r: Response, treated: seq<UnitState>, b: Page) {
    && b.finalized && b.safeError == ""
    && (r.units == [] ==> b.state == PageState.Empty && b.outcome == ValidEmpty && b.recovery == NoAction)
    && (r.units != [] ==> b.state == PageState.Complete && WorstOf(treated, b.outcome, b.recovery))
  }

  predicate WorstOf(treated: seq<UnitState>, outcome: Outcome, recovery: Recovery) {
    if UnitState.Conflict in treated then outcome == Outcome.Conflict && recovery == ConflictReview
    else if UnitState.Quarantine in treated then outcome == Outcome.Quarantine && recovery == Recovery.Quarantine
    else outcome == Outcome.Success && recovery == NoAction
  }

  /** Only a conclusive answer can close a page; an unknown one without units cannot. */
  predicate CanClose(r: Response) {
    && !Failure(r.outcome) && r.outcome != FiscalOutcome.Partial && !(r.outcome == FiscalOutcome.Unknown && r.units == [])
  }

  /** From the opened page `a` to the page `b` after the call. */
  predicate Landed(r: Response, treated: seq<UnitState>, stored: bool, here: bool, why: Option<string>, a: Page, b: Page) {
    && b == a.(state := b.state, outcome := b.outcome, recovery := b.recovery, safeError := b.safeError, finalized := b.finalized)
    && (if Failure(r.outcome) then FailureLands(r.outcome, b.state, b.outcome, b.recovery) && NamesFailure(r, b.safeError)
        else if r.outcome == FiscalOutcome.Partial then Waiting(b, "partial_response")
        else if !CanClose(r) then
          b.state == PageState.Failed && b.outcome == Outcome.Unknown && b.recovery == Reconcile && b.safeError == "unknown_outcome"
        else if !AllDone(treated) || !stored then Waiting(b, "unit_pending")
        else if !here then b == a.(state := PageState.Failed, safeError := "stale_checkpoint")
        else if why.Some? then
          b == a.(state := PageState.Failed, outcome := TemporaryFailure, recovery := Reconcile, safeError := why.value)
        else ClosedFor(r, treated, b))
    && (b.finalized <==> CanClose(r) && AllDone(treated) && stored && here && why.None?)
  }

  /** An open page that no finish has touched yet, as a response left it. */
  predicate JustOpened(page: Page, r: Response) {
    page.state == PageState.Pending && page.safeError == "" && !page.finalized && page.unitCount == |r.units|
  }

  lemma TreatedExactly(r: Response, treated: seq<UnitState>)
    requires CanClose(r) && r.units != []
    ensures var cl := FinalClassification(r, treated);
            && (AllDone(treated) ==> cl.state == PageState.Complete && WorstOf(treated, cl.outcome, cl.recovery))
            && (!AllDone(treated) ==> cl == Classification(PageState.Partial, Outcome.Partial, Recovery.Retry,
                "unit_pending", false))
  {
    TreatmentsAdvance(treated);
  }

  lemma EmptyExactly(r: Response)
    requires r.units == [] && !Failure(r.outcome)
    ensures r.outcome == FiscalOutcome.Partial ==>
              FinalClassification(r, []) == Classification(PageState.Partial, Outcome.Partial, Recovery.Retry,
                  "partial_response", false)
    ensures CanClose(r) ==>
              var cl := FinalClassification(r, []);
              cl.state == PageState.Empty && cl.outcome == ValidEmpty && cl.recovery == NoAction
    ensures !CanClose(r) && r.outcome != FiscalOutcome.Partial ==>
              FinalClassification(r, []) == Classification(PageState.Failed, Outcome.Unknown, Reconcile, "unknown_outcome", false)
  {
    hide SafeReason;
  }

  /** A finish that does not close. */
  lemma LandsOpen(s: Store, p: nat, cl: Classification)
    requires p < |s.pages| && s.pages[p].state == PageState.Pending && !Closing(cl.state)
    ensures FinishAs(s, p, cl) == s.(pages := s.pages[p := s.pages[p].(state := cl.state, outcome := cl.outcome,
        recovery := cl.recovery,
                                                          safeError := if cl.reason != "" then SafeReason(cl.reason) else "")])
  {
  }

  /** A finish that would close: it needs every row, the requested position and an acceptable continuation. */
  lemma LandsClosing(s: Store, p: nat, cl: Classification)
    requires p < |s.pages| && Open(s.pages[p]) && Closing(cl.state)
    ensures var (a, t) := (s.pages[p], FinishAs(s, p, cl));
            |t.pages| == |s.pages| && (forall q | 0 <= q < |t.pages| && q != p :: t.pages[q] == s.pages[q]) &&
            var b := t.pages[p];
            if !AllIn(s, p, a.unitCount) then
              t.checkpoints == s.checkpoints
              && b == a.(state := PageState.Partial, outcome := Outcome.Partial, recovery := Recovery.Retry,
                  safeError := "unit_pending")
            else if Position(s, a.scope) != Requested(a) then
              t.checkpoints == s.checkpoints && b == a.(state := PageState.Failed, safeError := "stale_checkpoint")
            else if Refused(a).Some? then
              t.checkpoints == s.checkpoints
              && b == a.(state := PageState.Failed, outcome := TemporaryFailure, recovery := Reconcile,
                  safeError := Refused(a).value)
            else
              && b == a.(state := cl.state, outcome := cl.outcome, recovery := cl.recovery, finalized := true)
              && t.checkpoints == s.checkpoints[a.scope := CheckpointOf(t, a.scope)]
              && CheckpointOf(t, a.scope).lastPage == Some(p)
  {
    hide Durable, Refused, Position, Requested, CheckpointOf, SafeReason, LastPage;
    DurableExactly(s, p);
    var a, t := s.pages[p], FinishAs(s, p, cl);
    if !Durable(s, p) {
      assert t.pages == s.pages[p := t.pages[p]];
    } else if Position(s, a.scope) != Requested(a) {
      assert t.pages == s.pages[p := t.pages[p]];
    } else if Refused(a).Some? {
      assert t.pages == s.pages[p := t.pages[p]];
    } else {
      Taken(s, p, cl);
    }
  }

  lemma Taken(s: Store, p: nat, cl: Classification)
    requires p < |s.pages| && Open(s.pages[p]) && Refused(s.pages[p]).None?
    ensures var (a, t) := (s.pages[p], TakeContinuation(s, p, cl.state, cl.outcome, cl.recovery));
            && t.pages == s.pages[p := a.(state := cl.state, outcome := cl.outcome, recovery := cl.recovery, finalized := true)]
            && t.checkpoints == s.checkpoints[a.scope := CheckpointOf(t, a.scope)]
            && CheckpointOf(t, a.scope).lastPage == Some(p)
  {
    hide Refused, LastPage;
  }

  function ClassifiedAs(r: Response, treated: seq<UnitState>): Classification {
    if IsFailureOutcome(r.outcome) then ClassifyResponse(r) else FinalClassification(r, treated)
  }

  /** The page after its finish. */
  lemma FinishLands(s: Store, p: nat, r: Response, treated: seq<UnitState>)
    requires p < |s.pages| && JustOpened(s.pages[p], r) && (r.units == [] ==> treated == [])
    ensures var (a, t) := (s.pages[p], FinishAs(s, p, ClassifiedAs(r, treated)));
            |t.pages| == |s.pages| && (forall q | 0 <= q < |t.pages| && q != p :: t.pages[q] == s.pages[q]) &&
            Landed(r, treated, AllIn(s, p, |r.units|), Position(s, a.scope) == Requested(a), Refused(a), a, t.pages[p])
    ensures var (a, t) := (s.pages[p], FinishAs(s, p, ClassifiedAs(r, treated)));
            if t.pages[p].finalized then
              t.checkpoints == s.checkpoints[a.scope := CheckpointOf(t, a.scope)] && CheckpointOf(t, a.scope).lastPage == Some(p)
            else t.checkpoints == s.checkpoints
  {
    hide ClassifiedAs, FinishAs, AllIn, Position, Requested, Refused, AllDone, WorstOf, NamesFailure, FailureLands,
        CheckpointOf, SafeReason;
    var cl := ClassifiedAs(r, treated);
    ClassifiedExactly(r, treated);
    if Closing(cl.state) {
      LandsClosing(s, p, cl);
    } else {
      LandsOpen(s, p, cl);
    }
  }

  /** What the response and its treatments alone decide. */
  lemma ClassifiedExactly(r: Response, treated: seq<UnitState>)
    requires r.units == [] ==> treated == []
    ensures var cl := ClassifiedAs(r, treated);
            && (Closing(cl.state) <==> CanClose(r) && AllDone(treated))
            && (Closing(cl.state) ==> cl.state == if r.units == [] then PageState.Empty else PageState.Complete)
            && (Closing(cl.state) ==>
                  if r.units == [] then cl.outcome == ValidEmpty && cl.recovery == NoAction else WorstOf(treated,
                      cl.outcome, cl.recovery))
            && (!Closing(cl.state) ==> cl.reason != "" && SafeReason(cl.reason) == cl.reason)
            && (Failure(r.outcome) ==> FailureLands(r.outcome, cl.state, cl.outcome, cl.recovery) && NamesFailure(r, cl.reason))
            && (r.outcome == FiscalOutcome.Partial ==>
                  cl == Classification(PageState.Partial, Outcome.Partial, Recovery.Retry, "partial_response", false))
            && (!Failure(r.outcome) && r.outcome != FiscalOutcome.Partial && !CanClose(r) ==>
                  cl == Classification(PageState.Failed, Outcome.Unknown, Reconcile, "unknown_outcome", false))
            && (CanClose(r) && !AllDone(treated) ==>
                  cl == Classification(PageState.Partial, Outcome.Partial, Recovery.Retry, "unit_pending", false))
  {
    hide FinalClassification, ClassifyResponse, AllDone, WorstOf, NamesFailure, FailureLands, SafeReason;
    FailureExactly(r);
    FixedReasons();
    if Failure(r.outcome) {
      FailureOpen(r);
    } else if r.outcome == FiscalOutcome.Partial {
      PartialExactly(r, treated);
    } else if r.units == [] {
      EmptyExactly(r);
      assert AllDone([]) by { NothingLeft(); }
    } else {
      TreatedExactly(r, treated);
    }
  }

  lemma NothingLeft()
    ensures AllDone([])
  {
  }

  lemma FixedReasons()
    ensures SafeReason("partial_response") == "partial_response" && SafeReason("unit_pending") == "unit_pending"
    ensures SafeReason("unknown_outcome") == "unknown_outcome"
  {
    assert "_.-"[0] == '_';
  }

  lemma PartialExactly(r: Response, treated: seq<UnitState>)
    requires r.outcome == FiscalOutcome.Partial
    ensures FinalClassification(r, treated) == Classification(PageState.Partial, Outcome.Partial, Recovery.Retry,
        "partial_response", false)
  {
  }

  lemma FailureOpen(r: Response)
    requires Failure(r.outcome)
    ensures var cl := ClassifyResponse(r); !Closing(cl.state) && cl.reason != "" && SafeReason(cl.reason) == cl.reason
  {
    hide IsSafeReason;
    FailureExactly(r);
    FailureReason(r);
  }

  lemma FailureReason(r: Response)
    requires Failure(r.outcome)
    ensures var cl := ClassifyResponse(r); cl.reason != "" && SafeReason(cl.reason) == cl.reason
  {
    hide IsSafeReason;
    SafeTwice(if r.errorCode != "" then r.errorCode else OutcomeText(r.outcome));
  }

  lemma SafeTwice(text: string)
    ensures SafeReason(SafeReason(text)) == SafeReason(text) != ""
  {
    assert "_.-"[0] == '_';
  }

  // ---------- ingest ----------

  /** Exactly these requests are refused: a malformed company or reference, two positions at once, or an
      answer with a position of the other kind. */
  lemma RefusedRequests(c: Context, r: Response)
    ensures !Acceptable(c, r) <==>
              || !K.IsUuidText(c.scope.company)
              || (exists text | text in {c.scope.flow, c.source, c.executionRef, c.correlation} :: !K.IsReference(text))
              || (exists given | given in {c.requestCursor, c.requestNsu, c.pageKey, c.documentFlow} ::
                    given.Some? && !K.IsReference(given.value))
              || (c.requestCursor.Some? && c.requestNsu.Some?)
              || (if c.scope.family == Nfe then r.nextNsu.Some? else r.nextCursor.Some?)
  {
    hide K.IsReference, K.IsUuidText;
  }

  /** The page key of a request: the caller's, else its cursor or NSU, else "initial". */
  predicate KeyOf(c: Context, key: string) {
    var (cursor, nsu) := (Text(c.requestCursor), Text(c.requestNsu));
    key == if Text(c.pageKey) != "" then Text(c.pageKey)
           else if cursor != "" then "cursor:" + cursor else if nsu != "" then "nsu:" + nsu else "initial"
  }

  function RequestedBy(c: Context): string {
    if c.scope.family == Nfe then Text(c.requestCursor) else Text(c.requestNsu)
  }

  /** An existing page may be reopened by another outcome while it is not closed and nothing else is asked for. */
  predicate MayReopen(page: Page, r: Response) {
    && page.state != PageState.Complete && page.state != PageState.Empty
    && page.recovery != Recovery.Cooldown && page.recovery != Recovery.Blocked && page.recovery != Recovery.Quarantine
    && page.recovery != ConflictReview && page.adapterOutcome != r.outcome
  }

  /** The tables once the call has opened or reopened its page. */
  function Opened(s: Store, c: Context, r: Response): Store {
    var (s1, p, created) := RegisterPage(s, c, r);
    if created || p >= |s1.pages| then s1 else PrepareRetry(s1, p, r)
  }

  /** What a page says of its outcome while it is open. */
  ghost predicate Announces(r: Response, outcome: Outcome, recovery: Recovery) {
    if Failure(r.outcome) then exists state :: FailureLands(r.outcome, state, outcome, recovery)
    else if r.outcome == FiscalOutcome.Partial then outcome == Outcome.Partial && recovery == Recovery.Retry
    else if r.outcome == FiscalOutcome.Unknown then outcome == Outcome.Unknown && recovery == Reconcile
    else recovery == NoAction && outcome == if r.units != [] && r.outcome != FiscalOutcome.Empty then Outcome.Success
        else ValidEmpty
  }

  lemma AnnouncesExactly(r: Response)
    ensures var cl := ClassifyResponse(r); Announces(r, cl.outcome, cl.recovery)
  {
    hide SafeReason, NamesFailure;
    FailureExactly(r);
    if Failure(r.outcome) {
      assert FailureLands(r.outcome, ClassifyResponse(r).state, ClassifyResponse(r).outcome, ClassifyResponse(r).recovery);
    }
  }

  /** The page carries the response: its continuation, outcome and unit count. */
  ghost predicate Carries(page: Page, c: Context, r: Response) {
    && page.scope == c.scope && KeyOf(c, page.key) && JustOpened(page, r)
    && page.nextCursor == Text(r.nextCursor) && page.nextNsu == Text(r.nextNsu) && page.adapterOutcome == r.outcome
    && Announces(r, page.outcome, page.recovery)
  }

  /** A new page is for the context's position; a reopened one is still for its own. */
  lemma OpenedExactly(s: Store, c: Context, r: Response)
    requires Runs(s, c, r)
    ensures var p, o := PageFor(s, c), Opened(s, c, r);
            && o.units == s.units && o.artifacts == s.artifacts && o.docs == s.docs
            && p < |o.pages| && Carries(o.pages[p], c, r)
            && (forall q | 0 <= q < |s.pages| && q != p :: q < |o.pages| && o.pages[q] == s.pages[q])
            && o.checkpoints == s.checkpoints[c.scope := CheckpointOf(s, c.scope)]
            && (if p < |s.pages| then
                  |o.pages| == |s.pages| && MayReopen(s.pages[p], r)
                  && o.pages[p].requestCursor == s.pages[p].requestCursor && o.pages[p].requestNsu == s.pages[p].requestNsu
                else
                  |o.pages| == |s.pages| + 1 && Position(s, c.scope) == RequestedBy(c)
                  && o.pages[p].requestCursor == Text(c.requestCursor) && o.pages[p].requestNsu == Text(c.requestNsu))
  {
    hide ClassifyResponse, Acceptable, FindPage, CheckpointOf, Announces;
    AnnouncesExactly(r);
  }

  /** Exactly when the call runs its page: the request is accepted, and its page is new and at the scope's
      position, or may be reopened. Otherwise no unit, artifact, document or position changes, and at most a
      parked page is added. */
  lemma RunsExactly(s: Store, c: Context, r: Response, env: nat -> UnitEnv)
    ensures var p, t := PageFor(s, c), Ingest(s, c, r, env);
            && (Runs(s, c, r) <==>
                  Acceptable(c, r) && if p < |s.pages| then MayReopen(s.pages[p], r) else Position(s, c.scope) == RequestedBy(c))
            && (!Runs(s, c, r) ==>
                  && t.units == s.units && t.artifacts == s.artifacts && t.docs == s.docs
                  && (forall scope :: Position(t, scope) == Position(s, scope))
                  && (if !Acceptable(c, r) || p < |s.pages| then t.pages == s.pages
                      else
                        && |t.pages| == |s.pages| + 1 && t.pages[..p] == s.pages
                        && t.pages[p].state == PageState.Failed && t.pages[p].outcome == TemporaryFailure
                            && t.pages[p].recovery == Reconcile
                        && t.pages[p].safeError == if RequestedBy(c) != "" then "stale_cursor" else "checkpoint_position_mismatch"))
  {
    hide ClassifyResponse, Acceptable, FindPage, RunPage;
  }

  /** The tables and treatments once the units of the response have been processed. */
  function Processed(s: Store, c: Context, r: Response, env: nat -> UnitEnv): (Store, seq<UnitState>) {
    if Failure(r.outcome) then (Opened(s, c, r), [])
    else UnitsUpTo(Opened(s, c, r), PageFor(s, c), c, r.units, env, |r.units|)
  }

  /** A call that ran its page: units, artifacts and documents are those of the processed response, the page
      lands as the response, its treatments, its rows, the position and the continuation say, and the
      position is the page's next one exactly when the page is finalized and names one to take. */
  ghost predicate Ran(s: Store, c: Context, r: Response, env: nat -> UnitEnv, t: Store) {
    var p, o := PageFor(s, c), Opened(s, c, r);
    var (u, treated) := Processed(s, c, r, env);
    && t.units == u.units && t.artifacts == u.artifacts && t.docs == u.docs
    && p < |o.pages| && |t.pages| == |o.pages| && (forall q | 0 <= q < |t.pages| && q != p :: t.pages[q] == o.pages[q])
    && (exists why :: Objection(o.pages[p], why)
                      && Landed(r, treated, AllIn(t, p, |r.units|), Position(s, c.scope) == Requested(o.pages[p]), why,
                          o.pages[p], t.pages[p]))
    && OthersKept(s, t, c.scope)
    && Position(t, c.scope)
       == (if t.pages[p].finalized && (c.scope.family == Nfe ==> NextOf(t.pages[p]) != "") then NextOf(t.pages[p])
           else Position(s, c.scope))
    && (t.pages[p].finalized ==> CheckpointOf(t, c.scope).lastPage == Some(p))
  }

  lemma IngestExactly(s: Store, c: Context, r: Response, env: nat -> UnitEnv)
    requires Runs(s, c, r)
    ensures Ran(s, c, r, env, Ingest(s, c, r, env))
  {
    hide UnitsUpTo, FinishAs, ClassifiedAs, Landed, AllIn, Objection, Refused, Requested, Position, CheckpointOf,
        NewPage, FindPage, Carries, Acceptable, CanResume, ClassifyResponse, PageKey;
    var p, o := PageFor(s, c), Opened(s, c, r);
    var (u, treated) := Processed(s, c, r, env);
    var t := Ingest(s, c, r, env);
    OpenedExactly(s, c, r);
    FailureExactly(r);
    assert t == RunPage(o, p, c, r, env);
    assert t == FinishAs(u, p, ClassifiedAs(r, treated)) by { RunIsFinish(o, p, c, r, env, u, treated); }
    ProcessedPages(s, c, r, env);
    SameTables(s, o, u, c.scope);
    assert JustOpened(u.pages[p], r) && u.pages[p].scope == c.scope by { CarriesMeans(o.pages[p], c, r); }
    FinishLands(u, p, r, treated);
    ObjectionExactly(o.pages[p]);
    FinishPosition(u, p, r, treated);
    FinishKeepsTables(u, p, ClassifiedAs(r, treated));
    AllInSame(u, t, p, |r.units|);
  }

  lemma CarriesMeans(page: Page, c: Context, r: Response)
    requires Carries(page, c, r)
    ensures JustOpened(page, r) && page.scope == c.scope
  {
  }

  lemma RunIsFinish(o: Store, p: nat, c: Context, r: Response, env: nat -> UnitEnv, u: Store, treated: seq<UnitState>)
    requires p < |o.pages| && (u, treated) == if IsFailureOutcome(r.outcome) then (o, [])
                                            else UnitsUpTo(o, p, c, r.units, env, |r.units|)
    ensures u.pages == o.pages && RunPage(o, p, c, r, env) == FinishAs(u, p, ClassifiedAs(r, treated))
  {
    hide UnitsUpTo, FinishAs, FinalClassification, ClassifyResponse;
  }

  lemma ProcessedPages(s: Store, c: Context, r: Response, env: nat -> UnitEnv)
    ensures var (u, treated) := Processed(s, c, r, env);
            && u.pages == Opened(s, c, r).pages && u.checkpoints == Opened(s, c, r).checkpoints
            && (r.units == [] ==> treated == [])
  {
    hide UnitsUpTo, Opened;
  }

  lemma SameTables(s: Store, o: Store, u: Store, scope: Scope)
    requires o.checkpoints == s.checkpoints[scope := CheckpointOf(s, scope)] && u.checkpoints == o.checkpoints
    ensures forall other :: Position(u, other) == Position(s, other) && OtherPosition(u, other) == OtherPosition(s, other)
  {
  }

  lemma AllInSame(u: Store, t: Store, p: nat, count: nat)
    requires t.units == u.units
    ensures AllIn(t, p, count) <==> AllIn(u, p, count)
  {
  }

  lemma FinishKeepsTables(s: Store, p: nat, cl: Classification)
    requires p < |s.pages|
    ensures var t := FinishAs(s, p, cl); t.units == s.units && t.artifacts == s.artifacts && t.docs == s.docs
  {
    hide FinishPage;
  }

  lemma FinishPosition(s: Store, p: nat, r: Response, treated: seq<UnitState>)
    requires p < |s.pages| && JustOpened(s.pages[p], r) && (r.units == [] ==> treated == [])
    ensures var (a, t) := (s.pages[p], FinishAs(s, p, ClassifiedAs(r, treated)));
            && OthersKept(s, t, a.scope) && p < |t.pages| && NextOf(t.pages[p]) == NextOf(a)
            && Position(t, a.scope) == if t.pages[p].finalized && (a.scope.family == Nfe ==> NextOf(a) != "")
                then NextOf(a) else Position(s, a.scope)
  {
    hide ClassifiedAs, AllIn, Position, Durable, AllDone, WorstOf, NamesFailure, FailureLands, CheckpointOf, FinishPage,
        PositionNumber;
    var cl := ClassifiedAs(r, treated);
    ClassifiedExactly(r, treated);
    FinishPageMoves(s, p, cl.state, cl.reason, cl.outcome, cl.recovery);
    DurableExactly(s, p);
    FinishLands(s, p, r, treated);
  }

  /** The treatments an answer lists: those of the response, unless the page would have closed but rows are
      missing or the checkpoint is stale; then, and when the call only looked at the page, those of its rows. */
  lemma ReplyLists(s: Store, c: Context, r: Response, env: nat -> UnitEnv)
    requires Acceptable(c, r)
    ensures var p, t, reply := PageFor(s, c), Ingest(s, c, r, env), IngestReply(s, c, r, env);
            && reply.Some? && reply.value.page == p
            && (!Runs(s, c, r) ==> reply.value.unitStates == StatesOf(t.units, p))
            && (Runs(s, c, r) ==>
                  var treated := Processed(s, c, r, env).1;
                  && p < |Opened(s, c, r).pages|
                  && var closes := AllIn(t, p, |r.units|) && Position(s, c.scope) == Requested(Opened(s, c, r).pages[p]);
                     reply.value.unitStates == if CanClose(r) && AllDone(treated) && !closes then StatesOf(t.units, p) else treated)
  {
    hide UnitsUpTo, FinishAs, ClassifiedAs, AllIn, Position, Requested, CheckpointOf, Acceptable, CanResume,
        ClassifyResponse, FindPage, NewPage, Carries, AllDone, StatesOf;
    if Runs(s, c, r) {
      var p, o := PageFor(s, c), Opened(s, c, r);
      var (u, treated) := Processed(s, c, r, env);
      OpenedExactly(s, c, r);
      FailureExactly(r);
      ProcessedPages(s, c, r, env);
      SameTables(s, o, u, c.scope);
      CarriesMeans(o.pages[p], c, r);
      ClassifiedExactly(r, treated);
      DurableExactly(u, p);
      IngestExactly(s, c, r, env);
      AllInSame(u, Ingest(s, c, r, env), p, |r.units|);
      assert IngestReply(s, c, r, env) == Some(RunReply(o, p, c, r, env));
      assert RunReply(o, p, c, r, env) == FinishReply(u, p, ClassifiedAs(r, treated), treated) by {
        RunReplies(o, p, c, r, env, u, treated);
      }
      FinishReplies(u, p, ClassifiedAs(r, treated), treated);
    }
  }

  lemma RunReplies(o: Store, p: nat, c: Context, r: Response, env: nat -> UnitEnv, u: Store, treated: seq<UnitState>)
    requires p < |o.pages| && (u, treated) == if IsFailureOutcome(r.outcome) then (o, [])
                                            else UnitsUpTo(o, p, c, r.units, env, |r.units|)
    ensures p < |u.pages| && RunReply(o, p, c, r, env) == FinishReply(u, p, ClassifiedAs(r, treated), treated)
  {
    hide UnitsUpTo, FinishReply, FinalClassification, ClassifyResponse;
  }

  lemma FinishReplies(u: Store, p: nat, cl: Classification, treated: seq<UnitState>)
    requires p < |u.pages| && u.pages[p].state == PageState.Pending
    ensures var t, reply := FinishAs(u, p, cl), FinishReply(u, p, cl, treated);
            && reply.page == p && t.units == u.units
            && reply.unitStates == if Closing(cl.state) && (!Durable(u, p) ||
                 Position(u, u.pages[p].scope) != Requested(u.pages[p]))
                                   then StatesOf(u.units, p) else treated
  {
    hide FinishPage, Durable, Position, Requested, StatesOf;
  }

  /** The conditions under which an `ingest` moves its scope's position, each readable from the request, the
      response, the treatments and the rows of the page. */
  ghost predicate MovesTo(s: Store, c: Context, r: Response, env: nat -> UnitEnv, next: string) {
    var p := PageFor(s, c);
    && Runs(s, c, r) && CanClose(r) && AllDone(Processed(s, c, r, env).1) && AllIn(Ingest(s, c, r, env), p, |r.units|)
    && p < |Opened(s, c, r).pages| && Position(s, c.scope) == Requested(Opened(s, c, r).pages[p])
    && Objection(Opened(s, c, r).pages[p], None)
    && next == (if c.scope.family == Nfe then Text(r.nextCursor) else Text(r.nextNsu))
    && next != Position(s, c.scope) && (c.scope.family == Nfe ==> next != "")
  }

  /** An `ingest` moves the position exactly then: to the response's own next position, with its page closed
      for what the treatments came to. */
  lemma IngestMovesExactly(s: Store, c: Context, r: Response, env: nat -> UnitEnv)
    ensures var p, t := PageFor(s, c), Ingest(s, c, r, env);
            && (Position(t, c.scope) != Position(s, c.scope) <==> MovesTo(s, c, r, env, Position(t, c.scope)))
            && (forall next | MovesTo(s, c, r, env, next) ::
                  Position(t, c.scope) == next && p < |t.pages| && Closed(t.pages[p])
                  && ClosedFor(r, Processed(s, c, r, env).1, t.pages[p]))
  {
    hide Ingest, Processed, Opened, AllIn, AllDone, Position, ClosedFor, RequestedBy;
    RunsExactly(s, c, r, env);
    if Runs(s, c, r) {
      IngestExactly(s, c, r, env);
      OpenedExactly(s, c, r);
      ObjectionOnce(Opened(s, c, r).pages[PageFor(s, c)]);
      ClosedIsClosed(r, Processed(s, c, r, env).1, Ingest(s, c, r, env).pages[PageFor(s, c)]);
    }
  }

  lemma ObjectionOnce(page: Page)
    ensures forall a, b | Objection(page, a) && Objection(page, b) :: a == b
  {
    hide PositionNumber;
  }

  lemma ClosedIsClosed(r: Response, treated: seq<UnitState>, page: Page)
    ensures ClosedFor(r, treated, page) ==> Closed(page)
  {
  }

  // ---------- treatments and rows ----------

  predicate DistinctUnits(units: seq<FiscalUnit>) {
    forall i, j | 0 <= i < j < |units| :: units[i].identity != units[j].identity
  }

  /** Some row of the page with this identity is in this state. */
  ghost predicate RowIn(t: Store, p: nat, identity: string, state: UnitState) {
    exists i: nat :: RowAt(t, i, p, identity) && t.units[i].state == state
  }

  /** When no identity is named twice, each treatment is the state its row is left in. */
  lemma {:induction false} TreatmentsAreRows(s: Store, p: nat, c: Context, units: seq<FiscalUnit>, env: nat -> UnitEnv, k: nat)
    requires k <= |units| && OnePerIdentity(s.units) && DistinctUnits(units)
    ensures var (t, states) := UnitsUpTo(s, p, c, units, env, k);
            OnePerIdentity(t.units) && forall j | 0 <= j < k :: RowIn(t, p, units[j].identity, states[j])
  {
    hide ProcessUnit, RegisterUnit, OnePerIdentity, RowIn;
    if k > 0 {
      TreatmentsAreRows(s, p, c, units, env, k - 1);
      var (before, states) := UnitsUpTo(s, p, c, units, env, k - 1);
      var (s1, u) := RegisterUnit(before, p, c.scope, units[k - 1]);
      var (t, st) := ProcessUnit(s1, u, c, units[k - 1], env(k - 1));
      RegisterRows(before, p, c.scope, units[k - 1]);
      SameIdentities(s1.units, t.units);
      forall j | 0 <= j < k ensures RowIn(t, p, units[j].identity, (states + [st])[j]) {
        if j < k - 1 {
          RowInStays(before, t, p, units[j].identity, states[j], u);
        } else {
          RowInNow(t, p, units[j].identity, u);
        }
      }
    }
  }

  lemma RowInStays(a: Store, b: Store, p: nat, identity: string, state: UnitState, u: nat)
    requires RowIn(a, p, identity, state) && u < |b.units| && b.units[u].identity != identity && |a.units| <= |b.units|
    requires forall i | 0 <= i < |a.units| && i != u :: b.units[i] == a.units[i]
    requires u < |a.units| ==> a.units[u].identity == b.units[u].identity
    ensures RowIn(b, p, identity, state)
  {
    var i: nat :| RowAt(a, i, p, identity) && a.units[i].state == state;
    assert RowAt(b, i, p, identity);
  }

  lemma RowInNow(t: Store, p: nat, identity: string, u: nat)
    requires u < |t.units| && t.units[u].page == p && t.units[u].identity == identity
    ensures RowIn(t, p, identity, t.units[u].state)
  {
    assert RowAt(t, u, p, identity);
  }

  /** So for a reachable state and a response that names no identity twice, terminal rows are all it takes. */
  lemma DoneWhenStored(steps: seq<Step>, c: Context, r: Response, env: nat -> UnitEnv)
    ensures var s := RunTo(Start(), steps).store;
            Runs(s, c, r) && DistinctUnits(r.units) && AllIn(Ingest(s, c, r, env), PageFor(s, c), |r.units|) ==>
              AllDone(Processed(s, c, r, env).1)
  {
    hide RunTo, Ingest, UnitsUpTo, Opened, OnePerIdentity;
    var s := RunTo(Start(), steps).store;
    var p := PageFor(s, c);
    if Runs(s, c, r) && DistinctUnits(r.units) && !Failure(r.outcome) {
      IdentitiesUnique(steps);
      OpenedExactly(s, c, r);
      TreatmentsAreRows(Opened(s, c, r), p, c, r.units, env, |r.units|);
      IngestExactly(s, c, r, env);
      var (u, treated) := Processed(s, c, r, env);
      var t := Ingest(s, c, r, env);
      if AllIn(t, p, |r.units|) {
        forall j | 0 <= j < |treated| ensures IsTerminal(treated[j]) {
          var i: nat :| RowAt(u, i, p, r.units[j].identity) && u.units[i].state == treated[j];
          assert t.units[i].page == p;
        }
      }
    }
  }
}
