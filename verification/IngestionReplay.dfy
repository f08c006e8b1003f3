/** Laws of uninterrupted calls: running `ingest` twice, what a failure response can do, where the
    units of an advancing response are, and what a crash between two transactions changes. */
module IngestionReplay {
  import opened Options
  import opened Ingestion
  import opened IngestionCalls
  import opened IngestionSteps
  import opened IngestionRuns
  import A = Artifacts
  import E = EvidenceStore

  // ---------- replay idempotence ----------

  lemma {:induction false} FindPageSameKeys(a: seq<Page>, b: seq<Page>, scope: Scope, key: string)
    requires |a| == |b| && forall i | 0 <= i < |a| :: a[i].scope == b[i].scope && a[i].key == b[i].key
    ensures FindPage(a, scope, key) == FindPage(b, scope, key)
  {
    if a != [] {
      FindPageSameKeys(a[..|a| - 1], b[..|b| - 1], scope, key);
    }
  }

  lemma FinishOnlyPage(s: Store, p: nat, cl: Classification)
    requires p < |s.pages|
    ensures OnlyPage(s, FinishAs(s, p, cl), p)
    ensures s.checkpoints.Keys <= FinishAs(s, p, cl).checkpoints.Keys
    ensures FinishAs(s, p, cl).units == s.units
  {
    FinishKeepsPlace(s, p, cl.state, cl.reason, cl.outcome, cl.recovery);
  }

  /** `RunPage` is the units of the response, if they are processed at all, and then one finish. */
  lemma RunPageIsFinish(s: Store, p: nat, c: Context, r: Response, env: nat -> UnitEnv) returns (s1: Store, cl: Classification)
    requires p < |s.pages|
    ensures s1.pages == s.pages && s1.checkpoints == s.checkpoints
    ensures RunPage(s, p, c, r, env) == FinishAs(s1, p, cl)
    ensures cl.state != PageState.Pending
    ensures IsFailureOutcome(r.outcome) ==> s1 == s && cl == ClassifyResponse(r)
    ensures !IsFailureOutcome(r.outcome) ==> s1 == UnitsUpTo(s, p, c, r.units, env, |r.units|).0
    ensures r.outcome == FiscalOutcome.Partial ==> cl.state == PageState.Partial
  {
    if IsFailureOutcome(r.outcome) {
      s1, cl := s, ClassifyResponse(r);
    } else {
      var u := UnitsUpTo(s, p, c, r.units, env, |r.units|);
      s1, cl := u.0, FinalClassification(r, u.1);
      TreatmentsAdvance(u.1);
    }
  }

  lemma RunPageOnlyPage(s: Store, p: nat, c: Context, r: Response, env: nat -> UnitEnv)
    requires p < |s.pages|
    ensures OnlyPage(s, RunPage(s, p, c, r, env), p)
    ensures s.checkpoints.Keys <= RunPage(s, p, c, r, env).checkpoints.Keys
  {
    var s1, cl := RunPageIsFinish(s, p, c, r, env);
    FinishOnlyPage(s1, p, cl);
  }

  /** `ingest` leaves a page for its key that the same response cannot resume. */
  lemma IngestLeavesPage(s: Store, c: Context, r: Response, env: nat -> UnitEnv) returns (p: nat)
    requires Acceptable(c, r)
    ensures var t := Ingest(s, c, r, env);
            && p < |t.pages| && FindPage(t.pages, c.scope, PageKey(c)) == Some(p)
            && !CanResume(t.pages[p], r) && c.scope in t.checkpoints && p == RegisterPage(s, c, r).1
  {
    hide RunPage, FindPage, ClassifyResponse;
    var (s1, q, created) := RegisterPage(s, c, r);
    var t := Ingest(s, c, r, env);
    p := q;
    if created {
      if s1.pages[p].state != PageState.Failed {
        RunPageOnlyPage(s1, p, c, r, env);
      }
      assert forall i | 0 <= i < |s.pages| :: t.pages[i] == s1.pages[i] == s.pages[i];
      assert t.pages[p].scope == c.scope && t.pages[p].key == PageKey(c);
      FindPageNew(t.pages, c.scope, PageKey(c));
    } else if CanResume(s1.pages[p], r) {
      var s2 := PrepareRetry(s1, p, r);
      RunPageOnlyPage(s2, p, c, r, env);
      FindPageSameKeys(t.pages, s.pages, c.scope, PageKey(c));
    }
  }

  lemma FindPageNew(pages: seq<Page>, scope: Scope, key: string)
    requires pages != [] && pages[|pages| - 1].scope == scope && pages[|pages| - 1].key == key
    requires forall i | 0 <= i < |pages| - 1 :: !(pages[i].scope == scope && pages[i].key == key)
    ensures FindPage(pages, scope, key) == Some(|pages| - 1)
  {
  }

  /** Replaying an uninterrupted `ingest` leaves every table as it was, whatever the first run did
      and whatever the outside world does the second time. */
  lemma IngestTwice(s: Store, c: Context, r: Response, env: nat -> UnitEnv, again: nat -> UnitEnv)
    ensures Ingest(Ingest(s, c, r, env), c, r, again) == Ingest(s, c, r, env)
  {
    if Acceptable(c, r) {
      var p := IngestLeavesPage(s, c, r, env);
      var t := Ingest(s, c, r, env);
      assert RegisterPage(t, c, r) == (t.(checkpoints := t.checkpoints[c.scope := CheckpointOf(t, c.scope)]), p, false);
      assert t.checkpoints[c.scope := CheckpointOf(t, c.scope)] == t.checkpoints;
    }
  }

  // ---------- a failure or partial response never moves a position ----------

  predicate Conclusive(o: FiscalOutcome) {
    o == FiscalOutcome.Success || o == Duplicate || o == FiscalOutcome.Empty || o == FiscalOutcome.Unknown
  }

  lemma ConclusiveOutcomes(o: FiscalOutcome)
    ensures Conclusive(o) <==> !IsFailureOutcome(o) && o != FiscalOutcome.Partial
  {}

  /** Between calls no page is pending; a closed page had a conclusive response, and a partial page no failure. */
  predicate Sound(p: Page) {
    && p.state != PageState.Pending
    && (Closed(p) ==> Conclusive(p.adapterOutcome))
    && (p.state == PageState.Partial ==> !IsFailureOutcome(p.adapterOutcome))
  }

  ghost predicate AllSound(s: Store) {
    forall p | 0 <= p < |s.pages| :: Sound(s.pages[p])
  }

  lemma RunPageSound(s: Store, p: nat, c: Context, r: Response, env: nat -> UnitEnv)
    requires p < |s.pages| && s.pages[p].state == PageState.Pending && s.pages[p].adapterOutcome == r.outcome
    requires forall q | 0 <= q < |s.pages| && q != p :: Sound(s.pages[q])
    ensures AllSound(RunPage(s, p, c, r, env))
  {
    var s1, cl := RunPageIsFinish(s, p, c, r, env);
    FinishSound(s1, p, cl, r);
    FinishOnlyPage(s1, p, cl);
    var t := FinishAs(s1, p, cl);
    forall q | 0 <= q < |t.pages| ensures Sound(t.pages[q]) {
      assert q != p ==> t.pages[q] == s.pages[q];
    }
  }

  lemma FinishSound(s: Store, p: nat, cl: Classification, r: Response)
    requires p < |s.pages| && s.pages[p].state == PageState.Pending && s.pages[p].adapterOutcome == r.outcome
    requires cl.state != PageState.Pending
    requires IsFailureOutcome(r.outcome) ==> cl == ClassifyResponse(r)
    requires r.outcome == FiscalOutcome.Partial ==> cl.state == PageState.Partial
    ensures Sound(FinishAs(s, p, cl).pages[p])
  {
  }

  lemma IngestSound(s: Store, c: Context, r: Response, env: nat -> UnitEnv)
    requires AllSound(s)
    ensures AllSound(Ingest(s, c, r, env))
  {
    hide RunPage, FindPage;
    if Acceptable(c, r) {
      var (s1, p, created) := RegisterPage(s, c, r);
      assert forall q | 0 <= q < |s.pages| :: s1.pages[q] == s.pages[q];
      if created && s1.pages[p].state != PageState.Failed {
        RunPageSound(s1, p, c, r, env);
      } else if !created && CanResume(s1.pages[p], r) {
        RunPageSound(PrepareRetry(s1, p, r), p, c, r, env);
      }
    }
  }

  /** A position moved between two stores only through a page that was partial with a conclusive response and is now closed. */
  ghost predicate MovedByReplay(s: Store, t: Store, scope: Scope) {
    exists p :: MoverAt(s, t, scope, p)
  }

  predicate MoverAt(s: Store, t: Store, scope: Scope, p: nat) {
    && p < |s.pages| && p < |t.pages| && t.pages[p].scope == scope
    && !Closed(s.pages[p]) && Closed(t.pages[p])
    && Conclusive(t.pages[p].adapterOutcome)
  }

  /** What a stretch of reconciliation from `s` to `t` guarantees. */
  ghost predicate ReplayGood(s: Store, t: Store) {
    && |t.pages| == |s.pages| && AllSound(t)
    && (forall p | 0 <= p < |s.pages| :: Closed(s.pages[p]) ==> t.pages[p] == s.pages[p])
    && (forall scope :: Position(t, scope) != Position(s, scope) ==> MovedByReplay(s, t, scope))
  }

  lemma ReplayFinishGood(s: Store, p: nat)
    requires AllSound(s) && p < |s.pages| && s.pages[p].state == PageState.Partial
        && s.pages[p].adapterOutcome != FiscalOutcome.Partial
    ensures ReplayGood(s, ReplayFinish(s, p))
  {
    hide Position, Durable, Requested, Refused, Advanced;
    var t := ReplayFinish(s, p);
    var cl := ClassifyTreatments(StatesOf(s.units, p));
    var target := if s.pages[p].unitCount == 0 then PageState.Empty else PageState.Complete;
    assert Sound(s.pages[p]);
    FinishKeepsPlace(s, p, target, "", cl.outcome, cl.recovery);
    FinishPageMoves(s, p, target, "", cl.outcome, cl.recovery);
    forall scope | Position(t, scope) != Position(s, scope) ensures MovedByReplay(s, t, scope) {
      assert MoverAt(s, t, scope, p);
    }
    forall q | 0 <= q < |t.pages| ensures Sound(t.pages[q]) {
      assert Sound(s.pages[q]);
    }
  }

  lemma ReplayGoodTrans(a: Store, b: Store, c: Store)
    requires ReplayGood(a, b) && ReplayGood(b, c)
    ensures ReplayGood(a, c)
  {
    forall scope | Position(c, scope) != Position(a, scope) ensures MovedByReplay(a, c, scope) {
      if Position(b, scope) != Position(a, scope) {
        var p :| MoverAt(a, b, scope, p);
        assert MoverAt(a, c, scope, p);
      } else {
        var p :| MoverAt(b, c, scope, p);
        assert MoverAt(a, c, scope, p);
      }
    }
  }

  lemma SamePagesGood(s: Store, t: Store)
    requires AllSound(s) && t.pages == s.pages && t.checkpoints == s.checkpoints
    ensures ReplayGood(s, t)
  {
    forall scope ensures Position(t, scope) == Position(s, scope) {}
  }

  lemma {:induction false} ReconcileUnitsGood(s: Store, ids: seq<nat>, env: nat -> UnitEnv, k: nat)
    requires AllSound(s) && k <= |ids|
    ensures ReplayGood(s, ReconcileUnits(s, ids, env, k))
  {
    if k == 0 {
      SamePagesGood(s, s);
    } else {
      var before := ReconcileUnits(s, ids, env, k - 1);
      ReconcileUnitsGood(s, ids, env, k - 1);
      ReconcileUnitGood(before, ids[k - 1], env(k - 1));
      ReplayGoodTrans(s, before, ReconcileUnits(s, ids, env, k));
    }
  }

  lemma ReconcileUnitGood(s: Store, u: nat, env: UnitEnv)
    requires AllSound(s)
    ensures ReplayGood(s, ReconcileUnit(s, u, env))
  {
    if u >= |s.units| {
      SamePagesGood(s, s);
    } else {
      var s1 := ProcessUnit(s, u, ReplayContext(s.units[u]), StoredUnit(s.units[u]), env).0;
      SamePagesGood(s, s1);
      var p := s.units[u].page;
      if p < |s1.pages| && s1.pages[p].state == PageState.Partial && s1.pages[p].adapterOutcome != FiscalOutcome.Partial {
        ReplayFinishGood(s1, p);
        ReplayGoodTrans(s, s1, ReplayFinish(s1, p));
      }
    }
  }

  lemma ReconcilePageGood(s: Store, p: nat)
    requires AllSound(s) && p < |s.pages| && Open(s.pages[p])
    ensures ReplayGood(s, ReconcilePage(s, p))
    ensures forall q | 0 <= q < |s.pages| && q != p :: ReconcilePage(s, p).pages[q] == s.pages[q]
  {
    if Finishable(s, p) {
      assert Sound(s.pages[p]);
      ReplayFinishGood(s, p);
    } else {
      SamePagesGood(s, s);
    }
  }

  lemma {:induction false} ReconcilePagesGood(s: Store, ids: seq<nat>, k: nat)
    requires AllSound(s) && k <= |ids| && OpenFrom(s.pages, ids, 0)
    ensures ReplayGood(s, ReconcilePages(s, ids, k)) && OpenFrom(ReconcilePages(s, ids, k).pages, ids, k)
  {
    hide ReconcilePage, Position;
    if k == 0 {
      SamePagesGood(s, s);
    } else {
      var before, p := ReconcilePages(s, ids, k - 1), ids[k - 1];
      ReconcilePagesGood(s, ids, k - 1);
      ReconcilePageGood(before, p);
      ReplayGoodTrans(s, before, ReconcilePages(s, ids, k));
      OpenFromNext(before.pages, ReconcilePages(s, ids, k).pages, ids, k - 1);
    }
  }

  /** From call boundary to call boundary, `reconcile` closes pages and moves positions only where the
      last response of the page was conclusive. */
  lemma ReconcileGood(s: Store, only: Option<nat>, env: nat -> UnitEnv)
    requires AllSound(s)
    ensures ReplayGood(s, ReconcileAll(s, only, env))
  {
    var ids := CandidateUnits(s.units, only);
    var s1 := ReconcileUnits(s, ids, env, |ids|);
    ReconcileUnitsGood(s, ids, env, |ids|);
    CandidatePagesOpen(s1.pages);
    ReconcilePagesGood(s1, CandidatePages(s1.pages), |CandidatePages(s1.pages)|);
    ReplayGoodTrans(s, s1, ReconcileAll(s, only, env));
  }

  lemma RunPageMoves(s: Store, p: nat, c: Context, r: Response, env: nat -> UnitEnv, scope: Scope)
    requires p < |s.pages| && Position(RunPage(s, p, c, r, env), scope) != Position(s, scope)
    ensures Conclusive(r.outcome) && scope == s.pages[p].scope
    ensures Durable(UnitsUpTo(s, p, c, r.units, env, |r.units|).0, p)
    ensures RunPage(s, p, c, r, env).units == UnitsUpTo(s, p, c, r.units, env, |r.units|).0.units
  {
    hide UnitsUpTo, RunPage, Durable;
    var s1, cl := RunPageIsFinish(s, p, c, r, env);
    assert Position(s1, scope) == Position(s, scope);
    FinishPageMoves(s1, p, cl.state, cl.reason, cl.outcome, cl.recovery);
    FinishOnlyPage(s1, p, cl);
    assert Moves(s1, p, cl.state);
    ConclusiveOutcomes(r.outcome);
  }

  /** The page an `ingest` runs, when it moves a position. */
  lemma IngestMovesByRun(s: Store, c: Context, r: Response, env: nat -> UnitEnv, scope: Scope) returns (s2: Store, p: nat)
    requires Position(Ingest(s, c, r, env), scope) != Position(s, scope)
    ensures p < |s2.pages| && Ingest(s, c, r, env) == RunPage(s2, p, c, r, env)
    ensures Position(s2, scope) == Position(s, scope) && p == RegisterPage(s, c, r).1
    ensures s2.units == s.units && s2.artifacts == s.artifacts
  {
    hide RunPage, FindPage, ClassifyResponse;
    var (s1, q, created) := RegisterPage(s, c, r);
    p := q;
    s2 := if created then s1 else PrepareRetry(s1, p, r);
  }

  /** `ingest` itself never moves a position on a failure or partial response. */
  lemma IngestMovesOnlyConclusive(s: Store, c: Context, r: Response, env: nat -> UnitEnv, scope: Scope)
    ensures Position(Ingest(s, c, r, env), scope) != Position(s, scope) ==> Conclusive(r.outcome)
  {
    if Position(Ingest(s, c, r, env), scope) != Position(s, scope) {
      var s2, p := IngestMovesByRun(s, c, r, env, scope);
      RunPageMoves(s2, p, c, r, env, scope);
    }
  }

  /** A failure response parks its page: whatever is asked later, no finish changes the page or the
      position any more. */
  lemma FailureParks(s: Store, p: nat, r: Response, target: PageState, reason: string, outcome: Outcome, recovery: Recovery)
    requires p < |s.pages| && IsFailureOutcome(r.outcome)
    ensures var t := FinishAs(s, p, ClassifyResponse(r));
            Parked(t.pages[p]) && t.checkpoints == s.checkpoints && FinishPage(t, p, target, reason, outcome, recovery) == t
  {
    ResponseClassified(r);
  }

  datatype Call =
    | CallIngest(context: Context, response: Response, env: nat -> UnitEnv)
    | CallReconcile(only: Option<nat>, env: nat -> UnitEnv)

  function Run(s: Store, calls: seq<Call>): Store {
    if calls == [] then s
    else
      var before := Run(s, calls[..|calls| - 1]);
      match calls[|calls| - 1]
      case CallIngest(c, r, env) => Ingest(before, c, r, env)
      case CallReconcile(only, env) => ReconcileAll(before, only, env)
  }

  /** Crash-free runs: every closed page has a conclusive last response, so a failure or partial
      response never moves a position, neither directly nor through later reconciliation. */
  lemma {:induction false} CrashFreeRunsSound(calls: seq<Call>)
    ensures AllSound(Run(Start().store, calls))
  {
    if calls != [] {
      CrashFreeRunsSound(calls[..|calls| - 1]);
      var before := Run(Start().store, calls[..|calls| - 1]);
      match calls[|calls| - 1]
      case CallIngest(c, r, env) => IngestSound(before, c, r, env);
      case CallReconcile(only, env) => ReconcileGood(before, only, env);
    }
  }

  /** Calls one after the other, each ingest with a disciplined context, are an allowed run; with
      `NoCycling` their positions never repeat. */
  lemma {:induction false} CallsAreAllowed(calls: seq<Call>) returns (steps: seq<Step>, at: Runtime)
    requires forall i | 0 <= i < |calls| :: calls[i].CallIngest? ==> Disciplined(calls[i].context)
    ensures Track(Start(), steps, at, true) && at.store == Run(Start().store, calls)
  {
    steps, at := [], Start();
    if calls != [] {
      steps, at := CallsAreAllowed(calls[..|calls| - 1]);
      match calls[|calls| - 1]
      case CallIngest(c, r, env) => steps, at := IngestRun(Start(), steps, at, true, c, r, env);
      case CallReconcile(only, env) => steps, at := ReconcileRun(Start(), steps, at, true, only, env);
    }
  }

  // ---------- after a crash ----------

  /** Exactly when `reconcile` moves the position through an open page, and where to. */
  lemma ReconcilePageMoves(s: Store, p: nat)
    requires p < |s.pages|
    ensures Position(ReconcilePage(s, p), s.pages[p].scope) != Position(s, s.pages[p].scope) <==>
              && s.pages[p].adapterOutcome != FiscalOutcome.Partial
              && Moves(s, p, if s.pages[p].unitCount == 0 then PageState.Empty else PageState.Complete)
    ensures Position(ReconcilePage(s, p), s.pages[p].scope) in {Position(s, s.pages[p].scope), NextOf(s.pages[p])}
  {
    var cl := ClassifyTreatments(StatesOf(s.units, p));
    FinishPageMoves(s, p, if s.pages[p].unitCount == 0 then PageState.Empty else PageState.Complete, "", cl.outcome, cl.recovery);
  }

  lemma {:induction false} NoUnits(units: seq<Unit>, p: nat)
    requires forall i | 0 <= i < |units| :: units[i].page != p
    ensures StatesOf(units, p) == []
  {
    if units != [] {
      NoUnits(units[..|units| - 1], p);
    }
  }

  /** A call that dies after registering a fresh page: later reconciliation moves the position exactly
      when the response carried no units, was not partial and its continuation is not refused. The
      failure outcome itself is not asked about. */
  lemma CrashAfterRegister(s: Store, c: Context, r: Response)
    requires FindPage(s.pages, c.scope, PageKey(c)).None?
    requires forall i | 0 <= i < |s.units| :: s.units[i].page < |s.pages|
    requires Position(s, c.scope) == if c.scope.family == Nfe then Text(c.requestCursor) else Text(c.requestNsu)
    ensures var (s1, p, created) := RegisterPage(s, c, r);
            created && p < |s1.pages| &&
            (Position(ReconcilePage(s1, p), c.scope) != Position(s1, c.scope) <==>
               && r.units == [] && r.outcome != FiscalOutcome.Partial
               && Refused(s1.pages[p]).None?
               && (if c.scope.family == Nfe then Text(r.nextCursor) != "" else Text(r.nextNsu) != Text(c.requestNsu)))
  {
    var (s1, p, created) := RegisterPage(s, c, r);
    NoUnits(s1.units, p);
    ReconcilePageMoves(s1, p);
  }

  lemma OnePageReconciled(s: Store)
    requires |s.pages| == 1
    ensures ReconcileOpenPages(s) == if Open(s.pages[0]) then ReconcilePage(s, 0) else s
  {
    hide ReconcilePage;
    assert s.pages[..0] == [];
    assert CandidatePages(s.pages) == if Open(s.pages[0]) then [0] else [];
    assert ReconcilePages(s, [0], 1) == ReconcilePage(ReconcilePages(s, [0], 0), 0);
  }

  lemma OnlyPageReconciled(s: Store, only: Option<nat>, env: nat -> UnitEnv)
    requires |s.pages| == 1 && CandidateUnits(s.units, only) == []
    ensures ReconcileAll(s, only, env) == if Open(s.pages[0]) then ReconcilePage(s, 0) else s
  {
    hide ReconcileOpenPages, ReconcilePage;
    OnePageReconciled(s);
  }

  /** The naive reading fails: an NF-e timeout without units, registered by a first call that then
      died, moves the cursor at the next `reconcile`. */
  lemma TimeoutCanAdvanceAfterCrash(c: Context, r: Response, env: nat -> UnitEnv)
    requires c.scope.family == Nfe && Text(c.requestCursor) == ""
    requires r.outcome == Timeout && r.units == [] && Text(r.nextCursor) != ""
    ensures var s := RegisterPage(Start().store, c, r).0;
            Position(s, c.scope) == "" && Position(ReconcileAll(s, None, env), c.scope) == Text(r.nextCursor)
  {
    hide ReconcileAll, ReconcilePage, PageKey, ClassifyResponse;
    var s := RegisterPage(Start().store, c, r).0;
    CrashAfterRegister(Start().store, c, r);
    ReconcilePageMoves(s, 0);
    OnlyPageReconciled(s, None, env);
  }

  /** A call that dies after reopening a page: reconciliation judges the old units against the new
      count only. The identities of the new response are not asked about, and a unit that had no row
      still has none: when the numbers agree the position moves without it. */
  lemma CrashAfterReopen(s: Store, p: nat, r: Response)
    requires p < |s.pages| && CanResume(s.pages[p], r)
    ensures ReconcilePage(PrepareRetry(s, p, r), p).units == s.units
    ensures var s1 := PrepareRetry(s, p, r);
            var scope := s.pages[p].scope;
            Position(ReconcilePage(s1, p), scope) != Position(s, scope) <==>
              && r.outcome != FiscalOutcome.Partial
              && |StatesOf(s.units, p)| == |r.units| && AllTerminal(StatesOf(s.units, p))
              && Position(s, scope) == Requested(s.pages[p])
              && Refused(s1.pages[p]).None?
              && (if scope.family == Nfe then Text(r.nextCursor) != "" else Text(r.nextNsu) != s.pages[p].requestNsu)
  {
    ReconcilePageMoves(PrepareRetry(s, p, r), p);
  }

  // ---------- where the units of an advancing response are ----------

  ghost predicate HasRow(s: Store, p: nat, identity: string) {
    exists i: nat :: RowAt(s, i, p, identity)
  }

  predicate RowAt(s: Store, i: nat, p: nat, identity: string) {
    i < |s.units| && s.units[i].page == p && s.units[i].identity == identity
  }

  lemma RegisterKeepsRow(s: Store, p: nat, scope: Scope, unit: FiscalUnit, i: nat, q: nat, identity: string)
    requires RowAt(s, i, q, identity)
    ensures RowAt(RegisterUnit(s, p, scope, unit).0, i, q, identity)
  {
  }

  lemma {:induction false} UnitsHaveRows(s: Store, p: nat, c: Context, units: seq<FiscalUnit>, env: nat -> UnitEnv, k: nat)
    requires k <= |units|
    ensures forall j | 0 <= j < k :: HasRow(UnitsUpTo(s, p, c, units, env, k).0, p, units[j].identity)
  {
    hide ProcessUnit, RegisterUnit;
    if k > 0 {
      UnitsHaveRows(s, p, c, units, env, k - 1);
      var before := UnitsUpTo(s, p, c, units, env, k - 1).0;
      var (s1, u) := RegisterUnit(before, p, c.scope, units[k - 1]);
      var s2 := ProcessUnit(s1, u, c, units[k - 1], env(k - 1)).0;
      forall j | 0 <= j < k ensures HasRow(s2, p, units[j].identity) {
        if j == k - 1 {
          assert RowAt(s2, u, p, units[j].identity);
        } else {
          var i :| RowAt(before, i, p, units[j].identity);
          RegisterKeepsRow(before, p, c.scope, units[k - 1], i, p, units[j].identity);
          assert RowAt(s2, i, p, units[j].identity);
        }
      }
    }
  }

  /** Every unit has a row of page `p` that is terminal and evidenced. */
  ghost predicate AllStored(t: Store, p: nat, units: seq<FiscalUnit>) {
    forall j | 0 <= j < |units| :: StoredIn(t, p, units[j])
  }

  ghost predicate StoredIn(t: Store, p: nat, unit: FiscalUnit) {
    exists i: nat :: RowAt(t, i, p, unit.identity) && IsTerminal(t.units[i].state) && Evidenced(t, t.units[i])
  }

  lemma RowsStored(t: Store, p: nat, units: seq<FiscalUnit>)
    requires forall j | 0 <= j < |units| :: HasRow(t, p, units[j].identity)
    requires AllTerminal(StatesOf(t.units, p))
    requires forall i | 0 <= i < |t.units| :: Evidenced(t, t.units[i])
    ensures AllStored(t, p, units)
  {
    AllTerminalMeans(t.units, p);
    forall j | 0 <= j < |units| ensures StoredIn(t, p, units[j]) {
      var i: nat :| RowAt(t, i, p, units[j].identity);
      assert Evidenced(t, t.units[i]);
    }
  }

  lemma SameRows(a: Store, b: Store, p: nat, units: seq<FiscalUnit>)
    requires a.units == b.units && forall j | 0 <= j < |units| :: HasRow(a, p, units[j].identity)
    ensures forall j | 0 <= j < |units| :: HasRow(b, p, units[j].identity)
  {
    forall j | 0 <= j < |units| ensures HasRow(b, p, units[j].identity) {
      var i: nat :| RowAt(a, i, p, units[j].identity);
      assert RowAt(b, i, p, units[j].identity);
    }
  }

  /** When an `ingest` in a reachable state moves a position, every identity of its response has a row of
      one page that is terminal and evidenced, for the hash it was last linked to. Which hash that is
      follows in `IngestionContent`. */
  lemma IngestStoresBeforeMoving(steps: seq<Step>, c: Context, r: Response, env: nat -> UnitEnv, scope: Scope)
    ensures Position(Ingest(RunTo(Start(), steps).store, c, r, env), scope) != Position(RunTo(Start(), steps).store, scope) ==>
              exists p :: AllStored(Ingest(RunTo(Start(), steps).store, c, r, env), p, r.units)
  {
    if Position(Ingest(RunTo(Start(), steps).store, c, r, env), scope) != Position(RunTo(Start(), steps).store, scope) {
      var p := MoverStores(steps, c, r, env, scope);
    }
  }

  lemma MoverStores(steps: seq<Step>, c: Context, r: Response, env: nat -> UnitEnv, scope: Scope) returns (p: nat)
    requires Position(Ingest(RunTo(Start(), steps).store, c, r, env), scope) != Position(RunTo(Start(), steps).store, scope)
    ensures AllStored(Ingest(RunTo(Start(), steps).store, c, r, env), p, r.units)
  {
    var rt := RunTo(Start(), steps);
    var t := Ingest(rt.store, c, r, env);
    var longer, next := IngestRun(Start(), steps, rt, false, c, r, env);
    EvidenceBeforeProgress(Start(), longer);
    assert next.store == t;
    var s2, q := IngestMovesByRun(rt.store, c, r, env, scope);
    p := q;
    RunPageMoves(s2, p, c, r, env, scope);
    UnitsHaveRows(s2, p, c, r.units, env, |r.units|);
    SameRows(UnitsUpTo(s2, p, c, r.units, env, |r.units|).0, t, p, r.units);
    RowsStored(t, p, r.units);
  }
}
