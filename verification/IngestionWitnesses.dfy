/** Runs from the empty tables, with requests the service accepts, on which the plain reading of the
    protocol fails. */
module IngestionWitnesses {
  import opened Options
  import opened Ingestion
  import opened IngestionCalls
  import opened IngestionSteps
  import opened IngestionRuns
  import opened IngestionReplay
  import opened IngestionContent
  import A = Artifacts
  import E = EvidenceStore
  import K = IdentityKeys

  /** The first request of a scope. */
  function First(family: Family): Context {
    Context(Scope("00000000-0000-0000-0000-000000000000", family, "f"), "s", "x", "y", None, None, None, None)
  }

  /** The service accepts first requests whatever they are answered. */
  lemma FirstAccepted(family: Family, r: Response)
    ensures Acceptable(First(family), r) <==> if family == Nfe then r.nextNsu.None? else r.nextCursor.None?
    ensures Disciplined(First(family)) && First(family).scope.family == family
    ensures First(family).requestCursor.None? && First(family).requestNsu.None?
  {
    CompanyAccepted(First(family).scope.company);
  }

  lemma CompanyAccepted(company: string)
    ensures company == "00000000-0000-0000-0000-000000000000" ==> K.IsUuidText(company)
  {
    if company == "00000000-0000-0000-0000-000000000000" {
      assert company[8] == '-' && company[13] == '-' && company[18] == '-' && company[23] == '-';
    }
  }

  function Answer(outcome: FiscalOutcome, units: seq<FiscalUnit>, next: Option<string>): Response {
    Response(outcome, units, next, None, "")
  }

  // ---------- one page, one unit ----------

  lemma OneUnit(s: Store, p: nat, c: Context, r: Response, env: nat -> UnitEnv, unit: FiscalUnit)
    requires p < |s.pages| && !IsFailureOutcome(r.outcome) && r.units == [unit]
    ensures var (s1, u) := RegisterUnit(s, p, c.scope, unit);
            var (s2, st) := ProcessUnit(s1, u, c, unit, env(0));
            RunPage(s, p, c, r, env) == FinishAs(s2, p, FinalClassification(r, [st]))
  {
    hide RegisterUnit, ProcessUnit, FinishPage;
    assert UnitsUpTo(s, p, c, r.units, env, 0) == (s, []);
    assert UnitsUpTo(s, p, c, r.units, env, 1).1 == [] + [ProcessUnit(RegisterUnit(s, p, c.scope, unit).0,
      RegisterUnit(s, p, c.scope, unit).1, c, unit, env(0)).1];
  }

  /** The first call of a scope opens its page. */
  lemma FirstCall(c: Context, r: Response, env: nat -> UnitEnv) returns (s: Store)
    requires Acceptable(c, r) && c.requestCursor.None? && c.requestNsu.None?
    ensures s.pages == [NewPage(Start().store, c, r)] && s.pages[0].state == PageState.Pending
    ensures Ingest(Start().store, c, r, env) == RunPage(s, 0, c, r, env)
    ensures s.units == [] && s.artifacts == [] && Position(s, c.scope) == ""
  {
    hide RunPage;
    s := RegisterPage(Start().store, c, r).0;
  }

  /** A later call for the same key resumes it. */
  lemma NextCall(s: Store, c: Context, r: Response, env: nat -> UnitEnv) returns (t: Store)
    requires Acceptable(c, r) && |s.pages| == 1 && s.pages[0].scope == c.scope && s.pages[0].key == PageKey(c)
    requires CanResume(s.pages[0], r)
    ensures t.pages == PrepareRetry(s, 0, r).pages
    ensures Ingest(s, c, r, env) == RunPage(t, 0, c, r, env)
    ensures t.units == s.units && t.artifacts == s.artifacts && Position(t, c.scope) == Position(s, c.scope)
  {
    hide RunPage, Acceptable;
    t := PrepareRetry(RegisterPage(s, c, r).0, 0, r);
  }

  /** Everything outside works, and the payload has this digest. */
  predicate Works(env: UnitEnv, digest: Digest) {
    && !env.beginFails && env.payload.Some? && env.payload.value.digest == digest
    && !env.metadata.MetadataRaises? && !env.persistRaises
  }

  /** Rows the next call skips for the hash they were registered with, and `reconcile` never retries. */
  predicate Done(row: Unit) {
    IsTerminal(row.state) && !(row.state == UnitState.Quarantine && row.safeReason == "parent_missing")
  }

  lemma PersistReason(st: E.Store, rows: A.Rows, d: E.Input)
    requires d.kind == E.PlainDocument
    ensures var o := E.Persist(st, rows, d).1;
            o.Done? ==> o.reason == "identity_insufficient" || o.reason == "content_hash_mismatch" || o.reason == ""
  {
    hide E.ValidInput, E.Usable, K.Select, K.DocumentKey, E.Record;
  }

  lemma ReasonKept(reason: string)
    requires reason in {"", "identity_insufficient", "content_hash_mismatch", "document_input_invalid"}
    ensures SafeReason(reason) != "parent_missing"
  {
    hide IsSafeReason;
  }

  lemma TreatDone(s: Store, c: Context, unit: FiscalUnit, a: nat, env: UnitEnv)
    requires Works(env, unit.contentHash) && !NeedsParent(unit)
    ensures var v := Treat(s, c, unit, a, env).1;
            v.Finish? && IsTerminal(v.treatment) && SafeReason(v.reason) != "parent_missing"
  {
    hide E.Persist, SafeReason;
    var v := Treat(s, c, unit, a, env).1;
    if env.metadata.Metadata? {
      PersistReason(s.docs, s.artifacts, InputOf(c, unit, a, env.metadata, env.metadata.parent, env.newId));
    }
    ReasonKept(v.reason);
  }

  /** The first unit of an empty archive is stored and treated. */
  lemma StoresUnit(s: Store, c: Context, unit: FiscalUnit, env: UnitEnv)
    requires |s.units| == 1 && s.artifacts == [] && s.units[0].artifact.None? && !Settled(s.units[0], unit)
    requires Works(env, unit.contentHash) && !NeedsParent(unit)
    ensures var t := ProcessUnit(s, 0, c, unit, env).0;
            && t.units[0].artifact == Some(0) && Done(t.units[0]) && t.units[0].contentHash == s.units[0].contentHash
            && |t.artifacts| == 1 && t.artifacts[0].digest == unit.contentHash && t.artifacts[0].state == A.Finalized
  {
    hide Treat, SafeReason, LogicalKey;
    var (s1, got) := EnsureArtifact(Touch(s, 0), 0, c.scope, unit, env);
    assert got == Some(0);
    TreatDone(s1, c, unit, 0, env);
  }

  lemma FailsUnit(s: Store, c: Context, unit: FiscalUnit, env: UnitEnv)
    requires |s.units| == 1 && s.artifacts == [] && s.units[0].artifact.None? && !Settled(s.units[0], unit) && env.beginFails
    ensures var (t, st) := ProcessUnit(s, 0, c, unit, env);
            && st == UnitState.Failed && t.units[0].state == st && t.units[0].artifact.None? && t.artifacts == []
            && t.units[0].contentHash == s.units[0].contentHash
  {
    hide Treat, SafeReason, LogicalKey;
  }

  /** One page of `c`, still at the initial position, with one row for the unit's identity. */
  predicate Lone(s: Store, c: Context, unit: FiscalUnit) {
    && |s.pages| == 1 && s.pages[0].scope == c.scope && s.pages[0].key == PageKey(c) && Requested(s.pages[0]) == ""
    && |s.units| == 1 && s.units[0].page == 0 && s.units[0].identity == unit.identity
    && Position(s, c.scope) == ""
  }

  lemma Registered(s: Store, c: Context, unit: FiscalUnit)
    requires Lone(s, c, unit)
    ensures var (t, u) := RegisterUnit(s, 0, c.scope, unit);
            && u == 0 && |t.units| == 1 && t.pages == s.pages && t.checkpoints == s.checkpoints && t.artifacts == s.artifacts
            && t.units[0].contentHash == s.units[0].contentHash && t.units[0].artifact == s.units[0].artifact
            && SameIdentity(s.units[0], t.units[0])
            && (if s.units[0].contentHash == unit.contentHash then t == s else t.units[0].state == UnitState.Pending)
  {
    hide Position;
  }

  /** The page waits for a retry of this outcome. */
  predicate Waits(p: Page, outcome: FiscalOutcome) {
    p.state == PageState.Partial && p.recovery == Recovery.Retry && p.adapterOutcome == outcome
  }

  lemma LeftPartial(s: Store, cl: Classification)
    requires |s.pages| == 1 && s.pages[0].state == PageState.Pending && cl.state == PageState.Partial
        && cl.recovery == Recovery.Retry
    ensures var t := FinishAs(s, 0, cl);
            && |t.pages| == 1 && Waits(t.pages[0], s.pages[0].adapterOutcome) && SamePlace(s.pages[0], t.pages[0])
            && t.checkpoints == s.checkpoints && t.units == s.units && t.artifacts == s.artifacts
  {
    hide SafeReason;
  }

  /** The object store is down: the unit is registered, failed, and the page waits. */
  lemma StoreDown(unit: FiscalUnit, next: Option<string>, env: nat -> UnitEnv)
    requires env(0).beginFails
    ensures var t := Ingest(Start().store, First(Nfe), Answer(FiscalOutcome.Success, [unit], next), env);
            && Lone(t, First(Nfe), unit) && Waits(t.pages[0], FiscalOutcome.Success) && t.artifacts == []
            && t.units[0].state == UnitState.Failed && t.units[0].artifact.None? && t.units[0].contentHash == unit.contentHash
  {
    hide First, ProcessUnit, Acceptable, FinishAs, Ingest, RunPage;
    var c, r := First(Nfe), Answer(FiscalOutcome.Success, [unit], next);
    FirstAccepted(Nfe, r);
    var s := FirstCall(c, r, env);
    OneUnit(s, 0, c, r, env, unit);
    var (s1, u) := RegisterUnit(s, 0, c.scope, unit);
    assert u == 0 && s1.units == [NewUnit(0, c.scope, unit)];
    FailsUnit(s1, c, unit, env(0));
    var (s2, st) := ProcessUnit(s1, u, c, unit, env(0));
    LeftPartial(s2, FinalClassification(r, [st]));
  }

  /** A partial answer names the unit with new content: it is stored, the registered hash stays. */
  lemma PartialStored(s: Store, unit: FiscalUnit, env: nat -> UnitEnv)
    requires Lone(s, First(Nfe), unit) && Waits(s.pages[0], FiscalOutcome.Success) && s.artifacts == []
    requires s.units[0].state == UnitState.Failed && s.units[0].artifact.None?
    requires Works(env(0), unit.contentHash) && !NeedsParent(unit)
    ensures var t := Ingest(s, First(Nfe), Answer(FiscalOutcome.Partial, [unit], None), env);
            && Lone(t, First(Nfe), unit) && Waits(t.pages[0], FiscalOutcome.Partial)
            && Done(t.units[0]) && t.units[0].artifact == Some(0) && t.units[0].contentHash == s.units[0].contentHash
            && |t.artifacts| == 1 && t.artifacts[0].digest == unit.contentHash && t.artifacts[0].state == A.Finalized
  {
    hide First, ProcessUnit, Acceptable, FinishAs, Works, Done, RegisterUnit, NeedsParent, Ingest, RunPage;
    var c, r := First(Nfe), Answer(FiscalOutcome.Partial, [unit], None);
    FirstAccepted(Nfe, r);
    var s0 := NextCall(s, c, r, env);
    OneUnit(s0, 0, c, r, env, unit);
    Registered(s0, c, unit);
    var (s1, u) := RegisterUnit(s0, 0, c.scope, unit);
    StoresUnit(s1, c, unit, env(0));
    var (s2, st) := ProcessUnit(s1, u, c, unit, env(0));
    LeftPartial(s2, FinalClassification(r, [st]));
  }

  /** A complete answer with the registered hash skips the row, closes the page and moves the cursor. */
  lemma SkippedAndMoved(s: Store, unit: FiscalUnit, next: string, env: nat -> UnitEnv)
    requires Lone(s, First(Nfe), unit) && Waits(s.pages[0], FiscalOutcome.Partial) && next != ""
    requires Done(s.units[0]) && s.units[0].contentHash == unit.contentHash
    ensures var t := Ingest(s, First(Nfe), Answer(FiscalOutcome.Success, [unit], Some(next)), env);
            && Position(t, First(Nfe).scope) == next && t.units == s.units && t.artifacts == s.artifacts
            && |t.pages| == 1 && Closed(t.pages[0])
  {
    hide First, Acceptable, EnsureArtifact, Treat, FinishPage, RegisterUnit, Ingest, RunPage;
    var c, r := First(Nfe), Answer(FiscalOutcome.Success, [unit], Some(next));
    FirstAccepted(Nfe, r);
    var s0 := NextCall(s, c, r, env);
    OneUnit(s0, 0, c, r, env, unit);
    Registered(s0, c, unit);
    var st := s.units[0].state;
    assert ProcessUnit(s0, 0, c, unit, env(0)) == (s0, st);
    ClosedAndMoved(s0, FinalClassification(r, [st]), next);
  }

  /** A page at the initial cursor whose only unit is terminal closes and moves the cursor. */
  lemma ClosedAndMoved(s: Store, cl: Classification, next: string)
    requires |s.pages| == 1 && s.pages[0].scope.family == Nfe && Requested(s.pages[0]) == "" && Position(s, s.pages[0].scope) == ""
    requires s.pages[0].state == PageState.Pending && s.pages[0].unitCount == 1 && s.pages[0].nextCursor == next != ""
    requires |s.units| == 1 && s.units[0].page == 0 && IsTerminal(s.units[0].state)
    requires cl == ClassifyTreatments([s.units[0].state])
    ensures var t := FinishAs(s, 0, cl);
            && Position(t, s.pages[0].scope) == next && t.units == s.units && t.artifacts == s.artifacts
            && |t.pages| == 1 && Closed(t.pages[0])
  {
    hide FinishPage, Position;
    var st := s.units[0].state;
    assert StatesOf(s.units, 0) == [st] by { assert StatesOf(s.units[..0], 0) == []; }
    TreatmentsAdvance([st]);
    FinishPageMoves(s, 0, cl.state, cl.reason, cl.outcome, cl.recovery);
  }

  // ---------- content that is never stored ----------

  lemma NothingToRetry(s: Store, only: Option<nat>)
    requires |s.units| == 1 && Done(s.units[0])
    ensures CandidateUnits(s.units, only) == []
  {
    assert CandidateUnits(s.units[..0], only) == [];
  }

  /** Three calls of one request: the first finds the object store down, the second answers in part
      with other content for the same identity, the third repeats the first. The third moves the cursor
      although content with the digest it names was never stored; the row keeps that digest beside an
      artifact with the other one, and no later `reconcile` changes anything. */
  lemma ContentNeverStored(first: FiscalUnit, second: FiscalUnit, next: string,
                           down: nat -> UnitEnv, up: nat -> UnitEnv, again: nat -> UnitEnv,
                           only: Option<nat>, later: nat -> UnitEnv)
    requires first.identity == second.identity && first.contentHash != second.contentHash && next != ""
    requires down(0).beginFails && Works(up(0), second.contentHash) && !NeedsParent(second)
    ensures var c, whole := First(Nfe), Answer(FiscalOutcome.Success, [first], Some(next));
            var a := Ingest(Start().store, c, whole, down);
            var b := Ingest(a, c, Answer(FiscalOutcome.Partial, [second], None), up);
            var t := Ingest(b, c, whole, again);
            && Position(b, c.scope) == "" && Position(t, c.scope) == next
            && t.artifacts == b.artifacts && (forall i | 0 <= i < |t.artifacts| :: t.artifacts[i].digest != first.contentHash)
            && |t.units| == 1 && t.units[0].contentHash == first.contentHash && t.units[0].artifact == Some(0)
            && |t.artifacts| == 1 && t.artifacts[0].digest == second.contentHash
            && !Trustworthy(b, 0, [first]) && !AllOriginals(t, 0, [first])
            && ReconcileAll(t, only, later) == t
  {
    hide First, Ingest, ReconcileAll, Position, Works, NeedsParent, PageKey, Trustworthy, AllOriginals;
    var c, whole := First(Nfe), Answer(FiscalOutcome.Success, [first], Some(next));
    var a := Ingest(Start().store, c, whole, down);
    var b := Ingest(a, c, Answer(FiscalOutcome.Partial, [second], None), up);
    var t := Ingest(b, c, whole, again);
    StoreDown(first, Some(next), down);
    SameLone(a, c, first, second);
    PartialStored(a, second, up);
    SameLone(b, c, second, first);
    SkippedAndMoved(b, first, next, again);
    NotTrustworthy(b, t, first);
    NothingToRetry(t, only);
    OnlyPageReconciled(t, only, later);
  }

  lemma SameLone(s: Store, c: Context, a: FiscalUnit, b: FiscalUnit)
    requires Lone(s, c, a) && a.identity == b.identity
    ensures Lone(s, c, b)
  {}

  lemma NotTrustworthy(s: Store, t: Store, unit: FiscalUnit)
    requires |s.units| == 1 && s.units[0].page == 0 && s.units[0].identity == unit.identity
    requires Done(s.units[0]) && s.units[0].contentHash == unit.contentHash
    requires s.units[0].artifact == Some(0) && |s.artifacts| == 1 && s.artifacts[0].digest != unit.contentHash
    requires t.units == s.units && t.artifacts == s.artifacts
    ensures !Trustworthy(s, 0, [unit]) && !AllOriginals(t, 0, [unit])
  {
    assert Skipped(s, 0, [unit][0], 0);
    assert !OriginalStored(t, 0, [unit][0]);
  }

  // ---------- units that are never registered ----------

  /** A first answer in part: the unit is stored and the page waits. */
  lemma PartialFirst(unit: FiscalUnit, env: nat -> UnitEnv)
    requires Works(env(0), unit.contentHash) && !NeedsParent(unit)
    ensures var t := Ingest(Start().store, First(Nfe), Answer(FiscalOutcome.Partial, [unit], None), env);
            Lone(t, First(Nfe), unit) && Waits(t.pages[0], FiscalOutcome.Partial) && Done(t.units[0])
  {
    hide First, ProcessUnit, Acceptable, FinishAs, Ingest, RunPage, Works, Done, NeedsParent;
    var c, r := First(Nfe), Answer(FiscalOutcome.Partial, [unit], None);
    FirstAccepted(Nfe, r);
    var s := FirstCall(c, r, env);
    OneUnit(s, 0, c, r, env, unit);
    var (s1, u) := RegisterUnit(s, 0, c.scope, unit);
    assert u == 0 && s1.units == [NewUnit(0, c.scope, unit)];
    StoresUnit(s1, c, unit, env(0));
    var (s2, st) := ProcessUnit(s1, u, c, unit, env(0));
    LeftPartial(s2, FinalClassification(r, [st]));
  }

  /** The tables when the second call has reopened the page and dies. */
  function Reopened(s: Store, c: Context, r: Response): Store {
    var (s1, p, _) := RegisterPage(s, c, r);
    if p < |s1.pages| then PrepareRetry(s1, p, r) else s1
  }

  /** A call stores one unit of a partial answer; the next call answers with another unit, reopens the
      page and dies. `reconcile` moves the cursor, and the other unit has no row. */
  lemma UnitNeverRegistered(first: FiscalUnit, second: FiscalUnit, next: string, env: nat -> UnitEnv, later: nat -> UnitEnv)
    returns (steps: seq<Step>)
    requires first.identity != second.identity && next != ""
    requires Works(env(0), first.contentHash) && !NeedsParent(first)
    ensures var c, r := First(Nfe), Answer(FiscalOutcome.Success, [second], Some(next));
            var a := Ingest(Start().store, c, Answer(FiscalOutcome.Partial, [first], None), env);
            var b := Reopened(a, c, r);
            var t := ReconcileAll(b, None, later);
            && AllAllowed(Start(), steps) && RunTo(Start(), steps).store == b
            && Position(b, c.scope) == "" && Position(t, c.scope) == next && !HasRow(t, 0, second.identity)
  {
    hide First, Ingest, Works, NeedsParent, PageKey, ReconcileAll, Acceptable, Reopened, Position, HasRow;
    var c, r := First(Nfe), Answer(FiscalOutcome.Success, [second], Some(next));
    var part := Answer(FiscalOutcome.Partial, [first], None);
    var a, b := Ingest(Start().store, c, part, env), Reopened(Ingest(Start().store, c, part, env), c, r);
    FirstAccepted(Nfe, r);
    PartialFirst(first, env);
    var at: Runtime;
    steps, at := ReopenRun(c, part, r, env);
    ReopenedMoves(a, c, r, first, second, next, later);
  }

  lemma ReopenedMoves(a: Store, c: Context, r: Response, first: FiscalUnit, second: FiscalUnit, next: string, later: nat -> UnitEnv)
    requires c.scope.family == Nfe && Lone(a, c, first) && Waits(a.pages[0], FiscalOutcome.Partial) && Done(a.units[0])
    requires r == Answer(FiscalOutcome.Success, [second], Some(next)) && next != "" && first.identity != second.identity
    ensures var b := Reopened(a, c, r);
            var t := ReconcileAll(b, None, later);
            Position(b, c.scope) == "" && Position(t, c.scope) == next && !HasRow(t, 0, second.identity)
  {
    hide ReconcileAll, PageKey, ReconcilePage, Reopened, Position, HasRow, CandidateUnits;
    var b := Reopened(a, c, r);
    ReopenedIs(a, c, r, first);
    NothingToRetry(b, None);
    OnlyPageReconciled(b, None, later);
    OpenMoves(b, next);
    NoRow(ReconcilePage(b, 0), second);
  }

  lemma NoRow(s: Store, unit: FiscalUnit)
    requires |s.units| == 1 && s.units[0].identity != unit.identity
    ensures !HasRow(s, 0, unit.identity)
  {}

  lemma ReopenedIs(a: Store, c: Context, r: Response, first: FiscalUnit)
    requires c.scope.family == Nfe && Lone(a, c, first) && !IsFailureOutcome(r.outcome)
    ensures var b := Reopened(a, c, r);
            && |b.pages| == 1 && b.pages[0].scope == c.scope && Requested(b.pages[0]) == "" && b.units == a.units
            && b.pages[0].state == PageState.Pending && b.pages[0].adapterOutcome == r.outcome
            && b.pages[0].unitCount == |r.units| && b.pages[0].nextCursor == Text(r.nextCursor)
            && Position(b, c.scope) == ""
  {
    hide PageKey;
  }

  lemma OpenMoves(b: Store, next: string)
    requires |b.pages| == 1 && b.pages[0].scope.family == Nfe && Requested(b.pages[0]) == "" && Position(b, b.pages[0].scope) == ""
    requires b.pages[0].state == PageState.Pending && b.pages[0].adapterOutcome == FiscalOutcome.Success
    requires b.pages[0].unitCount == 1 && b.pages[0].nextCursor == next != ""
    requires |b.units| == 1 && b.units[0].page == 0 && IsTerminal(b.units[0].state)
    ensures Position(ReconcilePage(b, 0), b.pages[0].scope) == next
  {
    hide ReconcilePage, Position;
    assert StatesOf(b.units, 0) == [b.units[0].state] by { assert StatesOf(b.units[..0], 0) == []; }
    ReconcilePageMoves(b, 0);
  }

  lemma ReopenRun(c: Context, part: Response, r: Response, env: nat -> UnitEnv) returns (steps: seq<Step>, at: Runtime)
    requires Disciplined(c)
    requires var a := Ingest(Start().store, c, part, env);
             |a.pages| == 1 && a.pages[0].scope == c.scope && a.pages[0].key == PageKey(c) && CanResume(a.pages[0], r)
    ensures Track(Start(), steps, at, true) && at.store == Reopened(Ingest(Start().store, c, part, env), c, r)
  {
    hide Ingest, PageKey;
    steps, at := IngestRun(Start(), [], Start(), true, c, part, env);
    steps, at := Go(Start(), steps, at, true, DoRegisterPage(c, r));
    steps, at := Go(Start(), steps, at, true, DoPrepareRetry(0, r));
  }

  // ---------- a terminal unit that is lost again ----------

  /** An event without a parent reference. */
  predicate Orphan(unit: FiscalUnit, env: UnitEnv) {
    && unit.kind == "event" && unit.parentIdentity == ""
    && !env.beginFails && env.payload.Some? && env.payload.value.digest == unit.contentHash
    && env.metadata.Metadata? && env.metadata.parent.None?
  }

  predicate Orphaned(s: Store, unit: FiscalUnit) {
    && |s.units| == 1 && s.units[0].page == 0 && s.units[0].contentHash == unit.contentHash
    && s.units[0].state == UnitState.Quarantine && s.units[0].safeReason == "parent_missing"
    && s.units[0].artifact == Some(0)
    && |s.artifacts| == 1 && s.artifacts[0].digest == unit.contentHash && s.artifacts[0].state == A.Finalized
  }

  lemma StoresOrphan(s: Store, c: Context, unit: FiscalUnit, env: UnitEnv)
    requires s.units == [NewUnit(0, c.scope, unit)] && s.artifacts == [] && Orphan(unit, env)
    ensures var (t, st) := ProcessUnit(s, 0, c, unit, env); Orphaned(t, unit) && st == UnitState.Quarantine
  {
    hide LogicalKey, E.Persist, Treat, SafeReason;
    var (s1, got) := EnsureArtifact(Touch(s, 0), 0, c.scope, unit, env);
    assert got == Some(0);
    assert s1.units == [NewUnit(0, c.scope, unit).(attempts := 1, artifact := Some(0), linked := unit.contentHash)];
    OrphanTreated(s1, c, unit, env);
  }

  lemma OrphanTreated(s: Store, c: Context, unit: FiscalUnit, env: UnitEnv)
    requires |s.units| == 1 && s.units[0].document.None? && Orphan(unit, env)
    ensures Treat(s, c, unit, 0, env)
            == (s.docs, Finish(UnitState.Quarantine, "parent_missing", Outcome.Quarantine, Recovery.Quarantine, None, None))
    ensures SafeReason("parent_missing") == "parent_missing"
  {
    hide E.Persist;
    assert FindParent(s.units[..0], c.scope, "") == None;
    assert FindParent(s.units, c.scope, "") == None;
  }

  lemma OrphanFirst(unit: FiscalUnit, next: string, env: nat -> UnitEnv)
    requires Orphan(unit, env(0)) && next != ""
    ensures var t := Ingest(Start().store, First(Nfe), Answer(FiscalOutcome.Success, [unit], Some(next)), env);
            Orphaned(t, unit) && Position(t, First(Nfe).scope) == next && |t.pages| == 1 && Closed(t.pages[0])
  {
    hide First, ProcessUnit, Acceptable, FinishAs, Ingest, RunPage, Orphan;
    var c, r := First(Nfe), Answer(FiscalOutcome.Success, [unit], Some(next));
    FirstAccepted(Nfe, r);
    var s := FirstCall(c, r, env);
    OneUnit(s, 0, c, r, env, unit);
    var (s1, u) := RegisterUnit(s, 0, c.scope, unit);
    assert u == 0 && s1.units == [NewUnit(0, c.scope, unit)];
    StoresOrphan(s1, c, unit, env(0));
    var (s2, st) := ProcessUnit(s1, u, c, unit, env(0));
    ClosedAndMoved(s2, FinalClassification(r, [st]), next);
  }

  /** An event without a parent closes its page quarantined and the cursor moves; the next `reconcile`
      retries it, fails, and leaves a failed unit on a closed page the cursor has passed. */
  lemma TerminalUnitLostAfterMove(unit: FiscalUnit, next: string, env: nat -> UnitEnv, later: nat -> UnitEnv)
    requires Orphan(unit, env(0)) && next != "" && later(0).metadata.MetadataRaises?
    ensures var s := Ingest(Start().store, First(Nfe), Answer(FiscalOutcome.Success, [unit], Some(next)), env);
            var t := ReconcileAll(s, None, later);
            && |s.units| == 1 && IsTerminal(s.units[0].state) && Position(s, First(Nfe).scope) == next
            && |t.units| == 1 && t.units[0].state == UnitState.Failed
            && |t.pages| == 1 && Closed(t.pages[0]) && Position(t, First(Nfe).scope) == next
  {
    hide First, Ingest, Orphan, ReconcileUnit, ReconcileOpenPages;
    var s := Ingest(Start().store, First(Nfe), Answer(FiscalOutcome.Success, [unit], Some(next)), env);
    OrphanFirst(unit, next, env);
    assert CandidateUnits(s.units[..0], None) == [];
    assert CandidateUnits(s.units, None) == [0];
    assert ReconcileUnits(s, [0], later, 1) == ReconcileUnit(ReconcileUnits(s, [0], later, 0), 0, later(0));
    LostBy(s, unit, later(0));
    OnePageReconciled(ReconcileUnit(s, 0, later(0)));
  }

  lemma LostBy(s: Store, unit: FiscalUnit, env: UnitEnv)
    requires Orphaned(s, unit) && env.metadata.MetadataRaises? && |s.pages| == 1 && Closed(s.pages[0])
    ensures var t := ReconcileUnit(s, 0, env);
            |t.units| == 1 && t.units[0].state == UnitState.Failed && t.pages == s.pages && t.checkpoints == s.checkpoints
  {
    hide E.Persist, SafeReason, LogicalKey, ParentOf, ReplayFinish, StatesOf;
    var c, stored := ReplayContext(s.units[0]), StoredUnit(s.units[0]);
    assert EnsureArtifact(Touch(s, 0), 0, c.scope, stored, env) == (Touch(s, 0), Some(0));
  }

  // ---------- a crash after a timeout ----------

  /** The first call of a scope is answered by a timeout without units and dies after registering its
      page; the next `reconcile` moves the cursor. */
  lemma TimeoutMoves(next: string, later: nat -> UnitEnv)
    requires next != ""
    ensures var c, r := First(Nfe), Answer(Timeout, [], Some(next));
            var s := RunTo(Start(), [DoRegisterPage(c, r)]).store;
            && Acceptable(c, r) && AllAllowed(Start(), [DoRegisterPage(c, r)])
            && Position(s, c.scope) == "" && Position(ReconcileAll(s, None, later), c.scope) == next
  {
    hide First, ReconcileAll, Acceptable, Position;
    var c, r := First(Nfe), Answer(Timeout, [], Some(next));
    FirstAccepted(Nfe, r);
    TimeoutCanAdvanceAfterCrash(c, r, later);
    assert [DoRegisterPage(c, r)][..0] == [];
    assert RunTo(Start(), [DoRegisterPage(c, r)]) == Next(RunTo(Start(), []), DoRegisterPage(c, r));
  }

  // ---------- a position that is reset ----------

  function AdnAnswer(next: Option<string>): Response {
    Response(FiscalOutcome.Empty, [], None, next, "")
  }

  lemma EmptyRun(s: Store, p: nat, c: Context, r: Response, env: nat -> UnitEnv)
    requires p < |s.pages| && r.outcome == FiscalOutcome.Empty && r.units == []
    ensures RunPage(s, p, c, r, env) == FinishAs(s, p, ClassifyResponse(r))
  {}

  lemma EmptyMoves(s: Store, p: nat, c: Context, r: Response, env: nat -> UnitEnv)
    requires p < |s.pages| && r.outcome == FiscalOutcome.Empty && r.units == [] && s.pages[p].scope.family == Adn
    requires s.pages[p].state == PageState.Pending && s.pages[p].unitCount == 0
    requires forall i | 0 <= i < |s.units| :: s.units[i].page != p
    requires Position(s, s.pages[p].scope) == Requested(s.pages[p]) != NextOf(s.pages[p])
    requires Requested(s.pages[p]) == "" || NextOf(s.pages[p]) == ""
    ensures var t := RunPage(s, p, c, r, env);
            && Position(t, s.pages[p].scope) == NextOf(s.pages[p]) && Closed(t.pages[p]) && t.units == s.units
            && OnlyPage(s, t, p)
  {
    hide FinishPage, Position, RunPage;
    EmptyRun(s, p, c, r, env);
    NoUnits(s.units, p);
    var cl := ClassifyResponse(r);
    FinishPageMoves(s, p, cl.state, cl.reason, cl.outcome, cl.recovery);
    FinishOnlyPage(s, p, cl);
  }

  /** The ADN scope of a first request answered by `n` is then at `n`. */
  lemma AdnFirst(n: string, env: nat -> UnitEnv)
    requires n != ""
    ensures var t := Ingest(Start().store, First(Adn), AdnAnswer(Some(n)), env);
            && |t.pages| == 1 && t.pages[0].scope == First(Adn).scope && t.pages[0].key == "initial" && Closed(t.pages[0])
            && t.units == [] && Position(t, First(Adn).scope) == n
  {
    hide First, Acceptable, RunPage, Ingest, Position;
    var c, r := First(Adn), AdnAnswer(Some(n));
    FirstAccepted(Adn, r);
    var s := FirstCall(c, r, env);
    EmptyMoves(s, 0, c, r, env);
  }

  lemma AdnLast(s: Store, n: string, env: nat -> UnitEnv)
    requires K.IsReference(n) && s.units == [] && Position(s, First(Adn).scope) == n
    requires |s.pages| == 1 && s.pages[0].scope == First(Adn).scope && s.pages[0].key == "initial" && Closed(s.pages[0])
    ensures var c := First(Adn).(requestNsu := Some(n));
            var t := Ingest(s, c, AdnAnswer(None), env);
            && Acceptable(c, AdnAnswer(None)) && |t.pages| == 2 && t.pages[0] == s.pages[0] && Position(t, c.scope) == ""
  {
    hide First, RunPage, ClassifyResponse, K.IsReference, K.IsUuidText, FindPage;
    var c, r := First(Adn).(requestNsu := Some(n)), AdnAnswer(None);
    FirstAccepted(Adn, r);
    NotEmpty(n);
    KeyDiffers(n);
    assert PageKey(c) == "nsu:" + n;
    assert FindPage(s.pages, c.scope, PageKey(c)).None?;
    var s1 := RegisterPage(s, c, r).0;
    EmptyMoves(s1, 1, c, r, env);
  }

  lemma KeyDiffers(n: string)
    ensures "nsu:" + n != "initial"
  {
    assert ("nsu:" + n)[0] == 'n' && "initial"[0] == 'i';
  }

  /** A key whose page is closed: `ingest` moves nothing. */
  lemma ClosedKey(s: Store, c: Context, r: Response, env: nat -> UnitEnv)
    requires var found := FindPage(s.pages, c.scope, PageKey(c)); found.Some? && Closed(s.pages[found.value])
    ensures Position(Ingest(s, c, r, env), c.scope) == Position(s, c.scope)
  {
    hide RunPage, FindPage, PageKey, Acceptable, PrepareRetry;
  }

  /** An ADN scope is answered by the NSU `n`, and the request at `n` by an empty last page: the position
      is "" again, and the first request, which is the next one, moves nothing whatever it is answered. */
  lemma ResetEndsScope(n: string, env: nat -> UnitEnv, again: nat -> UnitEnv, r: Response, later: nat -> UnitEnv)
    requires K.IsReference(n)
    ensures var c := First(Adn);
            var at := c.(requestNsu := Some(n));
            var s := Ingest(Start().store, c, AdnAnswer(Some(n)), env);
            var t := Ingest(s, at, AdnAnswer(None), again);
            && Acceptable(c, AdnAnswer(Some(n))) && Acceptable(at, AdnAnswer(None))
            && Position(s, c.scope) == n && Position(t, c.scope) == "" && Position(Ingest(t, c, r, later), c.scope) == ""
  {
    hide First, Ingest, Acceptable, Position, K.IsReference;
    var c := First(Adn);
    var s := Ingest(Start().store, c, AdnAnswer(Some(n)), env);
    FirstAccepted(Adn, AdnAnswer(Some(n)));
    NotEmpty(n);
    AdnFirst(n, env);
    AdnLast(s, n, again);
    var t := Ingest(s, c.(requestNsu := Some(n)), AdnAnswer(None), again);
    FirstOfTwo(t.pages, c.scope, PageKey(c));
    ClosedKey(t, c, r, later);
  }

  lemma NotEmpty(n: string)
    requires K.IsReference(n)
    ensures n != ""
  {}

  lemma FirstOfTwo(pages: seq<Page>, scope: Scope, key: string)
    requires |pages| == 2 && pages[0].scope == scope && pages[0].key == key
    ensures FindPage(pages, scope, key) == Some(0)
  {
    assert FindPage(pages[..1][..0], scope, key) == None;
    assert FindPage(pages[..1], scope, key) == Some(0);
  }
}
