/** Whether the content of a response is stored when its page lets the position move: exactly when
    every row the response finds settled already holds the content it was registered with. */
module IngestionContent {
  import opened Options
  import opened Ingestion
  import opened IngestionCalls
  import opened IngestionSteps
  import opened IngestionRuns
  import opened IngestionReplay
  import A = Artifacts
  import E = EvidenceStore

  // ---------- what it means to be stored ----------

  /** The row points at a stored original with this digest. */
  ghost predicate OriginalAt(s: Store, row: Unit, hash: Digest) {
    row.artifact.Some? && ArtifactHolds(s.artifacts, row.artifact.value, hash)
  }

  /** Unless the row was quarantined, its document or event holds evidence with this digest. */
  ghost predicate DocumentHolds(s: Store, row: Unit, hash: Digest) {
    UnitStatus(row.state).Some? ==>
      E.Recorded(s.docs, row.document, None, hash) || E.Recorded(s.docs, row.document, row.event, hash)
  }

  ghost predicate OriginalStored(s: Store, p: nat, unit: FiscalUnit) {
    exists i: nat :: RowAt(s, i, p, unit.identity) && IsTerminal(s.units[i].state) && OriginalAt(s, s.units[i], unit.contentHash)
  }

  ghost predicate AllOriginals(s: Store, p: nat, units: seq<FiscalUnit>) {
    forall j | 0 <= j < |units| :: OriginalStored(s, p, units[j])
  }

  ghost predicate OriginalRecorded(s: Store, p: nat, unit: FiscalUnit) {
    exists i: nat ::
      && RowAt(s, i, p, unit.identity) && IsTerminal(s.units[i].state)
      && OriginalAt(s, s.units[i], unit.contentHash) && DocumentHolds(s, s.units[i], unit.contentHash)
  }

  ghost predicate AllRecorded(s: Store, p: nat, units: seq<FiscalUnit>) {
    forall j | 0 <= j < |units| :: OriginalRecorded(s, p, units[j])
  }

  /** The page an `ingest` of this context works on. */
  function PageFor(s: Store, c: Context): nat {
    var found := FindPage(s.pages, c.scope, PageKey(c));
    if found.Some? then found.value else |s.pages|
  }

  predicate OneHash(units: seq<FiscalUnit>) {
    forall j, k | 0 <= j < |units| && 0 <= k < |units| && units[j].identity == units[k].identity ::
      units[j].contentHash == units[k].contentHash
  }

  /** Row `i` is one the call would skip for this unit. */
  predicate Skipped(s: Store, p: nat, unit: FiscalUnit, i: nat) {
    RowAt(s, i, p, unit.identity) && Settled(s.units[i], unit)
  }

  /** Readable before the call: the response gives one hash for an identity, and every row the call
      would skip points at an original with the hash the response names. */
  ghost predicate Trustworthy(s: Store, p: nat, units: seq<FiscalUnit>) {
    && OneHash(units)
    && forall j, i: nat | 0 <= j < |units| && Skipped(s, p, units[j], i) :: OriginalAt(s, s.units[i], units[j].contentHash)
  }

  // ---------- one row per identity of a page ----------

  ghost predicate OnePerIdentity(units: seq<Unit>) {
    forall i, j | 0 <= i < j < |units| :: !(units[i].page == units[j].page && units[i].identity == units[j].identity)
  }

  predicate SameIdentity(a: Unit, b: Unit) {
    b.page == a.page && b.identity == a.identity
  }

  /** Rows are only added, and keep their page and identity. */
  ghost predicate RowsStay(a: seq<Unit>, b: seq<Unit>) {
    |a| <= |b| && forall i | 0 <= i < |a| :: SameIdentity(a[i], b[i])
  }

  /** `_register_unit` touches one row at most, and none the call will skip. */
  lemma RegisterRows(s: Store, p: nat, scope: Scope, unit: FiscalUnit)
    requires OnePerIdentity(s.units)
    ensures var (s1, u) := RegisterUnit(s, p, scope, unit);
            && OnePerIdentity(s1.units) && RowsStay(s.units, s1.units)
            && (forall i | 0 <= i < |s.units| && i != u :: s1.units[i] == s.units[i])
            && (|s1.units| == |s.units| || (|s1.units| == |s.units| + 1 && u == |s.units|))
            && (if u < |s.units| && Settled(s.units[u], unit) then s1 == s else !Settled(s1.units[u], unit))
  {
    match FindUnit(s.units, p, unit.identity)
    case None => assert RegisterUnit(s, p, scope, unit).0.units == s.units + [NewUnit(p, scope, unit)];
    case Some(i) =>
  }

  lemma SameIdentities(a: seq<Unit>, b: seq<Unit>)
    requires OnePerIdentity(a) && |b| == |a|
    requires forall i | 0 <= i < |a| :: a[i].page == b[i].page && a[i].identity == b[i].identity
    ensures OnePerIdentity(b)
  {}

  lemma StepKeepsIdentities(rt: Runtime, step: Step)
    requires OnePerIdentity(rt.store.units)
    ensures OnePerIdentity(Next(rt, step).store.units)
  {
    hide OnePerIdentity, E.Persist, E.Attach, FinishPage, A.Apply, Earned, RegisterUnit;
    match step
    case DoRegisterUnit(p, scope, unit) => RegisterRows(rt.store, p, scope, unit);
    case _ => SameIdentities(rt.store.units, Next(rt, step).store.units);
  }

  /** In every reachable state a page has at most one row for an identity. */
  lemma {:induction false} IdentitiesUnique(steps: seq<Step>)
    ensures OnePerIdentity(RunTo(Start(), steps).store.units)
  {
    hide Next;
    if steps != [] {
      IdentitiesUnique(steps[..|steps| - 1]);
      StepKeepsIdentities(RunTo(Start(), steps[..|steps| - 1]), steps[|steps| - 1]);
    }
  }

  lemma SameRow(units: seq<Unit>, i: nat, j: nat)
    requires OnePerIdentity(units) && i < |units| && j < |units|
    requires units[i].page == units[j].page && units[i].identity == units[j].identity
    ensures i == j
  {}

  // ---------- what processing a response does to a row ----------

  /** A row that ends terminal was linked and treated for this hash. */
  predicate Fresh(row: Unit, hash: Digest) {
    IsTerminal(row.state) ==> row.artifact.Some? && row.linked == hash && row.treated == hash
  }

  lemma ProcessFresh(s: Store, u: nat, c: Context, unit: FiscalUnit, env: UnitEnv)
    requires u < |s.units| && !Settled(s.units[u], unit)
    ensures Fresh(ProcessUnit(s, u, c, unit, env).0.units[u], unit.contentHash)
  {
    hide EnsureArtifact, Treat;
  }

  /** Row `i` of `a` is one the call would skip for each of the first `k` units that names it. */
  predicate Untouched(a: seq<Unit>, units: seq<FiscalUnit>, k: nat, i: nat)
    requires k <= |units|
  {
    i < |a| && forall j | 0 <= j < k && units[j].identity == a[i].identity :: Settled(a[i], units[j])
  }

  predicate Made(row: Unit, units: seq<FiscalUnit>, k: nat)
    requires k <= |units|
  {
    exists j | 0 <= j < k :: units[j].identity == row.identity && Fresh(row, units[j].contentHash)
  }

  predicate KeptOrMade(a: seq<Unit>, b: seq<Unit>, units: seq<FiscalUnit>, k: nat, i: nat)
    requires k <= |units| && i < |b|
  {
    if Untouched(a, units, k, i) then b[i] == a[i] else Made(b[i], units, k)
  }

  /** After `k` units a row of the page is as it was exactly when no unit touched it, and otherwise
      fresh for one of the units that name it. */
  ghost predicate Accounted(a: seq<Unit>, b: seq<Unit>, p: nat, units: seq<FiscalUnit>, k: nat)
    requires k <= |units|
  {
    forall i | 0 <= i < |b| && b[i].page == p :: KeptOrMade(a, b, units, k, i)
  }

  lemma {:induction false} UnitsAccounted(s: Store, p: nat, c: Context, units: seq<FiscalUnit>, env: nat -> UnitEnv, k: nat)
    requires k <= |units| && OnePerIdentity(s.units)
    ensures var t := UnitsUpTo(s, p, c, units, env, k).0;
            OnePerIdentity(t.units) && RowsStay(s.units, t.units) && Accounted(s.units, t.units, p, units, k)
  {
    hide ProcessUnit, RegisterUnit, OnePerIdentity, Accounted;
    if k == 0 {
      NothingYet(s.units, p, units);
    } else {
      UnitsAccounted(s, p, c, units, env, k - 1);
      OneMore(s.units, UnitsUpTo(s, p, c, units, env, k - 1).0, p, c, units, env(k - 1), k);
    }
  }

  lemma NothingYet(a: seq<Unit>, p: nat, units: seq<FiscalUnit>)
    ensures Accounted(a, a, p, units, 0)
  {}

  lemma OneMore(a: seq<Unit>, before: Store, p: nat, c: Context, units: seq<FiscalUnit>, env: UnitEnv, k: nat)
    requires 0 < k <= |units| && OnePerIdentity(before.units)
    requires RowsStay(a, before.units) && Accounted(a, before.units, p, units, k - 1)
    ensures var (s1, u) := RegisterUnit(before, p, c.scope, units[k - 1]);
            var t := ProcessUnit(s1, u, c, units[k - 1], env).0;
            OnePerIdentity(t.units) && RowsStay(a, t.units) && Accounted(a, t.units, p, units, k)
  {
    hide ProcessUnit, RegisterUnit, OnePerIdentity, KeptOrMade;
    var unit := units[k - 1];
    var (s1, u) := RegisterUnit(before, p, c.scope, unit);
    var t := ProcessUnit(s1, u, c, unit, env).0;
    RegisterRows(before, p, c.scope, unit);
    SameIdentities(s1.units, t.units);
    forall i | 0 <= i < |t.units| && t.units[i].page == p ensures KeptOrMade(a, t.units, units, k, i) {
      if i == u {
        ThisRow(a, before, p, c, units, env, k);
      } else {
        if t.units[i].identity == unit.identity {
          SameRow(t.units, i, u);
        }
        OtherRow(a, before.units, t.units, units, k, i);
      }
    }
  }

  lemma OtherRow(a: seq<Unit>, b: seq<Unit>, t: seq<Unit>, units: seq<FiscalUnit>, k: nat, i: nat)
    requires 0 < k <= |units| && i < |b| && i < |t| && t[i] == b[i]
    requires RowsStay(a, b) && KeptOrMade(a, b, units, k - 1, i)
    requires units[k - 1].identity != t[i].identity
    ensures KeptOrMade(a, t, units, k, i)
  {
    hide Settled, Fresh;
    assert i < |a| ==> SameIdentity(a[i], b[i]);
  }

  lemma ThisRow(a: seq<Unit>, before: Store, p: nat, c: Context, units: seq<FiscalUnit>, env: UnitEnv, k: nat)
    requires 0 < k <= |units| && OnePerIdentity(before.units)
    requires RowsStay(a, before.units) && Accounted(a, before.units, p, units, k - 1)
    ensures var (s1, u) := RegisterUnit(before, p, c.scope, units[k - 1]);
            KeptOrMade(a, ProcessUnit(s1, u, c, units[k - 1], env).0.units, units, k, u)
  {
    hide RegisterUnit, OnePerIdentity, EnsureArtifact, Treat, Settled;
    var unit := units[k - 1];
    var (s1, u) := RegisterUnit(before, p, c.scope, unit);
    var t := ProcessUnit(s1, u, c, unit, env).0;
    RegisterRows(before, p, c.scope, unit);
    assert u < |a| ==> SameIdentity(a[u], before.units[u]);
    if u < |before.units| && Settled(before.units[u], unit) {
      assert KeptOrMade(a, before.units, units, k - 1, u);
    } else {
      ProcessFresh(s1, u, c, unit, env);
      assert Made(t.units[u], units, k);
      assert u < |before.units| ==> KeptOrMade(a, before.units, units, k - 1, u);
    }
  }

  // ---------- the two theorems ----------

  /** What is known at the two ends of an `ingest` that moved the position through page `p`. */
  ghost predicate Mover(s: Store, t: Store, p: nat, units: seq<FiscalUnit>) {
    && OnePerIdentity(s.units) && OnePerIdentity(t.units) && RowsStay(s.units, t.units)
    && Accounted(s.units, t.units, p, units, |units|)
    && (forall j | 0 <= j < |units| :: HasRow(t, p, units[j].identity))
    && (forall i | 0 <= i < |t.units| && t.units[i].page == p :: IsTerminal(t.units[i].state))
    && A.Evolves(s.artifacts, t.artifacts)
    && (forall i | 0 <= i < |s.units| :: Evidenced(s, s.units[i]))
    && (forall i | 0 <= i < |t.units| :: Evidenced(t, t.units[i]))
  }

  lemma MoverOf(steps: seq<Step>, c: Context, r: Response, env: nat -> UnitEnv, scope: Scope)
    requires Position(Ingest(RunTo(Start(), steps).store, c, r, env), scope) != Position(RunTo(Start(), steps).store, scope)
    ensures var s := RunTo(Start(), steps).store; Mover(s, Ingest(s, c, r, env), PageFor(s, c), r.units)
  {
    hide UnitsUpTo, RunPage, Durable, OnePerIdentity, Accounted, Evidenced, HasRow, A.Evolves, RowsStay, Ingest,
        FindPage, AllAllowed, Next;
    var rt := RunTo(Start(), steps);
    var s, t := rt.store, Ingest(rt.store, c, r, env);
    EvidenceBeforeProgress(Start(), steps);
    IdentitiesUnique(steps);
    var longer, next := IngestRun(rt, [], rt, false, c, r, env);
    EvidenceBeforeProgress(rt, longer);
    var s2, p := IngestMovesByRun(s, c, r, env, scope);
    RunPageMoves(s2, p, c, r, env, scope);
    UnitsAccounted(s2, p, c, r.units, env, |r.units|);
    UnitsHaveRows(s2, p, c, r.units, env, |r.units|);
    SameRows(UnitsUpTo(s2, p, c, r.units, env, |r.units|).0, t, p, r.units);
    DurableTerminal(UnitsUpTo(s2, p, c, r.units, env, |r.units|).0, p);
  }

  lemma DurableTerminal(s: Store, p: nat)
    requires p < |s.pages| && Durable(s, p)
    ensures forall i | 0 <= i < |s.units| && s.units[i].page == p :: IsTerminal(s.units[i].state)
  {
    AllTerminalMeans(s.units, p);
  }

  /** A terminal row points at its linked hash, and at no other. */
  lemma LinkedIs(s: Store, row: Unit, hash: Digest)
    requires Evidenced(s, row) && IsTerminal(row.state)
    ensures OriginalAt(s, row, hash) <==> row.linked == hash
  {}

  lemma StoredMeansTrusted(s: Store, t: Store, p: nat, units: seq<FiscalUnit>)
    requires Mover(s, t, p, units) && AllOriginals(t, p, units)
    ensures Trustworthy(s, p, units)
  {
    hide KeptOrMade, OnePerIdentity, Evidenced;
    forall j, k | 0 <= j < |units| && 0 <= k < |units| && units[j].identity == units[k].identity
      ensures units[j].contentHash == units[k].contentHash
    {
      OneOriginal(t, p, units[j], units[k]);
    }
    forall j, i: nat | 0 <= j < |units| && Skipped(s, p, units[j], i) ensures OriginalAt(s, s.units[i], units[j].contentHash) {
      SkippedTrusted(s, t, p, units, j, i);
    }
  }

  lemma OneOriginal(t: Store, p: nat, a: FiscalUnit, b: FiscalUnit)
    requires OnePerIdentity(t.units) && OriginalStored(t, p, a) && OriginalStored(t, p, b) && a.identity == b.identity
    ensures a.contentHash == b.contentHash
  {
    var i: nat :| RowAt(t, i, p, a.identity) && OriginalAt(t, t.units[i], a.contentHash);
    var k: nat :| RowAt(t, k, p, b.identity) && OriginalAt(t, t.units[k], b.contentHash);
    SameRow(t.units, i, k);
  }

  lemma SkippedTrusted(s: Store, t: Store, p: nat, units: seq<FiscalUnit>, j: nat, i: nat)
    requires Mover(s, t, p, units) && AllOriginals(t, p, units) && OneHash(units)
    requires j < |units| && Skipped(s, p, units[j], i)
    ensures OriginalAt(s, s.units[i], units[j].contentHash)
  {
    hide Evidenced, OriginalAt, OnePerIdentity, ArtifactHolds;
    assert Evidenced(s, s.units[i]) && Evidenced(t, t.units[i]);
    assert SameIdentity(s.units[i], t.units[i]);
    assert Untouched(s.units, units, |units|, i);
    assert KeptOrMade(s.units, t.units, units, |units|, i);
    assert OriginalStored(t, p, units[j]);
    var k: nat :| RowAt(t, k, p, units[j].identity) && OriginalAt(t, t.units[k], units[j].contentHash);
    SameRow(t.units, i, k);
    LinkedIs(t, t.units[i], units[j].contentHash);
    LinkedIs(s, s.units[i], units[j].contentHash);
  }

  lemma TrustedMeansLinked(s: Store, t: Store, p: nat, units: seq<FiscalUnit>, j: nat) returns (i: nat)
    requires Mover(s, t, p, units) && Trustworthy(s, p, units) && j < |units|
    ensures RowAt(t, i, p, units[j].identity) && IsTerminal(t.units[i].state) && Evidenced(t, t.units[i])
    ensures t.units[i].linked == units[j].contentHash
    ensures (i < |s.units| && t.units[i] == s.units[i]) || t.units[i].treated == units[j].contentHash
  {
    hide Evidenced, OriginalAt, OnePerIdentity, Settled;
    assert HasRow(t, p, units[j].identity);
    i :| RowAt(t, i, p, units[j].identity);
    assert KeptOrMade(s.units, t.units, units, |units|, i);
    if Untouched(s.units, units, |units|, i) {
      assert SameIdentity(s.units[i], t.units[i]);
      assert Skipped(s, p, units[j], i);
      LinkedIs(s, s.units[i], units[j].contentHash);
    }
  }

  /** Originals before progress: when an `ingest` in any reachable state moves a position, every unit of
      its response has a terminal row of the page whose artifact has the unit's own digest, if and only
      if the page was trustworthy before the call. */
  lemma MoveStoresContent(steps: seq<Step>, c: Context, r: Response, env: nat -> UnitEnv, scope: Scope)
    ensures var s := RunTo(Start(), steps).store;
            var t := Ingest(s, c, r, env);
            Position(t, scope) != Position(s, scope) ==>
              (AllOriginals(t, PageFor(s, c), r.units) <==> Trustworthy(s, PageFor(s, c), r.units))
  {
    hide Mover, AllOriginals, Trustworthy, Ingest, PageFor, RunTo;
    var s := RunTo(Start(), steps).store;
    if Position(Ingest(s, c, r, env), scope) != Position(s, scope) {
      MoverOf(steps, c, r, env, scope);
      OriginalsExactly(s, Ingest(s, c, r, env), PageFor(s, c), r.units);
    }
  }

  lemma OriginalsExactly(s: Store, t: Store, p: nat, units: seq<FiscalUnit>)
    requires Mover(s, t, p, units)
    ensures AllOriginals(t, p, units) <==> Trustworthy(s, p, units)
  {
    hide Mover, Trustworthy, OriginalAt, Evidenced;
    if AllOriginals(t, p, units) {
      StoredMeansTrusted(s, t, p, units);
    }
    if Trustworthy(s, p, units) {
      forall j | 0 <= j < |units| ensures OriginalStored(t, p, units[j]) {
        var i := TrustedMeansLinked(s, t, p, units, j);
        LinkedIs(t, t.units[i], units[j].contentHash);
      }
    }
  }

  // ---------- and the documents ----------

  /** A unit with a recorded treatment was treated for the artifact it points at. */
  ghost predicate Aligned(units: seq<Unit>) {
    forall i | 0 <= i < |units| :: AlignedRow(units[i])
  }

  predicate AlignedRow(row: Unit) {
    UnitStatus(row.state).Some? ==> row.treated == row.linked
  }

  lemma StepKeepsAligned(rt: Runtime, step: Step)
    requires Aligned(rt.store.units) && Allowed(rt, step)
    ensures Aligned(Next(rt, step).store.units)
  {
    hide E.Persist, E.Attach, FinishPage, A.Apply, Earned;
    match step
    case DoRegisterUnit(p, scope, unit) =>
    case DoLink(u, seen) =>
    case DoFinishUnit(u, seen, v) =>
    case DoFailUnit(u, reason, outcome) =>
    case DoTouch(u) => if u < |rt.store.units| { assert AlignedRow(rt.store.units[u]); }
    case _ => assert Next(rt, step).store.units == rt.store.units;
  }

  lemma {:induction false} AllAligned(steps: seq<Step>)
    requires AllAllowed(Start(), steps)
    ensures Aligned(RunTo(Start(), steps).store.units)
  {
    hide Next;
    if steps != [] {
      AllAligned(steps[..|steps| - 1]);
      StepKeepsAligned(RunTo(Start(), steps[..|steps| - 1]), steps[|steps| - 1]);
    }
  }

  lemma RecordedExactly(s: Store, t: Store, p: nat, units: seq<FiscalUnit>)
    requires Mover(s, t, p, units) && Aligned(s.units)
    ensures AllRecorded(t, p, units) <==> Trustworthy(s, p, units)
  {
    hide Mover, Trustworthy, OriginalAt, E.Recorded;
    if AllRecorded(t, p, units) {
      forall j | 0 <= j < |units| ensures OriginalStored(t, p, units[j]) {
        assert OriginalRecorded(t, p, units[j]);
      }
      OriginalsExactly(s, t, p, units);
    }
    if Trustworthy(s, p, units) {
      forall j | 0 <= j < |units| ensures OriginalRecorded(t, p, units[j]) {
        var i := TrustedMeansLinked(s, t, p, units, j);
        LinkedIs(t, t.units[i], units[j].contentHash);
        assert i < |s.units| ==> AlignedRow(s.units[i]);
      }
    }
  }

  /** Without overlap, and unless it was quarantined, the unit's document or event then holds that
      content too, under the same condition. */
  lemma MoveRecordsContent(steps: seq<Step>, c: Context, r: Response, env: nat -> UnitEnv, scope: Scope)
    ensures var s := RunTo(Start(), steps).store;
            var t := Ingest(s, c, r, env);
            AllAllowed(Start(), steps) && Position(t, scope) != Position(s, scope) ==>
              (AllRecorded(t, PageFor(s, c), r.units) <==> Trustworthy(s, PageFor(s, c), r.units))
  {
    hide Mover, AllRecorded, Trustworthy, Ingest, PageFor, RunTo, AllAllowed, Aligned;
    var s := RunTo(Start(), steps).store;
    if AllAllowed(Start(), steps) && Position(Ingest(s, c, r, env), scope) != Position(s, scope) {
      MoverOf(steps, c, r, env, scope);
      AllAligned(steps);
      RecordedExactly(s, Ingest(s, c, r, env), PageFor(s, c), r.units);
    }
  }
}
