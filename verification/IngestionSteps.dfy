/** Any number of concurrent `ingest` and `reconcile` calls as a step relation: one step per
    transaction or single-statement update, in any order, with arbitrary (stale) arguments.
    `seen` and `receipts` are what running calls hold in local variables: artifacts they read as
    finalized, with the digest read, and results of `persist_document`. */
module IngestionSteps {
  import opened Options
  import opened Ingestion
  import C = IngestionCalls
  import A = Artifacts
  import E = EvidenceStore

  datatype Seen = Seen(artifact: nat, digest: Digest)

  datatype Receipt = Receipt(artifact: nat, status: E.Status, document: Option<string>, event: Option<string>)

  datatype Runtime = Runtime(store: Store, seen: set<Seen>, receipts: set<Receipt>)

  datatype Step =
    | DoRegisterPage(context: Context, response: Response)
    | DoPrepareRetry(page: nat, response: Response)
    | DoRegisterUnit(page: nat, scope: Scope, unit: FiscalUnit)
    | DoTouch(u: nat)
    | DoArtifact(op: A.Op)
    | DoObserve(artifact: nat)
    | DoLink(u: nat, seen: Seen)
    | DoPersist(input: E.Input)
    | DoAttach(document: string, artifact: nat)
    | DoFinishUnit(u: nat, seen: Seen, verdict: Verdict)
    | DoFailUnit(u: nat, reason: string, outcome: Outcome)
    | DoFinishPage(page: nat, target: PageState, reason: string, outcome: Outcome, recovery: Recovery)

  function UnitStatus(st: UnitState): Option<E.Status> {
    match st
    case Persisted => Some(E.Status.Persisted)
    case Replay => Some(E.Status.Replay)
    case Conflict => Some(E.Status.Conflict)
    case _ => None
  }

  /** A call finishes a unit only with an artifact it has read and, unless it quarantines, with the
      result `persist_document` gave it for that artifact. */
  predicate Earned(rt: Runtime, seen: Seen, v: Verdict) {
    && seen in rt.seen && v.Finish?
    && (if UnitStatus(v.treatment).Some?
        then Receipt(seen.artifact, UnitStatus(v.treatment).value, v.document, v.event) in rt.receipts
        else v.treatment == UnitState.Quarantine)
  }

  /** The runtime after a step; a step whose guard fails leaves it alone. */
  function Next(rt: Runtime, step: Step): Runtime {
    var s := rt.store;
    match step
    case DoRegisterPage(c, r) => rt.(store := RegisterPage(s, c, r).0)
    case DoPrepareRetry(p, r) => if p < |s.pages| then rt.(store := PrepareRetry(s, p, r)) else rt
    case DoRegisterUnit(p, scope, unit) => rt.(store := RegisterUnit(s, p, scope, unit).0)
    case DoTouch(u) => if u < |s.units| then rt.(store := Touch(s, u)) else rt
    case DoArtifact(op) => rt.(store := s.(artifacts := A.Apply(s.artifacts, op)))
    case DoObserve(a) =>
      if a < |s.artifacts| && s.artifacts[a].state == A.Finalized
      then rt.(seen := rt.seen + {Seen(a, s.artifacts[a].digest)}) else rt
    case DoLink(u, seen) =>
      if u < |s.units| && seen in rt.seen then rt.(store := Link(s, u, seen.artifact, seen.digest)) else rt
    case DoPersist(d) =>
      var (docs, o) := E.Persist(s.docs, s.artifacts, d);
      Runtime(s.(docs := docs), rt.seen,
              if o.Done? && o.status != E.Status.Quarantine
              then rt.receipts + {Receipt(d.artifact, o.status, o.document, o.event)} else rt.receipts)
    case DoAttach(document, a) => rt.(store := s.(docs := E.Attach(s.docs, s.artifacts, document, a).0))
    case DoFinishUnit(u, seen, v) =>
      if u < |s.units| && Earned(rt, seen, v) then rt.(store := FinishUnit(s, u, seen.artifact, seen.digest, v)) else rt
    case DoFailUnit(u, reason, outcome) => if u < |s.units| then rt.(store := FailUnit(s, u, reason, outcome)) else rt
    case DoFinishPage(p, target, reason, outcome, recovery) =>
      if p < |s.pages| then rt.(store := FinishPage(s, p, target, reason, outcome, recovery)) else rt
  }

  function RunTo(rt: Runtime, steps: seq<Step>): Runtime {
    if steps == [] then rt else Next(RunTo(rt, steps[..|steps| - 1]), steps[|steps| - 1])
  }

  function Start(): Runtime {
    Runtime(Store(map[], [], [], [], E.Store(map[], map[], map[])), {}, {})
  }

  // ---------- when a checkpoint moves ----------

  /** The conditions under which finishing page `p` as `target` moves its scope's position. */
  predicate Moves(s: Store, p: nat, target: PageState) {
    && p < |s.pages|
    && (target == PageState.Complete || target == PageState.Empty)
    && !Parked(s.pages[p]) && s.pages[p].state != PageState.Failed
    && Durable(s, p)
    && Position(s, s.pages[p].scope) == Requested(s.pages[p])
    && Refused(s.pages[p]).None?
    && (if s.pages[p].scope.family == Nfe then s.pages[p].nextCursor != ""
        else s.pages[p].nextNsu != s.pages[p].requestNsu)
  }

  ghost predicate OthersKept(s: Store, t: Store, scope: Scope) {
    && OtherPosition(t, scope) == OtherPosition(s, scope)
    && forall other | other != scope ::
         Position(t, other) == Position(s, other) && OtherPosition(t, other) == OtherPosition(s, other)
  }

  lemma TakeContinuationMoves(s: Store, p: nat, target: PageState, outcome: Outcome, recovery: Recovery)
    requires p < |s.pages| && (target == PageState.Complete || target == PageState.Empty)
    requires !Parked(s.pages[p]) && Durable(s, p) && Position(s, s.pages[p].scope) == Requested(s.pages[p])
    ensures var t := TakeContinuation(s, p, target, outcome, recovery);
            var scope := s.pages[p].scope;
            && OthersKept(s, t, scope)
            && (if Moves(s, p, target)
                then Position(t, scope) == NextOf(s.pages[p]) != Position(s, scope)
                     && t.pages[p].state == target && t.pages[p].finalized
                else Position(t, scope) == Position(s, scope))
  {
    hide PositionNumber, DecimalValue, StatesOf, Durable, Parked;
    var page, t := s.pages[p], TakeContinuation(s, p, target, outcome, recovery);
    if Refused(page).Some? {
      assert t.checkpoints == s.checkpoints;
    } else if page.state == PageState.Failed && !LastPage(page) {
      assert t.checkpoints == s.checkpoints;
    } else {
      assert t.checkpoints == s.checkpoints[page.scope := Advanced(CheckpointOf(s, page.scope), page, p)];
    }
  }

  lemma FinishPageMoves(s: Store, p: nat, target: PageState, reason: string, outcome: Outcome, recovery: Recovery)
    requires p < |s.pages|
    ensures var t := FinishPage(s, p, target, reason, outcome, recovery);
            var scope := s.pages[p].scope;
            && OthersKept(s, t, scope)
            && (if Moves(s, p, target)
                then Position(t, scope) == NextOf(s.pages[p]) != Position(s, scope)
                     && t.pages[p].state == target && t.pages[p].finalized
                else Position(t, scope) == Position(s, scope))
  {
    if (target == PageState.Complete || target == PageState.Empty) && !Parked(s.pages[p]) && Durable(s, p)
       && Position(s, s.pages[p].scope) == Requested(s.pages[p]) {
      TakeContinuationMoves(s, p, target, outcome, recovery);
    }
  }

  /** Over every interleaving, a position changes only when a page is finished, by compare-and-swap
      from that page's request position to its next position, while the page has exactly
      `unit_count` units, all terminal; and finishing a page moves it exactly under `Moves`. */
  lemma PositionsMoveOnlyByCas(rt: Runtime, step: Step, scope: Scope)
    ensures var s, t := rt.store, Next(rt, step).store;
            && OtherPosition(t, scope) == OtherPosition(s, scope)
            && (Position(t, scope) != Position(s, scope) <==>
                  step.DoFinishPage? && Moves(s, step.page, step.target) && s.pages[step.page].scope == scope)
            && (Position(t, scope) != Position(s, scope) ==>
                  && Position(s, scope) == Requested(s.pages[step.page])
                  && Position(t, scope) == NextOf(s.pages[step.page])
                  && Durable(s, step.page))
  {
    match step
    case DoFinishPage(p, target, reason, outcome, recovery) =>
      if p < |rt.store.pages| {
        FinishPageMoves(rt.store, p, target, reason, outcome, recovery);
      }
    case _ =>
  }

  /** For ADN, a move between two numbered positions never lowers the number; and a move never stays put. */
  lemma MovesForward(s: Store, p: nat, target: PageState)
    requires Moves(s, p, target)
    ensures NextOf(s.pages[p]) != Requested(s.pages[p])
    ensures s.pages[p].scope.family != Nfe
            && PositionNumber(Requested(s.pages[p])).Some? && PositionNumber(NextOf(s.pages[p])).Some? ==>
              PositionNumber(Requested(s.pages[p])).value <= PositionNumber(NextOf(s.pages[p])).value
  {
  }

  // ---------- evidence before progress ----------

  /** A terminal unit points at an artifact that left Pending and whose digest is the hash it was
      checked against; unless quarantined, the document store holds the hash it was treated for. */
  ghost predicate Evidenced(s: Store, row: Unit) {
    IsTerminal(row.state) ==>
      && row.artifact.Some? && ArtifactHolds(s.artifacts, row.artifact.value, row.linked)
      && (UnitStatus(row.state).Some? ==>
            || E.Recorded(s.docs, row.document, None, row.treated)
            || E.Recorded(s.docs, row.document, row.event, row.treated))
  }

  ghost predicate ArtifactHolds(rows: A.Rows, a: nat, digest: Digest) {
    a < |rows| && rows[a].state != A.State.Pending && rows[a].digest == digest
  }

  ghost predicate ReceiptOk(s: Store, r: Receipt) {
    && r.artifact < |s.artifacts| && s.artifacts[r.artifact].state != A.State.Pending
    && E.Recorded(s.docs, r.document, r.event, s.artifacts[r.artifact].digest)
  }

  ghost predicate EvidenceInv(rt: Runtime) {
    && A.Valid(rt.store.artifacts)
    && E.Valid(rt.store.docs, rt.store.artifacts)
    && (forall x | x in rt.seen :: ArtifactHolds(rt.store.artifacts, x.artifact, x.digest))
    && (forall r | r in rt.receipts :: ReceiptOk(rt.store, r))
    && (forall i | 0 <= i < |rt.store.units| :: Evidenced(rt.store, rt.store.units[i]))
  }

  /** Nothing already established is lost when the artifact rows evolve and the documents grow. */
  lemma EvidenceStays(a: Store, b: Store, row: Unit)
    requires Evidenced(a, row) && A.Evolves(a.artifacts, b.artifacts) && E.StoreGrows(a.docs, b.docs)
    ensures Evidenced(b, row)
  {
    if IsTerminal(row.state) {
      assert A.RowEvolves(a.artifacts[row.artifact.value], b.artifacts[row.artifact.value]);
      if UnitStatus(row.state).Some? {
        if E.Recorded(a.docs, row.document, None, row.treated) {
          E.RecordedStays(a.docs, b.docs, row.document, None, row.treated);
        } else {
          E.RecordedStays(a.docs, b.docs, row.document, row.event, row.treated);
        }
      }
    }
  }

  lemma InvStays(rt: Runtime, b: Store)
    requires EvidenceInv(rt) && rt.store.units == b.units
    requires A.Valid(b.artifacts) && E.Valid(b.docs, b.artifacts)
    requires A.Evolves(rt.store.artifacts, b.artifacts) && E.StoreGrows(rt.store.docs, b.docs)
    ensures EvidenceInv(rt.(store := b))
  {
    var a := rt.store;
    forall x | x in rt.seen ensures ArtifactHolds(b.artifacts, x.artifact, x.digest) {
      assert ArtifactHolds(a.artifacts, x.artifact, x.digest);
      assert A.RowEvolves(a.artifacts[x.artifact], b.artifacts[x.artifact]);
    }
    forall r | r in rt.receipts ensures ReceiptOk(b, r) {
      assert ReceiptOk(a, r);
      assert A.RowEvolves(a.artifacts[r.artifact], b.artifacts[r.artifact]);
      E.RecordedStays(a.docs, b.docs, r.document, r.event, a.artifacts[r.artifact].digest);
    }
    forall i | 0 <= i < |b.units| ensures Evidenced(b, b.units[i]) {
      EvidenceStays(a, b, a.units[i]);
    }
  }

  lemma EvolvesReflexive(rows: A.Rows)
    ensures A.Evolves(rows, rows)
  {}

  lemma PersistStep(rt: Runtime, d: E.Input)
    requires EvidenceInv(rt)
    ensures EvidenceInv(Next(rt, DoPersist(d)))
  {
    var s := rt.store;
    var r := E.Persist(s.docs, s.artifacts, d);
    E.PersistKeeps(s.docs, s.artifacts, d);
    EvolvesReflexive(s.artifacts);
    E.GrowsReflexive(s.docs);
    InvStays(rt, s.(docs := r.0));
  }

  lemma UnitsStep(rt: Runtime, units: seq<Unit>)
    requires EvidenceInv(rt)
    requires forall i | 0 <= i < |units| :: Evidenced(rt.store, units[i])
    ensures EvidenceInv(rt.(store := rt.store.(units := units)))
  {
    var s, t := rt.store, rt.store.(units := units);
    forall i | 0 <= i < |units| ensures Evidenced(t, units[i]) {
      assert Evidenced(s, units[i]);
    }
    forall r | r in rt.receipts ensures ReceiptOk(t, r) {
      assert ReceiptOk(s, r);
    }
  }

  lemma SetUnit(rt: Runtime, u: nat, row: Unit)
    requires EvidenceInv(rt) && u < |rt.store.units| && Evidenced(rt.store, row)
    ensures EvidenceInv(rt.(store := rt.store.(units := rt.store.units[u := row])))
  {
    UnitsStep(rt, rt.store.units[u := row]);
  }

  lemma PagesStep(rt: Runtime, t: Store)
    requires EvidenceInv(rt) && t.units == rt.store.units && t.artifacts == rt.store.artifacts && t.docs == rt.store.docs
    ensures EvidenceInv(rt.(store := t))
  {
    EvolvesReflexive(t.artifacts);
    E.GrowsReflexive(t.docs);
    InvStays(rt, t);
  }

  lemma FinishUnitStep(rt: Runtime, u: nat, seen: Seen, v: Verdict)
    requires EvidenceInv(rt) && u < |rt.store.units| && Earned(rt, seen, v)
    ensures EvidenceInv(Next(rt, DoFinishUnit(u, seen, v)))
  {
    var s := rt.store;
    var row := FinishUnit(s, u, seen.artifact, seen.digest, v).units[u];
    assert ArtifactHolds(s.artifacts, seen.artifact, seen.digest);
    if UnitStatus(v.treatment).Some? {
      var r := Receipt(seen.artifact, UnitStatus(v.treatment).value, v.document, v.event);
      assert ReceiptOk(s, r);
    }
    assert Evidenced(s, row);
    SetUnit(rt, u, row);
  }

  lemma RegisterUnitStep(rt: Runtime, p: nat, scope: Scope, unit: FiscalUnit)
    requires EvidenceInv(rt)
    ensures EvidenceInv(Next(rt, DoRegisterUnit(p, scope, unit)))
  {
    var s := rt.store;
    match FindUnit(s.units, p, unit.identity)
    case None => UnitsStep(rt, s.units + [NewUnit(p, scope, unit)]);
    case Some(i) =>
      if s.units[i].contentHash != unit.contentHash {
        SetUnit(rt, i, s.units[i].(state := UnitState.Pending, safeReason := "content_hash_changed"));
      }
  }

  lemma LinkStep(rt: Runtime, u: nat, seen: Seen)
    requires EvidenceInv(rt) && u < |rt.store.units| && seen in rt.seen
    ensures EvidenceInv(Next(rt, DoLink(u, seen)))
  {
    var row := rt.store.units[u];
    assert Evidenced(rt.store, row);
    SetUnit(rt, u, row.(artifact := Some(seen.artifact), linked := seen.digest));
  }

  /** Every step, from any state that satisfies the evidence invariant, keeps it. */
  lemma StepKeepsEvidence(rt: Runtime, step: Step)
    requires EvidenceInv(rt)
    ensures EvidenceInv(Next(rt, step))
  {
    var s := rt.store;
    match step
    case DoRegisterPage(c, r) => PagesStep(rt, Next(rt, step).store);
    case DoPrepareRetry(p, r) => PagesStep(rt, Next(rt, step).store);
    case DoRegisterUnit(p, scope, unit) => RegisterUnitStep(rt, p, scope, unit);
    case DoTouch(u) =>
      if u < |s.units| {
        assert Evidenced(s, s.units[u]);
        SetUnit(rt, u, s.units[u].(attempts := s.units[u].attempts + 1));
      }
    case DoArtifact(op) =>
      A.ApplyKeeps(s.artifacts, op);
      E.ValidEvolves(s.docs, s.artifacts, A.Apply(s.artifacts, op));
      E.GrowsReflexive(s.docs);
      InvStays(rt, s.(artifacts := A.Apply(s.artifacts, op)));
    case DoObserve(a) =>
    case DoLink(u, seen) => if u < |s.units| && seen in rt.seen { LinkStep(rt, u, seen); }
    case DoPersist(d) => PersistStep(rt, d);
    case DoAttach(document, a) =>
      E.AttachKeeps(s.docs, s.artifacts, document, a);
      EvolvesReflexive(s.artifacts);
      InvStays(rt, s.(docs := E.Attach(s.docs, s.artifacts, document, a).0));
    case DoFinishUnit(u, seen, v) => if u < |s.units| && Earned(rt, seen, v) { FinishUnitStep(rt, u, seen, v); }
    case DoFailUnit(u, reason, outcome) =>
      if u < |s.units| {
        SetUnit(rt, u, FailUnit(s, u, reason, outcome).units[u]);
      }
    case DoFinishPage(p, target, reason, outcome, recovery) => PagesStep(rt, Next(rt, step).store);
  }

  /** Evidence before progress, over every interleaving: in every reachable state each terminal unit
      has its artifact and record, artifact content never changes afterwards, and documents only grow. */
  lemma {:induction false} EvidenceBeforeProgress(rt: Runtime, steps: seq<Step>)
    requires EvidenceInv(rt)
    ensures EvidenceInv(RunTo(rt, steps))
    ensures A.Evolves(rt.store.artifacts, RunTo(rt, steps).store.artifacts)
  {
    EvolvesReflexive(rt.store.artifacts);
    if steps != [] {
      var before := RunTo(rt, steps[..|steps| - 1]);
      EvidenceBeforeProgress(rt, steps[..|steps| - 1]);
      StepKeepsEvidence(before, steps[|steps| - 1]);
      ArtifactsEvolve(before, steps[|steps| - 1]);
      A.EvolvesTransitive(rt.store.artifacts, before.store.artifacts, RunTo(rt, steps).store.artifacts);
    }
  }

  lemma ArtifactsEvolve(rt: Runtime, step: Step)
    requires EvidenceInv(rt)
    ensures A.Evolves(rt.store.artifacts, Next(rt, step).store.artifacts)
  {
    EvolvesReflexive(rt.store.artifacts);
    if step.DoArtifact? {
      A.ApplyKeeps(rt.store.artifacts, step.op);
    }
  }

  lemma {:induction false} AllTerminalMeans(units: seq<Unit>, p: nat)
    ensures AllTerminal(StatesOf(units, p)) <==> forall i | 0 <= i < |units| && units[i].page == p :: IsTerminal(units[i].state)
  {
    if units != [] {
      var n := |units| - 1;
      AllTerminalMeans(units[..n], p);
      var init, all := StatesOf(units[..n], p), StatesOf(units, p);
      assert all[..|init|] == init;
      assert forall i | 0 <= i < n :: units[i] == units[..n][i];
      if AllTerminal(all) {
        forall i | 0 <= i < |init| ensures IsTerminal(init[i]) { assert init[i] == all[i]; }
        if units[n].page == p {
          assert all[|init|] == units[n].state;
        }
      }
    }
  }

  /** At the step that moves a position, every unit of the page is terminal and evidenced. */
  lemma MoveHasEvidence(steps: seq<Step>, p: nat, target: PageState)
    requires Moves(RunTo(Start(), steps).store, p, target)
    ensures var s := RunTo(Start(), steps).store;
            forall i | 0 <= i < |s.units| && s.units[i].page == p :: IsTerminal(s.units[i].state) && Evidenced(s, s.units[i])
  {
    EvidenceBeforeProgress(Start(), steps);
    AllTerminalMeans(RunTo(Start(), steps).store.units, p);
  }
}
