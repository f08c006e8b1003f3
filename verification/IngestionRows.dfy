/** What one unit's treatment leaves of its row, column by column, and what the loops of `reconcile` leave
    open. */
module IngestionRows {
  import opened Options
  import opened Ingestion
  import opened IngestionCalls
  import opened IngestionRuns
  import opened IngestionReplay
  import opened IngestionSteps
  import opened IngestionOutcomes
  import A = Artifacts
  import E = EvidenceStore
  import K = IdentityKeys

  // ---------- registering ----------

  /** The first row of the page with the unit's identity is found, and reopened when the hash differs; a unit
      without a row gets a pending one. */
  lemma RegisteredExactly(s: Store, p: nat, scope: Scope, unit: FiscalUnit)
    ensures var (t, u) := RegisterUnit(s, p, scope, unit);
            && t == s.(units := t.units) && RowAt(t, u, p, unit.identity) &&
            (forall i | 0 <= i < u :: !RowAt(t, i, p, unit.identity))
            && (if u >= |s.units| then
                  t.units == s.units + [Unit(p, scope, unit.identity, unit.kind, unit.parentIdentity, unit.contentHash,
                      None, None, None,
                                             UnitState.Pending, Outcome.Unknown, NoAction, "", 0, "", "")]
                else if s.units[u].contentHash == unit.contentHash then t == s
                else t.units == s.units[u := s.units[u].(state := UnitState.Pending, safeReason := "content_hash_changed")])
  {
    FirstUnit(s.units, p, unit.identity);
  }

  lemma {:induction false} FirstUnit(units: seq<Unit>, p: nat, identity: string)
    ensures var r := FindUnit(units, p, identity);
            r.Some? ==> forall i | 0 <= i < r.value :: !(units[i].page == p && units[i].identity == identity)
  {
    if units != [] {
      FirstUnit(units[..|units| - 1], p, identity);
    }
  }

  // ---------- the artifact ----------

  /** The artifact of a key: the oldest row of the key if it is finalized, or once it takes the payload; a key
      without a row gets one. Rows that are gone or differ yield nothing. */
  lemma ObtainExactly(rows: A.Rows, key: string, env: UnitEnv)
    requires A.Valid(rows)
    ensures var (t, got) := Obtain(rows, key, env);
            match A.FirstOf(rows, key)
            case Some(i) =>
              if rows[i].state == A.Finalized then t == rows && got == Some(i)
              else if rows[i].state == A.State.Pending && env.payload.Some? then
                (t, got) == TakesPayload(rows, i, env.payload.value)
              else t == rows && got == None
            case None =>
              if env.beginFails then t == rows && got == None
              else
                var begun := rows + [A.Artifact(key, "application/octet-stream", A.State.Pending, "", None)];
                if env.payload.None? then t == begun && got == None
                else
                  && t == rows + [A.Artifact(key, "application/octet-stream", A.Finalized, env.payload.value.digest,
                      Some(env.payload.value.size))]
                  && got == Some(|rows|)
  {
    match A.FirstOf(rows, key)
    case Some(i) =>
    case None =>
      if !env.beginFails {
        var begun := rows + [A.NewArtifact(key, "application/octet-stream")];
        Unfinalized(begun, key, |rows|);
      }
  }

  function TakesPayload(rows: A.Rows, i: nat, payload: Payload): (A.Rows, Option<nat>)
    requires i < |rows|
  {
    match A.FinalizeRow(rows, i, payload.digest, payload.size)
    case (t, Ok(o)) => (t, Some(o))
    case (t, Err(_)) => (t, None)
  }

  lemma Unfinalized(rows: A.Rows, key: string, n: nat)
    requires forall i | 0 <= i < |rows| && i != n :: rows[i].key != key
    requires n < |rows| && rows[n].state != A.Finalized
    ensures A.FinalizedOwner(rows, key).None?
  {
  }

  /** Units of one identity share an artifact key exactly when they share the content hash. */
  lemma KeyNamesContent(scope: Scope, a: FiscalUnit, b: FiscalUnit)
    requires a.identity == b.identity
    ensures LogicalKey(scope, a) == LogicalKey(scope, b) <==> a.contentHash == b.contentHash
  {
    var prefix := "ingestion:" + scope.company + ":" + FamilyText(scope.family) + ":" + scope.flow + ":" + a.identity + ":";
    assert LogicalKey(scope, a)[|prefix|..] == a.contentHash;
    assert LogicalKey(scope, b)[|prefix|..] == b.contentHash;
  }

  // ---------- the parent ----------

  predicate HasDocument(units: seq<Unit>, i: nat, scope: Scope, identity: string) {
    i < |units| && units[i].scope == scope && units[i].identity == identity && units[i].document.Some?
  }

  /** The document of the oldest unit of the scope with this identity that has one. */
  lemma {:induction false} ParentExactly(units: seq<Unit>, scope: Scope, identity: string)
    ensures match FindParent(units, scope, identity)
            case Some(d) => exists i: nat :: HasDocument(units, i, scope, identity) && units[i].document == Some(d)
                                        && forall k | 0 <= k < i :: !HasDocument(units, k, scope, identity)
            case None => forall i | 0 <= i < |units| :: !HasDocument(units, i, scope, identity)
  {
    if units != [] {
      var n := |units| - 1;
      ParentExactly(units[..n], scope, identity);
      match FindParent(units[..n], scope, identity)
      case Some(d) =>
        var i: nat :| HasDocument(units[..n], i, scope, identity) && units[..n][i].document == Some(d)
                 && forall k | 0 <= k < i :: !HasDocument(units[..n], k, scope, identity);
        assert HasDocument(units, i, scope, identity);
        assert forall k | 0 <= k < i :: HasDocument(units, k, scope, identity) ==> HasDocument(units[..n], k, scope, identity);
      case None =>
        assert forall k | 0 <= k < n :: HasDocument(units, k, scope, identity) ==> HasDocument(units[..n], k, scope, identity);
        assert HasDocument(units, n, scope, identity) ==> FindParent(units, scope, identity) == units[n].document;
    }
  }

  // ---------- treating a unit ----------

  /** The row needs no treatment: it is terminal for this content and does not wait for a parent. */
  predicate NothingToDo(row: Unit, unit: FiscalUnit) {
    && (row.state == UnitState.Persisted || row.state == UnitState.Replay || row.state == UnitState.Quarantine
        || row.state == UnitState.Conflict)
    && row.contentHash == unit.contentHash
    && !(row.state == UnitState.Quarantine && row.safeReason == "parent_missing")
  }

  /** The row already points at the unit's content. */
  predicate Held(s: Store, row: Unit, unit: FiscalUnit) {
    && row.artifact.Some? && row.artifact.value < |s.artifacts| && s.artifacts[row.artifact.value].state == A.Finalized
    && s.artifacts[row.artifact.value].digest == unit.contentHash
  }

  /** The artifact of the unit's content: the one the row points at when it holds it, else the one of its key. */
  predicate StoresAs(s: Store, row: Unit, scope: Scope, unit: FiscalUnit, env: UnitEnv, rows: A.Rows, got: Option<nat>) {
    if Held(s, row, unit) then rows == s.artifacts && got == row.artifact
    else
      var (after, a) := Obtain(s.artifacts, LogicalKey(scope, unit), env);
      rows == after && got == if a.Some? && after[a.value].digest == unit.contentHash then a else None
  }

  /** The parent of an event: the one the metadata names, else the document of the named unit, else the
      document of that identity. */
  function ParentFor(s: Store, scope: Scope, unit: FiscalUnit, env: UnitEnv, given: Option<string>): Option<string> {
    if !(unit.kind == "event" || unit.kind == "substitution") || given.Some? then given
    else if FindParent(s.units, scope, unit.parentIdentity).Some? then FindParent(s.units, scope, unit.parentIdentity)
    else if unit.parentIdentity == "" then None
    else env.documentParent
  }

  /** The row fields a failed or finished treatment writes. */
  function Failing(row: Unit, reason: string, outcome: Outcome): Unit {
    row.(state := UnitState.Failed, outcome := outcome, recovery := Recovery.Retry, safeReason := reason)
  }

  function Ending(row: Unit, hash: Digest, state: UnitState, reason: string, outcome: Outcome, recovery: Recovery): Unit {
    row.(state := state, outcome := outcome, recovery := recovery, safeReason := reason, linked := hash, treated := hash)
  }

  /** A persisted or replayed unit is a success, a conflict asks for review, a quarantine stays one. */
  predicate Reflects(status: E.Status, state: UnitState, outcome: Outcome, recovery: Recovery) {
    match status
    case Persisted => state == UnitState.Persisted && outcome == Outcome.Success && recovery == NoAction
    case Replay => state == UnitState.Replay && outcome == Outcome.Success && recovery == NoAction
    case Quarantine => state == UnitState.Quarantine && outcome == Outcome.Quarantine && recovery == Recovery.Quarantine
    case Conflict => state == UnitState.Conflict && outcome == Outcome.Conflict && recovery == ConflictReview
  }

  /** What is handed to `persist_document` for a unit. */
  predicate DescribesUnit(c: Context, unit: FiscalUnit, a: nat, m: MetadataResult, parent: Option<string>,
      newId: K.Uuid, d: E.Input) {
    && m.Metadata?
    && d.naming == K.Naming(c.scope.company, if c.scope.family == Nfe then "nfe" else "nfse", m.role, m.category, c.source,
                            if c.documentFlow.Some? then c.documentFlow.value else c.scope.flow)
    && d.identity == m.identity && d.emittedAt == m.emittedAt && d.authorizedAt == m.authorizedAt && d.situation == m.situation
    && d.artifact == a && d.origin == c.executionRef && d.correlation == c.correlation && d.newId == newId
    && d.parent == parent && d.relationship == m.relationship
    && d.kind == (if unit.kind == "event" || unit.kind == "substitution" then E.Kind.Event else E.PlainDocument)
  }

  /** The row `b` and the documents after the treatment of a row `a` that already points at its artifact. */
  ghost predicate Treated(s: Store, c: Context, unit: FiscalUnit, got: nat, env: UnitEnv, a: Unit, b: Unit, docs: E.Store) {
    match env.metadata
    case MetadataRaises => docs == s.docs && b == Failing(a, "document_persistence_unavailable", TemporaryFailure)
    case MetadataInvalid =>
      docs == s.docs && b == Ending(a, unit.contentHash, UnitState.Quarantine, "document_input_invalid",
          Outcome.Malformed, Recovery.Quarantine)
    case Metadata(_, _, _, _, _, _, given, _) =>
      var parent := ParentFor(s, c.scope, unit, env, given);
      if (unit.kind == "event" || unit.kind == "substitution") && parent.None? then
        docs == s.docs && b == Ending(a, unit.contentHash, UnitState.Quarantine, "parent_missing", Outcome.Quarantine,
            Recovery.Quarantine)
      else if env.persistRaises then docs == s.docs && b == Failing(a, "document_persistence_unavailable", TemporaryFailure)
      else
        exists d :: DescribesUnit(c, unit, got, env.metadata, parent, env.newId, d) && docs == E.Persist(s.docs, s.artifacts, d).0
                    && Answered(E.Persist(s.docs, s.artifacts, d).1, unit.contentHash, a, b)
  }

  /** The row after `persist_document` answered. */
  predicate Answered(o: E.Outcome, hash: Digest, a: Unit, b: Unit) {
    match o
    case Invalid => b == Ending(a, hash, UnitState.Quarantine, "document_input_invalid", Outcome.Malformed, Recovery.Quarantine)
    case Done(status, document, event, reason) =>
      && Reflects(status, b.state, b.outcome, b.recovery)
      && b == Ending(a, hash, b.state, reason, b.outcome, b.recovery).(
                document := if document.Some? then document else a.document, event := if event.Some? then event else a.event)
  }

  /** `_process_unit`: nothing at all for a settled row; otherwise one more attempt, and the row fails when its
      content cannot be stored, or points at its content and is treated. Nothing else changes. */
  lemma UnitExactly(s: Store, u: nat, c: Context, unit: FiscalUnit, env: UnitEnv)
    requires u < |s.units|
    ensures var t, row := ProcessUnit(s, u, c, unit, env).0, s.units[u];
            if NothingToDo(row, unit) then t == s
            else
              && u < |t.units| && t == s.(units := s.units[u := t.units[u]], artifacts := t.artifacts, docs := t.docs)
              && exists got :: StoresAs(s, row, c.scope, unit, env, t.artifacts, got)
                   && (if got.None? then
                         t.docs == s.docs && t.units[u] ==
                           Failing(row.(attempts := row.attempts + 1), "object_unavailable", Outcome.Unavailable)
                       else
                         var a := row.(attempts := row.attempts + 1, artifact := got,
                                       linked := if Held(s, row, unit) then row.linked else unit.contentHash);
                         Treated(s.(units := s.units[u := a], artifacts := t.artifacts), c, unit, got.value, env, a,
                             t.units[u], t.docs))
  {
    hide EnsureArtifact, Treat, SafeReason, Treated, StoresAs, Held;
    var row := s.units[u];
    assert Settled(row, unit) <==> NothingToDo(row, unit);
    if !Settled(row, unit) {
      FixedUnitReasons();
      StoresExactly(s, u, c.scope, unit, env);
      var (s1, got) := EnsureArtifact(Touch(s, u), u, c.scope, unit, env);
      if got.Some? {
        TreatExactly(s1, u, c, unit, got.value, env);
      }
    }
  }

  lemma StoresExactly(s: Store, u: nat, scope: Scope, unit: FiscalUnit, env: UnitEnv)
    requires u < |s.units|
    ensures var row, (s1, got) := s.units[u], EnsureArtifact(Touch(s, u), u, scope, unit, env);
            && StoresAs(s, row, scope, unit, env, s1.artifacts, got)
            && s1 == s.(units := s.units[u := row.(attempts := row.attempts + 1,
                                                   artifact := if got.Some? then got else row.artifact,
                                                   linked := if got.None? || Held(s, row, unit)
                                                             then row.linked else unit.contentHash)],
                        artifacts := s1.artifacts)
  {
    hide Obtain, LogicalKey;
  }

  lemma ObjectReason()
    ensures SafeReason("object_unavailable") == "object_unavailable"
  {
    assert "_.-"[0] == '_';
  }

  lemma PersistenceReason()
    ensures SafeReason("document_persistence_unavailable") == "document_persistence_unavailable"
  {
    assert "_.-"[0] == '_';
  }

  lemma InputReason()
    ensures SafeReason("document_input_invalid") == "document_input_invalid"
  {
    assert "_.-"[0] == '_';
  }

  lemma ParentReason()
    ensures SafeReason("parent_missing") == "parent_missing"
  {
    assert "_.-"[0] == '_';
  }

  lemma FixedUnitReasons()
    ensures SafeReason("object_unavailable") == "object_unavailable"
    ensures SafeReason("document_persistence_unavailable") == "document_persistence_unavailable"
    ensures SafeReason("document_input_invalid") == "document_input_invalid" && SafeReason("parent_missing") == "parent_missing"
  {
    hide SafeReason;
    ObjectReason();
    PersistenceReason();
    InputReason();
    ParentReason();
  }

  lemma TreatExactly(s: Store, u: nat, c: Context, unit: FiscalUnit, got: nat, env: UnitEnv)
    requires u < |s.units| && s.units[u].artifact == Some(got)
    ensures var (docs, v) := Treat(s, c, unit, got, env);
            var s2 := s.(docs := docs);
            var t := if v.Fail? then FailUnit(s2, u, v.reason, TemporaryFailure) else FinishUnit(s2, u, got, unit.contentHash, v);
            Treated(s, c, unit, got, env, s.units[u], t.units[u], docs)
  {
    hide SafeReason, E.Persist, FindParent;
    FixedUnitReasons();
    var m := env.metadata;
    if m.Metadata? {
      var parent := ParentFor(s, c.scope, unit, env, m.parent);
      var d := InputOf(c, unit, got, m, parent, env.newId);
      assert DescribesUnit(c, unit, got, m, parent, env.newId, d);
      PersistReasons(s.docs, s.artifacts, d);
      assert parent == if NeedsParent(unit) && m.parent.None? then ParentOf(s, c.scope, unit, env) else m.parent;
    }
  }

  lemma PersistReasons(st: E.Store, rows: A.Rows, d: E.Input)
    ensures var o := E.Persist(st, rows, d).1; o.Done? ==> (if o.reason != "" then SafeReason(o.reason) else "") == o.reason
  {
    hide E.ValidInput, E.Usable, K.Select, K.DocumentKey, K.EventKey, E.Record, SafeReason;
    DocumentReasons();
  }

  lemma IdentityReason()
    ensures SafeReason("identity_insufficient") == "identity_insufficient"
  {
    assert "_.-"[0] == '_';
  }

  lemma CompanyReason()
    ensures SafeReason("parent_incompatible") == "parent_incompatible"
  {
    assert "_.-"[0] == '_';
  }

  lemma HashReason()
    ensures SafeReason("content_hash_mismatch") == "content_hash_mismatch"
  {
    assert "_.-"[0] == '_';
  }

  lemma DocumentReasons()
    ensures SafeReason("identity_insufficient") == "identity_insufficient" && SafeReason("parent_missing") == "parent_missing"
    ensures SafeReason("parent_incompatible") == "parent_incompatible"
        && SafeReason("content_hash_mismatch") == "content_hash_mismatch"
  {
    hide SafeReason;
    ParentReason();
    IdentityReason();
    CompanyReason();
    HashReason();
  }

  // ---------- reconcile ----------

  /** A stored unit is retried as it was registered, in its own scope, under the flow without the follow-up suffix. */
  lemma ReplayExactly(row: Unit, flow: string)
    ensures var (c, unit) := (ReplayContext(row), StoredUnit(row));
            && unit == FiscalUnit(row.identity, row.contentHash, row.kind, row.parentIdentity)
            && c.scope == row.scope && c.requestCursor.None? && c.requestNsu.None? && c.pageKey.None?
            && c.documentFlow.Some?
            && (row.scope.flow == flow + ":followup" ==> c.documentFlow == Some(flow))
            && (!(|row.scope.flow| >= 9 && row.scope.flow[|row.scope.flow| - 9..] == ":followup")
                ==> c.documentFlow == Some(row.scope.flow))
  {
    if row.scope.flow == flow + ":followup" {
      assert row.scope.flow[|row.scope.flow| - 9..] == ":followup" && row.scope.flow[..|row.scope.flow| - 9] == flow;
    }
  }

  /** What judging an open page by its rows makes of it: still waiting unless all its units are there and
      terminal, parked when the position moved on or the continuation is refused, and closed otherwise. */
  ghost predicate Judged(s: Store, p: nat, a: Page, b: Page) {
    if !AllIn(s, p, a.unitCount) then
      b == a.(state := PageState.Partial, outcome := Outcome.Partial, recovery := Recovery.Retry, safeError := "unit_pending")
    else if Position(s, a.scope) != Requested(a) then b == a.(state := PageState.Failed, safeError := "stale_checkpoint")
    else if !Objection(a, None) then
      b == a.(state := PageState.Failed, outcome := TemporaryFailure, recovery := Reconcile, safeError := b.safeError)
      && Objection(a, Some(b.safeError))
    else
      && b == a.(state := if a.unitCount == 0 then PageState.Empty else PageState.Complete,
                 outcome := b.outcome, recovery := b.recovery, finalized := true)
      && WorstOf(StatesOf(s.units, p), b.outcome, b.recovery)
  }

  lemma ReplayFinishExactly(s: Store, p: nat)
    requires p < |s.pages| && Open(s.pages[p]) && AllTerminal(StatesOf(s.units, p))
    ensures var t := ReplayFinish(s, p);
            && |t.pages| == |s.pages| && (forall q | 0 <= q < |t.pages| && q != p :: t.pages[q] == s.pages[q])
            && Judged(s, p, s.pages[p], t.pages[p]) && t.units == s.units && t.artifacts == s.artifacts && t.docs == s.docs
            && (!t.pages[p].finalized ==> t.checkpoints == s.checkpoints)
            && (Objection(s.pages[p], None) && t.pages[p].finalized && !s.pages[p].finalized ==>
                  t.checkpoints == s.checkpoints[s.pages[p].scope := CheckpointOf(t, s.pages[p].scope)]
                  && CheckpointOf(t, s.pages[p].scope).lastPage == Some(p))
  {
    hide FinishPage, AllIn, Position, Requested, Refused, CheckpointOf, Objection, StatesOf, WorstOf;
    var states, a := StatesOf(s.units, p), s.pages[p];
    var cl := ClassifyTreatments(states);
    var target := cl.(state := if a.unitCount == 0 then PageState.Empty else PageState.Complete, reason := "");
    assert ReplayFinish(s, p) == FinishAs(s, p, target);
    LandsClosing(s, p, target);
    ObjectionExactly(a);
    ObjectionOnce(a);
    assert WorstOf(states, cl.outcome, cl.recovery) by { WorstTreatment(states); }
    FinishKeepsTables(s, p, target);
  }

  lemma WorstTreatment(states: seq<UnitState>)
    requires AllTerminal(states)
    ensures var cl := ClassifyTreatments(states); WorstOf(states, cl.outcome, cl.recovery)
  {
    TreatmentsAdvance(states);
  }

  /** Exactly the open pages are visited, each once and in order. */
  lemma {:induction false} OpenPagesExactly(pages: seq<Page>)
    ensures var r := CandidatePages(pages);
            (forall i, j | 0 <= i < j < |r| :: r[i] < r[j]) && (forall p: nat :: p in r <==> p < |pages| && Open(pages[p]))
    ensures forall p: nat :: p in CandidatePages(pages) <==>
              p < |pages| && (pages[p].state == PageState.Pending || pages[p].state == PageState.Partial)
  {
    if pages != [] {
      OpenPagesExactly(pages[..|pages| - 1]);
    }
  }

  /** All rows of the page are terminal, as many as it should have if it should have any, and its answer was not partial. */
  ghost predicate ReadyToClose(s: Store, p: nat) {
    && p < |s.pages| && Open(s.pages[p]) && s.pages[p].adapterOutcome != FiscalOutcome.Partial
    && (s.pages[p].unitCount == 0 || |RowsOf(s.units, p)| == s.pages[p].unitCount)
    && forall i | 0 <= i < |s.units| && s.units[i].page == p :: IsTerminal(s.units[i].state)
  }

  lemma ReadyExactly(s: Store, p: nat)
    requires p < |s.pages| && Open(s.pages[p])
    ensures Finishable(s, p) <==> ReadyToClose(s, p)
  {
    StatesCount(s.units, p);
    AllTerminalMeans(s.units, p);
  }

  /** One visit: a page that is ready is judged, any other stays. */
  lemma VisitExactly(s: Store, p: nat)
    requires p < |s.pages| && Open(s.pages[p])
    ensures var t := ReconcilePage(s, p);
            && |t.pages| == |s.pages| && (forall q | 0 <= q < |t.pages| && q != p :: t.pages[q] == s.pages[q]) && t.units == s.units
            && (if ReadyToClose(s, p) then Judged(s, p, s.pages[p], t.pages[p]) else t == s)
  {
    hide ReplayFinish, ReadyToClose, Judged, StatesOf;
    ReadyExactly(s, p);
    if Finishable(s, p) {
      ReplayFinishExactly(s, p);
    }
  }

  /** A page that was visited is no longer ready, unless it expects no units and has some. */
  ghost predicate Settles(s: Store, p: nat) {
    ReadyToClose(s, p) ==> s.pages[p].unitCount == 0 && RowsOf(s.units, p) != {}
  }

  lemma VisitSettles(s: Store, p: nat)
    requires p < |s.pages| && Open(s.pages[p])
    ensures Settles(ReconcilePage(s, p), p)
  {
    hide ReconcilePage, Position, Requested, Objection, WorstOf;
    VisitExactly(s, p);
  }

  lemma {:induction false} VisitsSettle(s: Store, ids: seq<nat>, k: nat)
    requires k <= |ids| && OpenFrom(s.pages, ids, 0)
    ensures var t := ReconcilePages(s, ids, k);
            && t.units == s.units && OpenFrom(t.pages, ids, k) && |t.pages| == |s.pages|
            && (forall j | 0 <= j < k :: Settles(t, ids[j]))
            && (forall q | 0 <= q < |s.pages| && q !in ids :: t.pages[q] == s.pages[q])
  {
    hide ReconcilePage, Settles;
    if k > 0 {
      VisitsSettle(s, ids, k - 1);
      var before, p := ReconcilePages(s, ids, k - 1), ids[k - 1];
      var t := ReconcilePages(s, ids, k);
      VisitExactly(before, p);
      VisitSettles(before, p);
      OpenFromNext(before.pages, t.pages, ids, k - 1);
      forall j | 0 <= j < k - 1 ensures Settles(t, ids[j]) {
        assert ids[j] != p;
        SettlesStays(before, t, ids[j]);
      }
    }
  }

  lemma SettlesStays(a: Store, b: Store, p: nat)
    requires Settles(a, p) && a.units == b.units && |a.pages| == |b.pages| && (p < |a.pages| ==> a.pages[p] == b.pages[p])
    ensures Settles(b, p)
  {
  }

  /** After `reconcile` no page is left that is ready to close, whatever else its units did, except one that
      expects no units and has some; closed and parked pages are as the first loop left them. */
  lemma NothingLeftReady(s: Store, only: Option<nat>, env: nat -> UnitEnv)
    ensures var ids := CandidateUnits(s.units, only);
            var u, t := ReconcileUnits(s, ids, env, |ids|), ReconcileAll(s, only, env);
            && |t.pages| == |u.pages|
            && (forall p: nat | p < |t.pages| :: Settles(t, p))
            && (forall p | 0 <= p < |u.pages| && !Open(u.pages[p]) :: t.pages[p] == u.pages[p])
  {
    hide ReconcileUnits, ReconcilePages, Settles;
    var ids := CandidateUnits(s.units, only);
    var u, t := ReconcileUnits(s, ids, env, |ids|), ReconcileAll(s, only, env);
    var open := CandidatePages(u.pages);
    CandidatePagesOpen(u.pages);
    OpenPagesExactly(u.pages);
    VisitsSettle(u, open, |open|);
    forall p: nat | p < |t.pages| ensures Settles(t, p) {
      if p in open {
        var j :| 0 <= j < |open| && open[j] == p;
      } else {
        NotOpenSettles(t, p);
      }
    }
  }

  lemma NotOpenSettles(t: Store, p: nat)
    requires p < |t.pages| && !Open(t.pages[p])
    ensures Settles(t, p)
  {
  }

  /** The retry of one unit also judges its page at once, when that is partial, not by its answer, and now all done. */
  lemma RetryExactly(s: Store, u: nat, env: UnitEnv)
    ensures var t := ReconcileUnit(s, u, env);
            if u >= |s.units| then t == s
            else
              var v, p := ProcessUnit(s, u, ReplayContext(s.units[u]), StoredUnit(s.units[u]), env).0, s.units[u].page;
              && t.units == v.units && t.artifacts == v.artifacts && t.docs == v.docs && |t.pages| == |s.pages|
              && (forall q | 0 <= q < |t.pages| && q != p :: t.pages[q] == s.pages[q])
              && (if p < |s.pages| && s.pages[p].state == PageState.Partial && s.pages[p].adapterOutcome != FiscalOutcome.Partial
                     && RowsOf(v.units, p) != {} && (forall i | 0 <= i < |v.units| && v.units[i].page == p ::
                                                IsTerminal(v.units[i].state))
                  then Judged(v, p, s.pages[p], t.pages[p])
                  else t == v)
  {
    hide ProcessUnit, ReplayFinish, StatesOf, Judged;
    if u < |s.units| {
      var v, p := Retried(s, u, env).0, s.units[u].page;
      StatesCount(v.units, p);
      AllTerminalMeans(v.units, p);
      assert (StatesOf(v.units, p) == []) <==> RowsOf(v.units, p) == {};
      if p < |s.pages| && Open(s.pages[p]) && AllTerminal(StatesOf(v.units, p)) {
        ReplayFinishExactly(v, p);
      }
    }
  }
}
