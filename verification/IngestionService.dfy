/** `FiscalIngestionService` over mutable tables, each method proved against its specification. */
module IngestionService {
  import opened Options
  import opened Ingestion
  import C = IngestionCalls
  import A = Artifacts
  import E = EvidenceStore

  class FiscalIngestionService {
    var checkpoints: map<Scope, Checkpoint>
    var pages: seq<Page>
    var units: seq<Unit>
    var artifacts: A.Rows
    var docs: E.Store

    function State(): Store
      reads this
    {
      Store(checkpoints, pages, units, artifacts, docs)
    }

    constructor ()
      ensures State() == Store(map[], [], [], [], E.Store(map[], map[], map[]))
    {
      checkpoints, pages, units, artifacts := map[], [], [], [];
      docs := E.Store(map[], map[], map[]);
    }

    method OpenPage(c: Context, r: Response) returns (p: nat, created: bool)
      modifies this
      ensures (State(), p, created) == RegisterPage(old(State()), c, r)
      ensures p < |pages|
    {
      if c.scope !in checkpoints {
        checkpoints := checkpoints[c.scope := Checkpoint("", "", None)];
      }
      assert checkpoints == old(checkpoints)[c.scope := CheckpointOf(old(State()), c.scope)];
      var existing := FindPage(pages, c.scope, PageKey(c));
      if existing.Some? {
        return existing.value, false;
      }
      var page := FreshPage(c, r);
      pages := pages + [page];
      return |pages| - 1, true;
    }

    /** The new page row; a request that is not at the checkpoint's position is parked at once. */
    method FreshPage(c: Context, r: Response) returns (page: Page)
      ensures page == NewPage(State(), c, r)
    {
      var checkpoint := CheckpointOf(State(), c.scope);
      var expected, requested := checkpoint.nsu, Text(c.requestNsu);
      if c.scope.family == Nfe {
        expected, requested := checkpoint.cursor, Text(c.requestCursor);
      }
      var cl := ClassifyResponse(r);
      var state, outcome, recovery, safeError := PageState.Pending, cl.outcome, cl.recovery, "";
      if expected != requested {
        state, outcome, recovery := PageState.Failed, TemporaryFailure, Recovery.Reconcile;
        safeError := if requested != "" then "stale_cursor" else "checkpoint_position_mismatch";
      }
      page := Page(
        scope := c.scope, key := PageKey(c), requestCursor := Text(c.requestCursor), requestNsu := Text(c.requestNsu),
        nextCursor := Text(r.nextCursor), nextNsu := Text(r.nextNsu), adapterOutcome := r.outcome, state := state,
        outcome := outcome, recovery := recovery, safeError := safeError, unitCount := |r.units|, finalized := false);
    }

    method ReopenPage(p: nat, r: Response)
      requires p < |pages|
      modifies this`pages
      ensures State() == PrepareRetry(old(State()), p, r)
    {
      var cl := ClassifyResponse(r);
      var page := pages[p];
      page := page.(adapterOutcome := r.outcome, nextCursor := Text(r.nextCursor), nextNsu := Text(r.nextNsu));
      page := page.(state := PageState.Pending, outcome := cl.outcome, recovery := cl.recovery);
      page := page.(safeError := "", unitCount := |r.units|, finalized := false);
      pages := pages[p := page];
    }

    method ReceiveUnit(p: nat, scope: Scope, unit: FiscalUnit) returns (u: nat)
      modifies this`units
      ensures (State(), u) == RegisterUnit(old(State()), p, scope, unit)
      ensures u < |units|
    {
      var existing := FindUnit(units, p, unit.identity);
      if existing.None? {
        units := units + [Unit(
          page := p, scope := scope, identity := unit.identity, kind := unit.kind, parentIdentity := unit.parentIdentity,
          contentHash := unit.contentHash, artifact := None, document := None, event := None, state := UnitState.Pending,
          outcome := Outcome.Unknown, recovery := NoAction, safeReason := "", attempts := 0, linked := "", treated := "")];
        return |units| - 1;
      }
      u := existing.value;
      if units[u].contentHash != unit.contentHash {
        units := units[u := units[u].(state := UnitState.Pending, safeReason := "content_hash_changed")];
      }
    }

    /** `_ensure_artifact`: `None` is the exception path. */
    method EnsureStored(u: nat, scope: Scope, unit: FiscalUnit, env: C.UnitEnv) returns (artifact: Option<nat>)
      requires u < |units|
      modifies this
      ensures (State(), artifact) == C.EnsureArtifact(old(State()), u, scope, unit, env)
      ensures |units| == |old(units)|
    {
      if C.AlreadyHeld(State(), u, unit.contentHash) {
        return units[u].artifact;
      }
      var got := C.Obtain(artifacts, C.LogicalKey(scope, unit), env);
      artifacts, artifact := got.0, got.1;
      if artifact.None? || artifacts[artifact.value].digest != unit.contentHash {
        return None;
      }
      units := units[u := units[u].(artifact := artifact, linked := unit.contentHash)];
    }

    /** `_fail_unit`. */
    method MarkFailed(u: nat, reason: string, outcome: Outcome)
      requires u < |units|
      modifies this`units
      ensures State() == FailUnit(old(State()), u, reason, outcome)
    {
      hide SafeReason;
      var row := units[u];
      row := row.(state := UnitState.Failed, safeReason := SafeReason(reason));
      row := row.(outcome := outcome, recovery := Recovery.Retry);
      units := units[u := row];
    }

    /** `_finish_unit`: an absent document or event leaves the recorded one in place. */
    method RecordTreatment(u: nat, artifact: nat, hash: Digest, v: Verdict)
      requires u < |units| && v.Finish?
      modifies this`units
      ensures State() == FinishUnit(old(State()), u, artifact, hash, v)
    {
      hide SafeReason;
      var row := units[u];
      row := row.(artifact := Some(artifact), state := v.treatment, outcome := v.outcome, recovery := v.recovery);
      row := row.(safeReason := if v.reason != "" then SafeReason(v.reason) else "");
      if v.document.Some? {
        row := row.(document := v.document);
      }
      if v.event.Some? {
        row := row.(event := v.event);
      }
      row := row.(linked := hash, treated := hash);
      units := units[u := row];
    }

    /** From metadata to `persist_document`: find the parent of an event, build the input, judge the answer. */
    method RecordContent(c: Context, unit: FiscalUnit, artifact: nat, env: C.UnitEnv) returns (v: Verdict)
      modifies this`docs
      ensures (State().docs, v) == C.Treat(old(State()), c, unit, artifact, env)
    {
      hide E.Persist, C.FindParent;
      if env.metadata.MetadataRaises? {
        return Fail("document_persistence_unavailable");
      }
      if env.metadata.MetadataInvalid? {
        return C.InvalidInputVerdict();
      }
      var parent := env.metadata.parent;
      if C.NeedsParent(unit) && parent.None? {
        parent := C.FindParent(units, c.scope, unit.parentIdentity);
        if parent.None? && unit.parentIdentity != "" {
          parent := env.documentParent;
        }
        if parent.None? {
          return Finish(UnitState.Quarantine, "parent_missing", Outcome.Quarantine, Recovery.Quarantine, None, None);
        }
      }
      if env.persistRaises {
        return Fail("document_persistence_unavailable");
      }
      var persisted := E.Persist(docs, artifacts, C.InputOf(c, unit, artifact, env.metadata, parent, env.newId));
      docs := persisted.0;
      v := C.VerdictOf(persisted.1);
    }

    /** `_process_unit`, with the artifact and document steps in the order the code takes them. */
    method TreatUnit(u: nat, c: Context, unit: FiscalUnit, env: C.UnitEnv) returns (result: UnitState)
      requires u < |units|
      modifies this
      ensures (State(), result) == C.ProcessUnit(old(State()), u, c, unit, env)
    {
      hide C.EnsureArtifact, C.Treat, C.Settled, FinishUnit, FailUnit;
      if C.Settled(units[u], unit) {
        return units[u].state;
      }
      units := units[u := units[u].(attempts := units[u].attempts + 1)];
      assert State() == Touch(old(State()), u);
      var artifact := EnsureStored(u, c.scope, unit, env);
      if artifact.None? {
        MarkFailed(u, "object_unavailable", Outcome.Unavailable);
        return UnitState.Failed;
      }
      var verdict := RecordContent(c, unit, artifact.value, env);
      match verdict
      case Fail(reason) =>
        MarkFailed(u, reason, TemporaryFailure);
        result := UnitState.Failed;
      case Finish(treatment, _, _, _, _, _) =>
        RecordTreatment(u, artifact.value, unit.contentHash, verdict);
        result := treatment;
    }

    /** `_finish_page`: park, record, refuse or advance by compare-and-swap. */
    method ClosePage(p: nat, cl: Classification, states: seq<UnitState>) returns (reply: C.Reply)
      requires p < |pages|
      modifies this
      ensures State() == C.FinishAs(old(State()), p, cl)
      ensures reply == C.FinishReply(old(State()), p, cl, states)
    {
      hide Durable, Position, Requested, Refused, Parked, SafeReason, TakeContinuation, StatesOf, NextOf;
      ghost var t := C.FinishAs(State(), p, cl);
      if Parked(pages[p]) {
        reply := PageResult(p);
        return;
      }
      var advanced := false;
      if cl.state != PageState.Complete && cl.state != PageState.Empty {
        SetPage(p, cl.state, cl.outcome, cl.recovery, if cl.reason != "" then SafeReason(cl.reason) else "");
        assert pages == t.pages;
      } else if !Durable(State(), p) {
        SetPage(p, PageState.Partial, Outcome.Partial, Recovery.Retry, "unit_pending");
        assert pages == t.pages;
        reply := PageResult(p);
        return;
      } else if Position(State(), pages[p].scope) != Requested(pages[p]) {
        SetPage(p, PageState.Failed, pages[p].outcome, pages[p].recovery, "stale_checkpoint");
        assert pages == t.pages;
        reply := PageResult(p);
        return;
      } else {
        advanced := Continue(p, cl.state, cl.outcome, cl.recovery);
      }
      reply := C.ReplyOf(pages[p], p, states, advanced);
    }

    /** `_result_for_page`. */
    method PageResult(p: nat) returns (reply: C.Reply)
      requires p < |pages|
      ensures reply == C.PageReply(State(), p)
    {
      var states: seq<UnitState> := [];
      for i := 0 to |units|
        invariant states == StatesOf(units[..i], p)
      {
        assert units[..i + 1][..i] == units[..i];
        if units[i].page == p {
          states := states + [units[i].state];
        }
      }
      assert units[..|units|] == units;
      reply := C.ReplyOf(pages[p], p, states, pages[p].finalized);
    }

    method SetPage(p: nat, state: PageState, outcome: Outcome, recovery: Recovery, safeError: string)
      requires p < |pages|
      modifies this`pages
      ensures pages == old(pages)[p := old(pages[p]).(state := state, outcome := outcome, recovery := recovery,
          safeError := safeError)]
    {
      var page := pages[p];
      page := page.(state := state, safeError := safeError);
      page := page.(outcome := outcome, recovery := recovery);
      pages := pages[p := page];
    }

    /** The family's own checks on the next position. */
    method CheckContinuation(page: Page) returns (why: Option<string>)
      ensures why == Refused(page)
    {
      var requested, next := Requested(page), NextOf(page);
      why := None;
      if page.scope.family == Nfe {
        if next != "" && next == requested {
          why := Some("repeated_cursor");
        }
      } else if requested != "" || next != "" {
        var from, to := PositionNumber(requested), PositionNumber(next);
        if next == requested {
          why := Some("repeated_nsu");
        } else if from.Some? && to.Some? && to.value < from.value {
          why := Some("non_monotonic_nsu");
        }
      }
    }

    /** The tail of `_finish_page` once the compare succeeded: refuse the continuation or take it. */
    method Continue(p: nat, target: PageState, outcome: Outcome, recovery: Recovery) returns (advanced: bool)
      requires p < |pages|
      modifies this
      ensures State() == TakeContinuation(old(State()), p, target, outcome, recovery)
      ensures advanced == (Refused(old(pages[p])).None? && NextOf(old(pages[p])) != "")
    {
      hide Refused, Advanced, CheckpointOf, LastPage;
      var page := pages[p];
      ghost var t := TakeContinuation(State(), p, target, outcome, recovery);
      var why := CheckContinuation(page);
      advanced := why.None? && NextOf(page) != "";
      if why.Some? {
        SetPage(p, PageState.Failed, TemporaryFailure, Recovery.Reconcile, why.value);
        assert pages == t.pages;
      } else if page.state == PageState.Failed && !LastPage(page) {
        SetPage(p, page.state, outcome, recovery, page.safeError);
        assert pages == t.pages;
      } else {
        TakePage(p, target, outcome, recovery);
        assert pages == t.pages && checkpoints == t.checkpoints;
      }
    }

    method TakePage(p: nat, target: PageState, outcome: Outcome, recovery: Recovery)
      requires p < |pages|
      modifies this`pages, this`checkpoints
      ensures pages == old(pages)[p := old(pages[p]).(state := target, outcome := outcome, recovery := recovery, finalized := true)]
      ensures checkpoints == old(checkpoints)[
                old(pages[p]).scope := Advanced(CheckpointOf(old(State()), old(pages[p]).scope), old(pages[p]), p)]
    {
      hide CheckpointOf;
      var page := pages[p];
      var checkpoint := CheckpointOf(State(), page.scope);
      if page.scope.family != Nfe {
        checkpoint := checkpoint.(nsu := page.nextNsu);
      } else if page.nextCursor != "" {
        checkpoint := checkpoint.(cursor := page.nextCursor);
      }
      checkpoints := checkpoints[page.scope := checkpoint.(lastPage := Some(p))];
      page := page.(state := target, finalized := true);
      page := page.(outcome := outcome, recovery := recovery);
      pages := pages[p := page];
    }

    /** The unit loop of `ingest`. */
    method RunUnits(p: nat, c: Context, batch: seq<FiscalUnit>, env: nat -> C.UnitEnv) returns (states: seq<UnitState>)
      modifies this
      ensures (State(), states) == C.UnitsUpTo(old(State()), p, c, batch, env, |batch|)
    {
      states := [];
      for k := 0 to |batch|
        invariant (State(), states) == C.UnitsUpTo(old(State()), p, c, batch, env, k)
      {
        var u := ReceiveUnit(p, c.scope, batch[k]);
        var state := TreatUnit(u, c, batch[k], env(k));
        states := states + [state];
      }
    }

    /** The rest of `ingest` once its page is open: register and process each unit, then finish. */
    method RunOpenPage(p: nat, c: Context, r: Response, env: nat -> C.UnitEnv) returns (reply: C.Reply)
      requires p < |pages|
      modifies this
      ensures State() == C.RunPage(old(State()), p, c, r, env)
      ensures reply == C.RunReply(old(State()), p, c, r, env)
    {
      hide C.FinishAs, C.FinishReply, C.UnitsUpTo;
      if IsFailureOutcome(r.outcome) {
        reply := ClosePage(p, ClassifyResponse(r), []);
        return;
      }
      var states := RunUnits(p, c, r.units, env);
      reply := ClosePage(p, C.FinalClassification(r, states), states);
    }

    /** `None` when the request or the answer is refused. */
    method Ingest(c: Context, r: Response, env: nat -> C.UnitEnv) returns (reply: Option<C.Reply>)
      modifies this
      ensures State() == C.Ingest(old(State()), c, r, env)
      ensures reply == C.IngestReply(old(State()), c, r, env)
    {
      hide C.RunPage, C.RunReply, Acceptable, CanResume, FindPage, NewPage;
      reply := None;
      if !Acceptable(c, r) {
        return;
      }
      var p, created := OpenPage(c, r);
      var result: C.Reply;
      if !created {
        if !CanResume(pages[p], r) {
          result := PageResult(p);
          return Some(result);
        }
        ReopenPage(p, r);
      } else if pages[p].state == PageState.Failed {
        result := PageResult(p);
        return Some(result);
      }
      result := RunOpenPage(p, c, r, env);
      reply := Some(result);
    }

    /** Whether the retried unit did not fail. */
    method ReplayUnit(u: nat, env: C.UnitEnv) returns (repaired: bool)
      modifies this
      ensures State() == C.ReconcileUnit(old(State()), u, env)
      ensures repaired == (u < |old(units)| && C.Retried(old(State()), u, env).1 != UnitState.Failed)
    {
      repaired := false;
      if u >= |units| {
        return;
      }
      var p := units[u].page;
      var state := TreatUnit(u, C.ReplayContext(units[u]), C.StoredUnit(units[u]), env);
      repaired := state != UnitState.Failed;
      if p < |pages| && pages[p].state == PageState.Partial && pages[p].adapterOutcome != FiscalOutcome.Partial {
        var states := StatesOf(units, p);
        if states != [] && AllTerminal(states) {
          ReplayClose(p, states);
        }
      }
    }

    method ReplayClose(p: nat, states: seq<UnitState>)
      requires p < |pages| && states == StatesOf(units, p)
      modifies this
      ensures State() == C.ReplayFinish(old(State()), p)
    {
      var cl := ClassifyTreatments(states);
      var target := if pages[p].unitCount == 0 then PageState.Empty else PageState.Complete;
      var _ := ClosePage(p, cl.(state := target, reason := ""), states);
    }

    /** `reconcile`: retry units, then finish open pages; answers how many units it repaired. */
    method Reconcile(only: Option<nat>, env: nat -> C.UnitEnv) returns (repaired: nat)
      modifies this
      ensures State() == C.ReconcileAll(old(State()), only, env)
      ensures var ids := C.CandidateUnits(old(units), only); repaired == C.Repaired(old(State()), ids, env, |ids|)
    {
      hide C.ReconcileUnit, C.Retried, C.ReplayFinish, C.Finishable;
      var ids := C.CandidateUnits(units, only);
      repaired := 0;
      for k := 0 to |ids|
        invariant State() == C.ReconcileUnits(old(State()), ids, env, k)
        invariant repaired == C.Repaired(old(State()), ids, env, k)
      {
        var ok := ReplayUnit(ids[k], env(k));
        if ok {
          repaired := repaired + 1;
        }
      }
      ghost var afterUnits := State();
      var open := C.CandidatePages(pages);
      for k := 0 to |open|
        invariant State() == C.ReconcilePages(afterUnits, open, k)
      {
        var p := open[k];
        if p < |pages| && C.Finishable(State(), p) {
          ReplayClose(p, StatesOf(units, p));
        }
      }
    }
  }
}
