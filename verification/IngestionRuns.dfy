/** Runs in which calls do not overlap. A call may still die after any transaction, so a run is a
    sequence of steps whose checks hold of the current rows; `ingest` and `reconcile` are such runs. */
module IngestionRuns {
  import opened Options
  import opened Ingestion
  import opened IngestionCalls
  import opened IngestionSteps
  import A = Artifacts
  import E = EvidenceStore

  /** Default page key and a request position of the family's own kind. */
  predicate Disciplined(c: Context) {
    Text(c.pageKey) == "" && (if c.scope.family == Nfe then Text(c.requestNsu) == "" else Text(c.requestCursor) == "")
  }

  /** Without overlap the row a call checked is the row it changes. */
  predicate Allowed(rt: Runtime, step: Step) {
    match step
    case DoRegisterPage(c, r) => Disciplined(c)
    case DoPrepareRetry(p, r) => p < |rt.store.pages| && CanResume(rt.store.pages[p], r)
    case DoLink(u, _) => u < |rt.store.units| ==> UnitStatus(rt.store.units[u].state).None?
    case DoFinishPage(p, _, _, _, _) => p < |rt.store.pages| && Open(rt.store.pages[p])
    case _ => true
  }

  predicate AllAllowed(rt: Runtime, steps: seq<Step>) {
    steps == [] || (AllAllowed(rt, steps[..|steps| - 1]) && Allowed(RunTo(rt, steps[..|steps| - 1]), steps[|steps| - 1]))
  }

  // ---------- the history of one scope's position ----------

  datatype Move = Move(page: nat, from: string, to: string)

  function MovesOf(rt: Runtime, steps: seq<Step>, scope: Scope): seq<Move> {
    if steps == [] then []
    else
      var init, last := steps[..|steps| - 1], steps[|steps| - 1];
      var before, after := Position(RunTo(rt, init).store, scope), Position(RunTo(rt, steps).store, scope);
      MovesOf(rt, init, scope) + (if last.DoFinishPage? && before != after then [Move(last.page, before, after)] else [])
  }

  /** Each move starts where the previous one ended; the first starts at "", the last ends at `position`. */
  predicate Linked(m: seq<Move>, position: string) {
    && (if m == [] then position == "" else m[0].from == "" && m[|m| - 1].to == position)
    && forall i | 0 <= i < |m| - 1 :: m[i].to == m[i + 1].from
  }

  predicate NoRepeats(m: seq<Move>) {
    forall i, j | 0 <= i < j < |m| :: m[i].from != m[j].from
  }

  /** Distinct rows of a scope have distinct keys, the default keys of their request positions. */
  ghost predicate KeysUnique(s: Store) {
    && (forall p, q | 0 <= p < q < |s.pages| :: !(s.pages[p].scope == s.pages[q].scope && s.pages[p].key == s.pages[q].key))
    && (forall p | 0 <= p < |s.pages| :: KeyMatches(s.pages[p]))
  }

  predicate KeyMatches(p: Page) {
    && p.key == DefaultKey(p.requestCursor, p.requestNsu)
    && (if p.scope.family == Nfe then p.requestNsu == "" else p.requestCursor == "")
  }

  predicate Closed(p: Page) {
    p.state == PageState.Complete || p.state == PageState.Empty
  }

  /** A page that moved the position is closed, and left the position it was requested at. */
  ghost predicate MovedPages(s: Store, scope: Scope, m: seq<Move>) {
    forall i | 0 <= i < |m| :: MovedPage(s, scope, m[i])
  }

  predicate MovedPage(s: Store, scope: Scope, x: Move) {
    x.page < |s.pages| && s.pages[x.page].scope == scope && Requested(s.pages[x.page]) == x.from && Closed(s.pages[x.page])
  }

  predicate SamePlace(a: Page, b: Page) {
    b.scope == a.scope && b.key == a.key && b.requestCursor == a.requestCursor && b.requestNsu == a.requestNsu
  }

  /** Only page `p` differs, and it keeps its key, its request and its last response. */
  predicate OnlyPage(a: Store, b: Store, p: nat) {
    && |a.pages| == |b.pages| && p < |a.pages|
    && (forall q | 0 <= q < |a.pages| :: SamePlace(a.pages[q], b.pages[q]))
    && (forall q | 0 <= q < |a.pages| && q != p :: a.pages[q] == b.pages[q])
    && a.pages[p].adapterOutcome == b.pages[p].adapterOutcome
  }

  /** What an allowed step does to existing pages: their key and request stay, closed pages stay closed. */
  lemma PagesKept(rt: Runtime, step: Step)
    requires Allowed(rt, step)
    ensures |rt.store.pages| <= |Next(rt, step).store.pages|
    ensures forall p | 0 <= p < |rt.store.pages| ::
              && SamePlace(rt.store.pages[p], Next(rt, step).store.pages[p])
              && (Closed(rt.store.pages[p]) ==> Next(rt, step).store.pages[p] == rt.store.pages[p])
  {
    match step
    case DoRegisterPage(c, r) =>
    case DoPrepareRetry(p, r) =>
    case DoFinishPage(p, target, reason, outcome, recovery) => FinishKeepsPlace(rt.store, p, target, reason, outcome, recovery);
    case _ => assert Next(rt, step).store.pages == rt.store.pages;
  }

  lemma OnlyPageSet(s: Store, t: Store, p: nat, page: Page)
    requires p < |s.pages| && t.pages == s.pages[p := page]
    requires SamePlace(s.pages[p], page) && page.adapterOutcome == s.pages[p].adapterOutcome
    ensures OnlyPage(s, t, p)
  {}

  lemma FinishKeepsPlace(s: Store, p: nat, target: PageState, reason: string, outcome: Outcome, recovery: Recovery)
    requires p < |s.pages|
    ensures OnlyPage(s, FinishPage(s, p, target, reason, outcome, recovery), p)
  {
    hide OnlyPage, Durable, Parked, Position, Advanced, SafeReason, CheckpointOf, TakeContinuation;
    var page, t := s.pages[p], FinishPage(s, p, target, reason, outcome, recovery);
    if !Parked(page) && (target == PageState.Complete || target == PageState.Empty) && Durable(s, p)
       && Position(s, page.scope) == Requested(page) {
      TakeKeepsPlace(s, p, target, outcome, recovery);
    } else {
      assert t.pages == s.pages[p := t.pages[p]];
      OnlyPageSet(s, t, p, t.pages[p]);
    }
  }

  lemma TakeKeepsPlace(s: Store, p: nat, target: PageState, outcome: Outcome, recovery: Recovery)
    requires p < |s.pages|
    ensures OnlyPage(s, TakeContinuation(s, p, target, outcome, recovery), p)
  {
    hide OnlyPage, Refused, Advanced, CheckpointOf, LastPage, FinishPage;
    var page, t := s.pages[p], TakeContinuation(s, p, target, outcome, recovery);
    if Refused(page).Some? {
      OnlyPageSet(s, t, p, page.(state := PageState.Failed, outcome := TemporaryFailure, recovery := Reconcile,
                                 safeError := Refused(page).value));
    } else if page.state == PageState.Failed && !LastPage(page) {
      OnlyPageSet(s, t, p, page.(outcome := outcome, recovery := recovery));
    } else {
      TakenKeepsPlace(s, p, target, outcome, recovery);
    }
  }

  lemma TakenKeepsPlace(s: Store, p: nat, target: PageState, outcome: Outcome, recovery: Recovery)
    requires p < |s.pages| && Refused(s.pages[p]).None? && (s.pages[p].state == PageState.Failed ==> LastPage(s.pages[p]))
    ensures OnlyPage(s, TakeContinuation(s, p, target, outcome, recovery), p)
  {
    hide OnlyPage, Refused, Advanced, CheckpointOf, LastPage, FinishPage;
    var page := s.pages[p].(state := target, outcome := outcome, recovery := recovery, finalized := true);
    assert TakeContinuation(s, p, target, outcome, recovery).pages == s.pages[p := page];
    OnlyPageSet(s, TakeContinuation(s, p, target, outcome, recovery), p, page);
  }

  lemma KeysKept(rt: Runtime, step: Step)
    requires Allowed(rt, step) && KeysUnique(rt.store)
    ensures KeysUnique(Next(rt, step).store)
  {
    var s, t := rt.store, Next(rt, step).store;
    PagesKept(rt, step);
    if step.DoRegisterPage? && |t.pages| > |s.pages| {
      var c := step.context;
      assert FindPage(s.pages, c.scope, PageKey(c)).None?;
      assert t.pages == s.pages + [NewPage(s, c, step.response)];
      assert KeyMatches(t.pages[|s.pages|]);
      forall p, q | 0 <= p < q < |t.pages|
        ensures !(t.pages[p].scope == t.pages[q].scope && t.pages[p].key == t.pages[q].key)
      {
        assert t.pages[p] == s.pages[p];
      }
    } else {
      assert |t.pages| == |s.pages|;
      forall p | 0 <= p < |t.pages| ensures KeyMatches(t.pages[p]) {
        assert KeyMatches(s.pages[p]) && SamePlace(s.pages[p], t.pages[p]);
      }
      forall p, q | 0 <= p < q < |t.pages|
        ensures !(t.pages[p].scope == t.pages[q].scope && t.pages[p].key == t.pages[q].key)
      {
        assert SamePlace(s.pages[p], t.pages[p]) && SamePlace(s.pages[q], t.pages[q]);
      }
    }
  }

  lemma MovedPagesKept(rt: Runtime, step: Step, scope: Scope, m: seq<Move>)
    requires Allowed(rt, step) && MovedPages(rt.store, scope, m)
    ensures MovedPages(Next(rt, step).store, scope, m)
  {
    PagesKept(rt, step);
    forall i | 0 <= i < |m| ensures MovedPage(Next(rt, step).store, scope, m[i]) {
      assert MovedPage(rt.store, scope, m[i]);
    }
  }

  ghost predicate History(s: Store, scope: Scope, m: seq<Move>) {
    && KeysUnique(s) && MovedPages(s, scope, m) && NoRepeats(m) && Linked(m, Position(s, scope))
    && forall i, j | 0 <= i < j < |m| :: m[i].page != m[j].page
  }

  lemma HistoryStep(before: Runtime, step: Step, scope: Scope, m: seq<Move>)
    requires Allowed(before, step) && History(before.store, scope, m)
    ensures var a, b := Position(before.store, scope), Position(Next(before, step).store, scope);
            && (a == b ==> History(Next(before, step).store, scope, m))
            && (a != b ==> step.DoFinishPage? && History(Next(before, step).store, scope, m + [Move(step.page, a, b)]))
  {
    var s, t := before.store, Next(before, step).store;
    KeysKept(before, step);
    MovedPagesKept(before, step, scope, m);
    PositionsMoveOnlyByCas(before, step, scope);
    if Position(s, scope) != Position(t, scope) {
      var x := Move(step.page, Position(s, scope), Position(t, scope));
      FinishPageMoves(s, x.page, step.target, step.reason, step.outcome, step.recovery);
      PagesKept(before, step);
      assert MovedPage(t, scope, x);
      forall i | 0 <= i < |m| ensures m[i].page != x.page && m[i].from != x.from {
        assert MovedPage(s, scope, m[i]);
        FromDiffers(s, m[i].page, x.page);
      }
      HistoryAppend(t, scope, m, x, Position(s, scope));
    }
  }

  lemma HistoryAppend(t: Store, scope: Scope, m: seq<Move>, x: Move, from: string)
    requires KeysUnique(t) && MovedPages(t, scope, m) && NoRepeats(m) && Linked(m, from)
    requires forall i, j | 0 <= i < j < |m| :: m[i].page != m[j].page
    requires MovedPage(t, scope, x) && x.from == from && x.to == Position(t, scope)
    requires forall i | 0 <= i < |m| :: m[i].page != x.page && m[i].from != x.from
    ensures History(t, scope, m + [x])
  {
    hide KeysUnique, Position;
    var n := m + [x];
    forall i | 0 <= i < |n| ensures MovedPage(t, scope, n[i]) {
      assert i < |m| ==> MovedPage(t, scope, m[i]);
    }
  }

  lemma {:induction false} HistoryInvariant(steps: seq<Step>, scope: Scope)
    requires AllAllowed(Start(), steps)
    ensures History(RunTo(Start(), steps).store, scope, MovesOf(Start(), steps, scope))
  {
    hide Next, History, Allowed, Position;
    if steps == [] {
      HistoryStart(scope);
    } else {
      var init := steps[..|steps| - 1];
      var m := MovesOf(Start(), init, scope);
      HistoryInvariant(init, scope);
      HistoryStep(RunTo(Start(), init), steps[|steps| - 1], scope, m);
      assert m + [] == m;
    }
  }

  lemma HistoryStart(scope: Scope)
    ensures History(Start().store, scope, [])
  {}

  lemma FromDiffers(s: Store, p: nat, q: nat)
    requires KeysUnique(s) && p < |s.pages| && q < |s.pages| && p != q && s.pages[p].scope == s.pages[q].scope
    ensures Requested(s.pages[p]) != Requested(s.pages[q])
  {
    assert KeyMatches(s.pages[p]) && KeyMatches(s.pages[q]);
  }

  lemma {:induction false} DistinctBelow(xs: seq<nat>, bound: set<nat>)
    requires forall i | 0 <= i < |xs| :: xs[i] in bound
    requires forall i, j | 0 <= i < j < |xs| :: xs[i] != xs[j]
    ensures |xs| <= |bound|
  {
    if xs != [] {
      var last := xs[|xs| - 1];
      DistinctBelow(xs[..|xs| - 1], bound - {last});
    }
  }

  function PagesOf(s: Store, scope: Scope): set<nat> {
    set p: nat | p < |s.pages| && s.pages[p].scope == scope
  }

  /** No cycling: without overlap the positions left form a linked chain from "" without repeats, one
      move per page at most, whatever positions the source returns and wherever calls die. */
  lemma NoCycling(steps: seq<Step>, scope: Scope)
    requires AllAllowed(Start(), steps)
    ensures var s, m := RunTo(Start(), steps).store, MovesOf(Start(), steps, scope);
            Linked(m, Position(s, scope)) && NoRepeats(m) && |m| <= |PagesOf(s, scope)|
  {
    HistoryInvariant(steps, scope);
    var s, m := RunTo(Start(), steps).store, MovesOf(Start(), steps, scope);
    var pages := seq(|m|, i requires 0 <= i < |m| => m[i].page);
    forall i | 0 <= i < |pages| ensures pages[i] in PagesOf(s, scope) {
      assert MovedPage(s, scope, m[i]);
    }
    DistinctBelow(pages, PagesOf(s, scope));
  }

  // ---------- calls are such runs ----------

  /** A run under construction: `steps` leads from `from` to `at`, and is allowed when `strict`. */
  ghost predicate Track(from: Runtime, steps: seq<Step>, at: Runtime, strict: bool) {
    RunTo(from, steps) == at && (strict ==> AllAllowed(from, steps))
  }

  lemma Go(from: Runtime, steps: seq<Step>, at: Runtime, strict: bool, step: Step) returns (longer: seq<Step>, next: Runtime)
    requires Track(from, steps, at, strict) && (strict ==> Allowed(at, step))
    ensures next == Next(at, step) && Track(from, longer, next, strict)
  {
    longer, next := steps + [step], Next(at, step);
    assert longer[..|longer| - 1] == steps;
  }

  lemma TransmitRun(from: Runtime, steps: seq<Step>, at: Runtime, strict: bool, i: nat, env: UnitEnv)
    returns (longer: seq<Step>, next: Runtime)
    requires Track(from, steps, at, strict) && i < |at.store.artifacts|
    ensures Track(from, longer, next, strict)
    ensures next == at.(store := at.store.(artifacts := Transmit(at.store.artifacts, i, env).0))
  {
    longer, next := steps, at;
    var rows := at.store.artifacts;
    if rows[i].state == A.State.Pending && env.payload.Some? {
      longer, next := Go(from, steps, at, strict, DoArtifact(A.Finalize(i, env.payload.value.digest, env.payload.value.size)));
    }
  }

  lemma ObtainRun(from: Runtime, steps: seq<Step>, at: Runtime, strict: bool, key: string, env: UnitEnv)
    returns (longer: seq<Step>, next: Runtime)
    requires Track(from, steps, at, strict)
    ensures Track(from, longer, next, strict)
    ensures next == at.(store := at.store.(artifacts := Obtain(at.store.artifacts, key, env).0))
  {
    longer, next := steps, at;
    match A.FirstOf(at.store.artifacts, key)
    case Some(i) => longer, next := TransmitRun(from, steps, at, strict, i, env);
    case None =>
      if !env.beginFails {
        longer, next := Go(from, steps, at, strict, DoArtifact(A.Begin(key, "application/octet-stream")));
        longer, next := TransmitRun(from, longer, next, strict, |at.store.artifacts|, env);
      }
  }

  /** The call holds what `_ensure_artifact` returned. */
  lemma EnsureRun(from: Runtime, steps: seq<Step>, at: Runtime, strict: bool, u: nat, scope: Scope, unit: FiscalUnit, env: UnitEnv)
    returns (longer: seq<Step>, next: Runtime)
    requires Track(from, steps, at, strict) && u < |at.store.units|
    requires strict ==> UnitStatus(at.store.units[u].state).None?
    ensures Track(from, longer, next, strict)
    ensures next.store == EnsureArtifact(at.store, u, scope, unit, env).0
    ensures var got := EnsureArtifact(at.store, u, scope, unit, env).1;
            got.Some? ==> Seen(got.value, unit.contentHash) in next.seen
  {
    if AlreadyHeld(at.store, u, unit.contentHash) {
      longer, next := Go(from, steps, at, strict, DoObserve(at.store.units[u].artifact.value));
    } else {
      var key := LogicalKey(scope, unit);
      longer, next := ObtainRun(from, steps, at, strict, key, env);
      var got := Obtain(at.store.artifacts, key, env).1;
      if got.Some? && next.store.artifacts[got.value].digest == unit.contentHash {
        longer, next := Go(from, longer, next, strict, DoObserve(got.value));
        longer, next := Go(from, longer, next, strict, DoLink(u, Seen(got.value, unit.contentHash)));
      }
    }
  }

  /** After the call to `persist_document`, if there is one, the call holds a receipt for its verdict. */
  lemma PersistRun(from: Runtime, steps: seq<Step>, at: Runtime, strict: bool, c: Context, unit: FiscalUnit, a: nat, env: UnitEnv)
    returns (longer: seq<Step>, next: Runtime)
    requires Track(from, steps, at, strict) && Seen(a, unit.contentHash) in at.seen
    ensures Track(from, longer, next, strict)
    ensures next.store == at.store.(docs := Treat(at.store, c, unit, a, env).0)
    ensures Treat(at.store, c, unit, a, env).1.Fail? || Earned(next, Seen(a, unit.contentHash), Treat(at.store, c, unit, a, env).1)
  {
    hide E.Persist, ParentOf;
    longer, next := steps, at;
    var m := env.metadata;
    if m.Metadata? && !env.persistRaises {
      var parent := if NeedsParent(unit) && m.parent.None? then ParentOf(at.store, c.scope, unit, env) else m.parent;
      if !NeedsParent(unit) || parent.Some? {
        var d := InputOf(c, unit, a, m, parent, env.newId);
        longer, next := Go(from, steps, at, strict, DoPersist(d));
        PersistEarns(at, d, Seen(a, unit.contentHash));
      }
    }
  }

  lemma PersistEarns(at: Runtime, d: E.Input, seen: Seen)
    requires seen in at.seen && seen.artifact == d.artifact
    ensures Earned(Next(at, DoPersist(d)), seen, VerdictOf(E.Persist(at.store.docs, at.store.artifacts, d).1))
  {
  }

  lemma TreatRun(from: Runtime, steps: seq<Step>, at: Runtime, strict: bool, u: nat, c: Context, unit: FiscalUnit,
      a: nat, env: UnitEnv)
    returns (longer: seq<Step>, next: Runtime)
    requires Track(from, steps, at, strict) && u < |at.store.units| && Seen(a, unit.contentHash) in at.seen
    ensures Track(from, longer, next, strict)
    ensures var (docs, v) := Treat(at.store, c, unit, a, env);
            var s := at.store.(docs := docs);
            next.store == if v.Fail? then FailUnit(s, u, v.reason, TemporaryFailure) else FinishUnit(s, u, a, unit.contentHash, v)
  {
    var v := Treat(at.store, c, unit, a, env).1;
    longer, next := PersistRun(from, steps, at, strict, c, unit, a, env);
    if v.Fail? {
      longer, next := Go(from, longer, next, strict, DoFailUnit(u, v.reason, TemporaryFailure));
    } else {
      longer, next := Go(from, longer, next, strict, DoFinishUnit(u, Seen(a, unit.contentHash), v));
    }
  }

  lemma ProcessRun(from: Runtime, steps: seq<Step>, at: Runtime, strict: bool, u: nat, c: Context, unit: FiscalUnit, env: UnitEnv)
    returns (longer: seq<Step>, next: Runtime)
    requires Track(from, steps, at, strict) && u < |at.store.units|
    requires strict && UnitStatus(at.store.units[u].state).Some? ==> Settled(at.store.units[u], unit)
    ensures Track(from, longer, next, strict)
    ensures next.store == ProcessUnit(at.store, u, c, unit, env).0
  {
    longer, next := steps, at;
    if !Settled(at.store.units[u], unit) {
      longer, next := Go(from, steps, at, strict, DoTouch(u));
      var got := EnsureArtifact(next.store, u, c.scope, unit, env).1;
      longer, next := EnsureRun(from, longer, next, strict, u, c.scope, unit, env);
      if got.None? {
        longer, next := Go(from, longer, next, strict, DoFailUnit(u, "object_unavailable", Outcome.Unavailable));
      } else {
        longer, next := TreatRun(from, longer, next, strict, u, c, unit, got.value, env);
      }
    }
  }

  /** A registered unit keeps a recorded treatment only if the call will skip it. */
  lemma RegisteredOrSkipped(s: Store, p: nat, scope: Scope, unit: FiscalUnit)
    ensures var (s1, u) := RegisterUnit(s, p, scope, unit);
            UnitStatus(s1.units[u].state).Some? ==> Settled(s1.units[u], unit)
  {}

  lemma {:induction false} UnitsRun(from: Runtime, steps: seq<Step>, at: Runtime, strict: bool, p: nat, c: Context,
                                    units: seq<FiscalUnit>, env: nat -> UnitEnv, k: nat)
    returns (longer: seq<Step>, next: Runtime)
    requires Track(from, steps, at, strict) && k <= |units|
    ensures Track(from, longer, next, strict)
    ensures next.store == UnitsUpTo(at.store, p, c, units, env, k).0
    decreases k
  {
    longer, next := steps, at;
    if k > 0 {
      longer, next := UnitsRun(from, steps, at, strict, p, c, units, env, k - 1);
      var u := RegisterUnit(next.store, p, c.scope, units[k - 1]).1;
      RegisteredOrSkipped(next.store, p, c.scope, units[k - 1]);
      longer, next := Go(from, longer, next, strict, DoRegisterUnit(p, c.scope, units[k - 1]));
      longer, next := ProcessRun(from, longer, next, strict, u, c, units[k - 1], env(k - 1));
    }
  }

  lemma RunPageRun(from: Runtime, steps: seq<Step>, at: Runtime, strict: bool, p: nat, c: Context, r: Response, env: nat -> UnitEnv)
    returns (longer: seq<Step>, next: Runtime)
    requires Track(from, steps, at, strict) && p < |at.store.pages| && Open(at.store.pages[p])
    ensures Track(from, longer, next, strict)
    ensures next.store == RunPage(at.store, p, c, r, env)
  {
    longer, next := steps, at;
    var cl := ClassifyResponse(r);
    if !IsFailureOutcome(r.outcome) {
      cl := FinalClassification(r, UnitsUpTo(at.store, p, c, r.units, env, |r.units|).1);
      longer, next := UnitsRun(from, steps, at, strict, p, c, r.units, env, |r.units|);
    }
    longer, next := Go(from, longer, next, strict, DoFinishPage(p, cl.state, cl.reason, cl.outcome, cl.recovery));
  }

  /** `ingest` is a run of steps, an allowed one for a disciplined context. */
  lemma IngestRun(from: Runtime, steps: seq<Step>, at: Runtime, strict: bool, c: Context, r: Response, env: nat -> UnitEnv)
    returns (longer: seq<Step>, next: Runtime)
    requires Track(from, steps, at, strict) && (strict ==> Disciplined(c))
    ensures Track(from, longer, next, strict)
    ensures next.store == Ingest(at.store, c, r, env)
  {
    longer, next := steps, at;
    if Acceptable(c, r) {
      var (s1, p, created) := RegisterPage(at.store, c, r);
      longer, next := Go(from, steps, at, strict, DoRegisterPage(c, r));
      if created {
        if s1.pages[p].state != PageState.Failed {
          longer, next := RunPageRun(from, longer, next, strict, p, c, r, env);
        }
      } else if CanResume(s1.pages[p], r) {
        longer, next := Go(from, longer, next, strict, DoPrepareRetry(p, r));
        longer, next := RunPageRun(from, longer, next, strict, p, c, r, env);
      }
    }
  }

  lemma ReplayFinishRun(from: Runtime, steps: seq<Step>, at: Runtime, strict: bool, p: nat)
    returns (longer: seq<Step>, next: Runtime)
    requires Track(from, steps, at, strict) && p < |at.store.pages| && Open(at.store.pages[p])
    ensures Track(from, longer, next, strict)
    ensures next.store == ReplayFinish(at.store, p)
  {
    var cl := ClassifyTreatments(StatesOf(at.store.units, p));
    longer, next := Go(from, steps, at, strict,
      DoFinishPage(p, if at.store.pages[p].unitCount == 0 then PageState.Empty else PageState.Complete, "", cl.outcome,
          cl.recovery));
  }

  lemma ReconcileUnitRun(from: Runtime, steps: seq<Step>, at: Runtime, strict: bool, u: nat, env: UnitEnv)
    returns (longer: seq<Step>, next: Runtime)
    requires Track(from, steps, at, strict)
    ensures Track(from, longer, next, strict)
    ensures next.store == ReconcileUnit(at.store, u, env)
  {
    longer, next := steps, at;
    if u < |at.store.units| {
      var row := at.store.units[u];
      longer, next := ProcessRun(from, steps, at, strict, u, ReplayContext(row), StoredUnit(row), env);
      var s1, p := next.store, row.page;
      if p < |s1.pages| && s1.pages[p].state == PageState.Partial && s1.pages[p].adapterOutcome != FiscalOutcome.Partial
         && StatesOf(s1.units, p) != [] && AllTerminal(StatesOf(s1.units, p)) {
        longer, next := ReplayFinishRun(from, longer, next, strict, p);
      }
    }
  }

  lemma {:induction false} ReconcileUnitsRun(from: Runtime, steps: seq<Step>, at: Runtime, strict: bool, ids: seq<nat>,
      env: nat -> UnitEnv, k: nat)
    returns (longer: seq<Step>, next: Runtime)
    requires Track(from, steps, at, strict) && k <= |ids|
    ensures Track(from, longer, next, strict)
    ensures next.store == ReconcileUnits(at.store, ids, env, k)
    decreases k
  {
    hide Track, ReconcileUnit;
    longer, next := steps, at;
    if k > 0 {
      longer, next := ReconcileUnitsRun(from, steps, at, strict, ids, env, k - 1);
      longer, next := ReconcileUnitRun(from, longer, next, strict, ids[k - 1], env(k - 1));
    }
  }

  /** The pages from position `k` of a list on are open and differ from one another. */
  ghost predicate OpenFrom(pages: seq<Page>, ids: seq<nat>, k: nat) {
    && (forall i | k <= i < |ids| :: ids[i] < |pages| && Open(pages[ids[i]]))
    && (forall i, j | k <= i < j < |ids| :: ids[i] != ids[j])
  }

  lemma OpenFromNext(a: seq<Page>, b: seq<Page>, ids: seq<nat>, k: nat)
    requires k < |ids| && OpenFrom(a, ids, k) && |b| == |a|
    requires forall q | 0 <= q < |a| && q != ids[k] :: b[q] == a[q]
    ensures OpenFrom(b, ids, k + 1)
  {
    forall i | k + 1 <= i < |ids| ensures ids[i] < |b| && Open(b[ids[i]]) {
      assert ids[k] != ids[i];
    }
  }

  lemma ReconcilePageRun(from: Runtime, steps: seq<Step>, at: Runtime, strict: bool, p: nat)
    returns (longer: seq<Step>, next: Runtime)
    requires Track(from, steps, at, strict) && p < |at.store.pages| && Open(at.store.pages[p])
    ensures Track(from, longer, next, strict)
    ensures next.store == ReconcilePage(at.store, p)
    ensures |next.store.pages| == |at.store.pages|
    ensures forall q | 0 <= q < |at.store.pages| && q != p :: next.store.pages[q] == at.store.pages[q]
  {
    longer, next := steps, at;
    if Finishable(at.store, p) {
      longer, next := ReplayFinishRun(from, steps, at, strict, p);
    }
  }

  /** The pages still to visit are open: finishing one page leaves the others alone. */
  lemma {:induction false} ReconcilePagesRun(from: Runtime, steps: seq<Step>, at: Runtime, strict: bool, ids: seq<nat>, k: nat)
    returns (longer: seq<Step>, next: Runtime)
    requires Track(from, steps, at, strict) && k <= |ids|
    requires OpenFrom(at.store.pages, ids, 0)
    ensures Track(from, longer, next, strict)
    ensures next.store == ReconcilePages(at.store, ids, k)
    ensures OpenFrom(next.store.pages, ids, k)
    decreases k
  {
    hide Track, ReconcilePage;
    longer, next := steps, at;
    if k > 0 {
      longer, next := ReconcilePagesRun(from, steps, at, strict, ids, k - 1);
      var before := next.store.pages;
      longer, next := ReconcilePageRun(from, longer, next, strict, ids[k - 1]);
      OpenFromNext(before, next.store.pages, ids, k - 1);
    }
  }

  lemma OpenFromExtend(pages: seq<Page>, ids: seq<nat>, last: Page)
    requires OpenFrom(pages, ids, 0)
    ensures OpenFrom(pages + [last], ids, 0)
    ensures Open(last) ==> OpenFrom(pages + [last], ids + [|pages|], 0)
  {
  }

  lemma {:induction false} CandidatePagesOpen(pages: seq<Page>)
    ensures OpenFrom(pages, CandidatePages(pages), 0)
  {
    if pages != [] {
      var n := |pages| - 1;
      CandidatePagesOpen(pages[..n]);
      OpenFromExtend(pages[..n], CandidatePages(pages[..n]), pages[n]);
      assert pages[..n] + [pages[n]] == pages;
    }
  }

  lemma OpenPagesRun(from: Runtime, steps: seq<Step>, at: Runtime, strict: bool)
    returns (longer: seq<Step>, next: Runtime)
    requires Track(from, steps, at, strict)
    ensures Track(from, longer, next, strict)
    ensures next.store == ReconcileOpenPages(at.store)
  {
    CandidatePagesOpen(at.store.pages);
    var pages := CandidatePages(at.store.pages);
    longer, next := ReconcilePagesRun(from, steps, at, strict, pages, |pages|);
  }

  /** `reconcile` is an allowed run of steps. */
  lemma ReconcileRun(from: Runtime, steps: seq<Step>, at: Runtime, strict: bool, only: Option<nat>, env: nat -> UnitEnv)
    returns (longer: seq<Step>, next: Runtime)
    requires Track(from, steps, at, strict)
    ensures Track(from, longer, next, strict)
    ensures next.store == ReconcileAll(at.store, only, env)
  {
    var ids := CandidateUnits(at.store.units, only);
    longer, next := ReconcileUnitsRun(from, steps, at, strict, ids, env, |ids|);
    longer, next := OpenPagesRun(from, longer, next, strict);
  }
}
