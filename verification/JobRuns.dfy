/** Any number of workers, each with its own name and doing one thing at a time as `process_one` does,
    each liable to die at any point; and for every job the retry budget and the total backoff. */
module JobRuns {
  import opened Options
  import opened JobEngine
  import opened JobFencing

  /** Where a worker is between two of its transactions. */
  datatype Phase =
    | Holding(id: nat, attempts: nat)
    | Deciding(id: nat, attempts: nat, change: Change)

  /** A temporary or partial outcome that was requeued: after which attempt, and for how long. */
  datatype Delay = Delay(attempt: nat, seconds: int)

  datatype History = History(expiries: nat, cooldowns: nat, delays: seq<Delay>)

  datatype System = System(jobs: Jobs, busy: map<string, Phase>, history: seq<History>)

  datatype Step =
    | Enqueueing(request: Request, now: int)
    | Reclaiming(now: int)
    | Claiming(worker: string, now: int, duration: nat, locked: set<nat>)
    | Renewing(worker: string, at: int, now: int, duration: nat)
    | Completing(worker: string, result: SafeMap, at: int, now: int)
    | Failing(worker: string, code: string, due: int, now: int)
    | Reading(worker: string, outcome: HandlerOutcome, jitter: int, now: int)
    | Writing(worker: string)
    | Dying(worker: string)

  /** The transaction of a step, if the worker's phase allows one. `fail` is only called on jobs without a policy. */
  function OpOf(s: System, step: Step): Option<Op> {
    match step
    case Enqueueing(r, now) => Some(DoEnqueue(r, now))
    case Reclaiming(now) => Some(DoReclaim(now))
    case Claiming(w, now, duration, locked) => if w in s.busy then None else Some(DoClaim(w, now, duration, locked))
    case Renewing(w, at, now, duration) =>
      if w in s.busy && s.busy[w].Holding? then Some(DoRenew(s.busy[w].id, w, at, now, duration)) else None
    case Completing(w, result, at, now) =>
      if w in s.busy && s.busy[w].Holding? then Some(DoComplete(s.busy[w].id, w, result, at, now)) else None
    case Failing(w, code, due, now) =>
      if w in s.busy && s.busy[w].Holding? && s.busy[w].id < |s.jobs| && s.jobs[s.busy[w].id].policy.None?
      then Some(DoFail(s.busy[w].id, w, code, due, now)) else None
    case Reading(_, _, _, _) => None
    case Writing(w) =>
      if w in s.busy && s.busy[w].Deciding? then Some(DoWrite(s.busy[w].id, w, s.busy[w].change)) else None
    case Dying(_) => None
  }

  /** The worker's next phase; after a refused read it may still make the fallback call. */
  function PhaseAfter(s: System, step: Step): map<string, Phase> {
    match step
    case Claiming(w, now, duration, locked) =>
      if w in s.busy then s.busy
      else
        (match Claim(s.jobs, w, now, duration, locked)
         case (t, Ok(Some(id))) => if id < |t| then s.busy[w := Holding(id, t[id].attempts)] else s.busy
         case _ => s.busy)
    case Completing(w, _, _, _) => if w in s.busy && s.busy[w].Holding? then s.busy - {w} else s.busy
    case Failing(w, _, _, _) => if w in s.busy && s.busy[w].Holding? then s.busy - {w} else s.busy
    case Reading(w, o, jitter, now) =>
      if w in s.busy && s.busy[w].Holding? then
        (match Read(s.jobs, s.busy[w].id, w, o, jitter, now)
         case Ok(c) => s.busy[w := Deciding(s.busy[w].id, s.busy[w].attempts, c)]
         case Err(_) => s.busy)
      else s.busy
    case Writing(w) => if w in s.busy && s.busy[w].Deciding? then s.busy - {w} else s.busy
    case Dying(w) => s.busy - {w}
    case _ => s.busy
  }

  function Noted(h: History, attempts: nat, c: Change): History {
    match c.decision
    case Again(due, cooldown) =>
      if cooldown then h.(cooldowns := h.cooldowns + 1)
      else h.(delays := h.delays + [Delay(attempts, due - c.now)])
    case _ => h
  }

  function Expiries(jobs: Jobs, history: seq<History>, now: int): (r: seq<History>)
    ensures |r| == |history|
  {
    seq(|history|, i requires 0 <= i < |history| =>
      if i < |jobs| && Expired(jobs[i], now) then history[i].(expiries := history[i].expiries + 1) else history[i])
  }

  function HistoryAfter(s: System, op: Op): seq<History> {
    match op
    case DoEnqueue(r, now) =>
      if |Enqueue(s.jobs, r, now).0| > |s.jobs| then s.history + [History(0, 0, [])] else s.history
    case DoReclaim(now) => Expiries(s.jobs, s.history, now)
    case DoClaim(w, now, _, _) => if Named(w) then Expiries(s.jobs, s.history, now) else s.history
    case DoWrite(id, w, c) =>
      if Holds(s.jobs, id, w, c.now) && id < |s.history|
      then s.history[id := Noted(s.history[id], s.jobs[id].attempts, c)] else s.history
    case _ => s.history
  }

  function Next(s: System, step: Step): System {
    match OpOf(s, step)
    case None => s.(busy := PhaseAfter(s, step))
    case Some(op) => System(Apply(s.jobs, op), PhaseAfter(s, step), HistoryAfter(s, op))
  }

  function From(s: System, steps: seq<Step>): System {
    if steps == [] then s else Next(From(s, steps[..|steps| - 1]), steps[|steps| - 1])
  }

  function RunTo(steps: seq<Step>): System {
    From(System([], map[], []), steps)
  }

  // ---------- the invariant ----------

  /** A worker that still owns the job it works on is at the attempt it claimed, and a decision it
      carries was made for that attempt under the job's policy. */
  predicate PhaseOk(jobs: Jobs, w: string, ph: Phase) {
    && ph.id < |jobs|
    && (OwnedBy(jobs[ph.id], w) ==> jobs[ph.id].attempts == ph.attempts)
    && (ph.Deciding? ==> DecidedFor(jobs[ph.id].policy, ph.attempts, ph.change))
  }

  predicate DecidedFor(policy: Option<Policy>, attempts: nat, c: Change) {
    c.decision.Again? ==>
      && policy.Some? && attempts <= policy.value.retryLimit
      && (!c.decision.cooldown ==> DelayOk(policy.value, Delay(attempts, c.decision.dueAt - c.now)))
  }

  /** A delay lies in [0, cap] and within the jitter of the capped exponential. */
  predicate DelayOk(p: Policy, d: Delay) {
    && 0 <= d.seconds <= p.cap
    && 0 - p.jitter <= d.seconds - Base(d.attempt, p) <= p.jitter
  }

  /** The claim that has not been given back yet. */
  function Open(j: Job): nat {
    if j.state == Queued then 0 else 1
  }

  predicate BudgetOk(j: Job, h: History) {
    && (j.state == Running ==> j.attempts > 0)
    && (j.policy.Some? ==>
          && j.attempts == |h.delays| + h.cooldowns + h.expiries + Open(j)
          && j.attempts <= j.policy.value.retryLimit + h.expiries + Open(j)
          && Delays(h.delays, j.policy.value, j.attempts - Open(j)))
  }

  /** Each delay is in its bounds, and they follow different attempts within the limit, in order. */
  predicate Delays(d: seq<Delay>, p: Policy, last: int) {
    && (forall i | 0 <= i < |d| :: DelayOk(p, d[i]) && 1 <= d[i].attempt <= last && d[i].attempt <= p.retryLimit)
    && (forall i, j | 0 <= i < j < |d| :: d[i].attempt < d[j].attempt)
  }

  ghost predicate Inv(s: System) {
    && Good(s.jobs) && |s.history| == |s.jobs|
    && (forall w | w in s.busy :: PhaseOk(s.jobs, w, s.busy[w]))
    && (forall i | 0 <= i < |s.jobs| :: BudgetOk(s.jobs[i], s.history[i]))
  }

  lemma DecisionIsFor(j: Job, o: HandlerOutcome, jitter: int, now: int)
    ensures var c := Decide(j, o, jitter, now); c.Ok? ==> DecidedFor(j.policy, j.attempts, c.value)
  {
  }

  /** The phases of the workers that do not act stay true of the new table. */
  lemma PhaseStays(jobs: Jobs, op: Op, w: string, ph: Phase)
    requires Good(jobs) && PhaseOk(jobs, w, ph) && !ClaimsFor(op, w)
    ensures PhaseOk(Apply(jobs, op), w, ph)
  {
    hide Apply;
    StepHold(jobs, op, ph.id, w);
    ApplyKeeps(jobs, op);
  }

  lemma PhasesKept(s: System, step: Step)
    requires Inv(s)
    ensures forall w | w in Next(s, step).busy :: PhaseOk(Next(s, step).jobs, w, Next(s, step).busy[w])
  {
    var t, op := Next(s, step), OpOf(s, step);
    forall w | w in t.busy ensures PhaseOk(t.jobs, w, t.busy[w]) {
      if step.Claiming? && step.worker == w && w !in s.busy {
        ClaimKeeps(s.jobs, w, step.now, step.duration, step.locked);
      } else if step.Reading? && step.worker == w {
        assert PhaseOk(s.jobs, w, s.busy[w]);
        if s.busy[w].Holding? {
          DecisionIsFor(s.jobs[s.busy[w].id], step.outcome, step.jitter, step.now);
        }
      } else {
        assert w in s.busy && t.busy[w] == s.busy[w];
        if op.Some? {
          PhaseStays(s.jobs, op.value, w, s.busy[w]);
        }
      }
    }
  }

  lemma RequeueBudget(j: Job, h: History, now: int)
    requires BudgetOk(j, h)
    ensures BudgetOk(Requeued(j, now), if Expired(j, now) then h.(expiries := h.expiries + 1) else h)
  {
  }

  lemma WriteBudget(j: Job, h: History, c: Change)
    requires BudgetOk(j, h) && j.state == Running && DecidedFor(j.policy, j.attempts, c)
    ensures BudgetOk(Changed(j, c), Noted(h, j.attempts, c))
  {
    if c.decision.Again? && !c.decision.cooldown {
      var d := h.delays + [Delay(j.attempts, c.decision.dueAt - c.now)];
      assert Noted(h, j.attempts, c).delays == d;
      assert Delays(d, j.policy.value, j.attempts);
    }
  }

  ghost predicate AllBudget(jobs: Jobs, history: seq<History>) {
    |history| == |jobs| && forall i | 0 <= i < |jobs| :: BudgetOk(jobs[i], history[i])
  }

  lemma ReclaimBudget(jobs: Jobs, history: seq<History>, now: int)
    requires AllBudget(jobs, history)
    ensures AllBudget(Reclaim(jobs, now), Expiries(jobs, history, now))
  {
    hide BudgetOk;
    forall i | 0 <= i < |jobs| ensures BudgetOk(Reclaim(jobs, now)[i], Expiries(jobs, history, now)[i]) {
      RequeueBudget(jobs[i], history[i], now);
    }
  }

  lemma ClaimBudget(jobs: Jobs, history: seq<History>, w: string, now: int, duration: nat, locked: set<nat>)
    requires AllBudget(jobs, history) && Named(w)
    ensures AllBudget(Claim(jobs, w, now, duration, locked).0, Expiries(jobs, history, now))
  {
    ReclaimBudget(jobs, history, now);
  }

  lemma OpBudget(s: System, op: Op)
    requires Inv(s)
    requires op.DoWrite? && Holds(s.jobs, op.id, op.owner, op.change.now) ==>
               DecidedFor(s.jobs[op.id].policy, s.jobs[op.id].attempts, op.change)
    requires op.DoFail? && op.id < |s.jobs| ==> s.jobs[op.id].policy.None?
    ensures AllBudget(Apply(s.jobs, op), HistoryAfter(s, op))
  {
    match op
    case DoReclaim(now) => ReclaimBudget(s.jobs, s.history, now);
    case DoClaim(w, now, duration, locked) => if Named(w) { ClaimBudget(s.jobs, s.history, w, now, duration, locked); }
    case DoWrite(id, w, c) => if Holds(s.jobs, id, w, c.now) { WriteBudget(s.jobs[id], s.history[id], c); }
    case _ =>
  }

  lemma StepKeeps(s: System, step: Step)
    requires Inv(s)
    ensures Inv(Next(s, step))
  {
    hide BudgetOk, PhaseOk;
    PhasesKept(s, step);
    match OpOf(s, step)
    case None =>
    case Some(op) =>
      ApplyKeeps(s.jobs, op);
      WriteIsDecided(s, step);
      OpBudget(s, op);
  }

  lemma WriteIsDecided(s: System, step: Step)
    requires Inv(s)
    ensures match OpOf(s, step)
            case Some(DoWrite(id, w, c)) => Holds(s.jobs, id, w, c.now) ==> DecidedFor(s.jobs[id].policy, s.jobs[id].attempts, c)
            case Some(DoFail(id, _, _, _, _)) => id < |s.jobs| ==> s.jobs[id].policy.None?
            case _ => true
  {
    if step.Writing? && step.worker in s.busy {
      assert PhaseOk(s.jobs, step.worker, s.busy[step.worker]);
    }
  }

  lemma {:induction false} RunKeepsInv(s: System, steps: seq<Step>)
    requires Inv(s)
    ensures Inv(From(s, steps))
  {
    if steps != [] {
      RunKeepsInv(s, steps[..|steps| - 1]);
      StepKeeps(From(s, steps[..|steps| - 1]), steps[|steps| - 1]);
    }
  }

  lemma Invariant(steps: seq<Step>)
    ensures Inv(RunTo(steps))
  {
    RunKeepsInv(System([], map[], []), steps);
  }

  // ---------- consequences ----------

  /** Whenever a worker's call takes effect, in any reachable state, the job is at the attempt the
      worker claimed. */
  lemma OnlyCurrentAttempts(steps: seq<Step>, step: Step)
    requires step.Renewing? || step.Completing? || step.Failing? || step.Writing?
    requires Next(RunTo(steps), step).jobs != RunTo(steps).jobs
    ensures var s := RunTo(steps);
            step.worker in s.busy && OwnedBy(s.jobs[s.busy[step.worker].id], step.worker)
            && s.jobs[s.busy[step.worker].id].attempts == s.busy[step.worker].attempts
  {
    Invariant(steps);
    var s := RunTo(steps);
    assert PhaseOk(s.jobs, step.worker, s.busy[step.worker]);
  }

  function Total(d: seq<Delay>): int {
    if d == [] then 0 else Total(d[..|d| - 1]) + d[|d| - 1].seconds
  }

  lemma BaseBelow(attempt: nat, p: Policy)
    requires attempt > 0
    ensures Base(attempt, p) <= p.initial * Pow2(attempt - 1)
  {
  }

  lemma DoublePower(initial: nat, n: nat)
    ensures initial * Pow2(n + 1) == 2 * (initial * Pow2(n))
  {
  }

  lemma {:induction false} PowerGrows(initial: nat, m: nat, n: nat)
    requires m <= n
    ensures initial * Pow2(m) <= initial * Pow2(n)
  {
    if m < n {
      PowerGrows(initial, m, n - 1);
      DoublePower(initial, n - 1);
    }
  }

  /** The delays of different attempts up to `last` sum to at most initial * (2^last - 1), plus the jitter. */
  lemma {:induction false} TotalBound(d: seq<Delay>, p: Policy, last: nat)
    requires Delays(d, p, last)
    ensures 0 <= Total(d) <= |d| * p.cap
    ensures Total(d) <= p.initial * Pow2(last) - p.initial + |d| * p.jitter
  {
    if d == [] {
      PowerGrows(p.initial, 0, last);
    } else {
      var init, x := d[..|d| - 1], d[|d| - 1];
      assert DelayOk(p, x);
      forall i | 0 <= i < |init| ensures init[i].attempt <= x.attempt - 1 {
        assert d[i].attempt < d[|d| - 1].attempt;
      }
      TotalBound(init, p, x.attempt - 1);
      BaseBelow(x.attempt, p);
      DoublePower(p.initial, x.attempt - 1);
      PowerGrows(p.initial, x.attempt, last);
      Spread(|init|, p.cap);
      Spread(|init|, p.jitter);
    }
  }

  lemma Spread(n: nat, x: nat)
    ensures (n + 1) * x == n * x + x
  {
  }

  /** The retry budget of a job with a policy, in any reachable state: attempts stay within one plus the
      limit plus the expired leases; every delay is within [0, cap] and the jitter of the capped
      exponential; r delays sum to at most r * cap, and to at most initial * (2^(r + c + e) - 1) plus
      the jitter, where c counts cooldowns and e expiries. */
  lemma RetryBudget(steps: seq<Step>, id: nat)
    requires id < |RunTo(steps).jobs| && RunTo(steps).jobs[id].policy.Some?
    ensures var j := RunTo(steps).jobs[id];
            id < |RunTo(steps).history| &&
            var (h, p) := (RunTo(steps).history[id], j.policy.value);
            var r := |h.delays|;
            && j.attempts <= 1 + p.retryLimit + h.expiries
            && (forall i | 0 <= i < r :: DelayOk(p, h.delays[i]))
            && 0 <= Total(h.delays) <= r * p.cap
            && Total(h.delays) <= p.initial * Pow2(r + h.cooldowns + h.expiries) - p.initial + r * p.jitter
  {
    Invariant(steps);
    var j, h := RunTo(steps).jobs[id], RunTo(steps).history[id];
    assert BudgetOk(j, h);
    TotalBound(h.delays, j.policy.value, j.attempts - Open(j));
  }

  /** Without cooldowns, expiries and jitter: r delays sum to at most min(r * cap, initial * (2^r - 1)). */
  lemma PlainBackoff(steps: seq<Step>, id: nat)
    requires id < |RunTo(steps).jobs| && RunTo(steps).jobs[id].policy.Some? && RunTo(steps).jobs[id].policy.value.jitter == 0
    ensures id < |RunTo(steps).history| &&
            var (h, p) := (RunTo(steps).history[id], RunTo(steps).jobs[id].policy.value);
            h.expiries == 0 && h.cooldowns == 0 ==>
              Total(h.delays) <= Min(|h.delays| * p.cap, p.initial * Pow2(|h.delays|) - p.initial)
  {
    RetryBudget(steps, id);
  }

  // ---------- exactly when the plain bound holds of every run of a policy ----------

  /** The bound initial * (2^r - 1) on the delays of a job with this policy whose leases never expired. */
  ghost predicate BoundAt(steps: seq<Step>, id: nat, p: Policy) {
    var s := RunTo(steps);
    id < |s.jobs| && id < |s.history| && s.jobs[id].policy == Some(p) && s.history[id].expiries == 0 ==>
      Total(s.history[id].delays) <= p.initial * Pow2(|s.history[id].delays|) - p.initial
  }

  ghost predicate BoundAlways(p: Policy) {
    forall steps, id :: BoundAt(steps, id, p)
  }

  lemma FromStep(s: System, steps: seq<Step>, step: Step)
    ensures From(s, steps + [step]) == Next(From(s, steps), step)
  {
    assert (steps + [step])[..|steps|] == steps;
  }

  /** One retried attempt of the only job. */
  lemma Round(before: seq<Step>, w: string, o: HandlerOutcome, jitter: int, now: int) returns (steps: seq<Step>)
    requires var s := RunTo(before); |s.jobs| == 1 == |s.history| && Due(s.jobs[0], now) && w !in s.busy && Named(w)
    requires var d := Decide(Claimed(RunTo(before).jobs[0], w, now, 30), o, jitter, now); d.Ok? && d.value.decision.Again?
    ensures var s, j := RunTo(before), Claimed(RunTo(before).jobs[0], w, now, 30);
            var c := Decide(j, o, jitter, now).value;
            RunTo(steps) == System([Changed(j, c)], s.busy, [Noted(s.history[0], j.attempts, c)])
  {
    hide Decide, Noted, Changed;
    var start, s := System([], map[], []), RunTo(before);
    var j := Claimed(s.jobs[0], w, now, 30);
    var c := Decide(j, o, jitter, now).value;
    DecideNow(j, o, jitter, now);
    var s1 := Next(s, Claiming(w, now, 30, {}));
    assert Eligible(s.jobs, 0, now, {});
    assert Reclaim(s.jobs, now) == s.jobs;
    assert Expiries(s.jobs, s.history, now) == s.history;
    assert s1 == System([j], s.busy[w := Holding(0, j.attempts)], s.history);
    var s2 := Next(s1, Reading(w, o, jitter, now));
    assert s2 == System([j], s1.busy[w := Deciding(0, j.attempts, c)], s.history);
    assert s2.busy - {w} == s.busy;
    FromStep(start, before, Claiming(w, now, 30, {}));
    FromStep(start, before + [Claiming(w, now, 30, {})], Reading(w, o, jitter, now));
    steps := before + [Claiming(w, now, 30, {})] + [Reading(w, o, jitter, now)] + [Writing(w)];
    FromStep(start, before + [Claiming(w, now, 30, {})] + [Reading(w, o, jitter, now)], Writing(w));
  }

  lemma DecideNow(j: Job, o: HandlerOutcome, jitter: int, now: int)
    ensures Decide(j, o, jitter, now).Ok? ==> Decide(j, o, jitter, now).value.now == now
  {
  }

  function Asked(p: Policy): Request {
    Request("t", "x", map[], "k", 0, Some(p.validFrom), Some(p))
  }

  /** A cooldown decided now that ends a second later, and a temporary failure. */
  function Cooled(now: int): HandlerOutcome {
    HandlerOutcome(Cooldown, map[], "", Some(now + 1))
  }

  const TRIED := HandlerOutcome(Temporary, map[], "", None)

  lemma Decisions(j: Job, p: Policy, now: int)
    requires j.policy == Some(p) && 0 < j.attempts <= p.retryLimit && p.jitter == 0
    ensures Decide(j, Cooled(now), 0, now).Ok? && Decide(j, Cooled(now), 0, now).value.decision == Again(now + 1, true)
    ensures Decide(j, TRIED, 0, now).Ok? && Decide(j, TRIED, 0, now).value.decision == Again(now + Base(j.attempts, p), false)
  {
    hide Base, ErrorCode;
  }

  lemma OneQueued(p: Policy)
    ensures From(System([], map[], []), []) == System([], map[], [])
    ensures Next(System([], map[], []), Enqueueing(Asked(p), p.validFrom))
            == System([NewJob(Asked(p), p.validFrom)], map[], [History(0, 0, [])])
  {
  }

  lemma SecondBase(p: Policy)
    requires p.initial < p.cap
    ensures Base(2, p) > p.initial * Pow2(1) - p.initial
  {
    assert Pow2(1) == 2 * Pow2(0) && Pow2(0) == 1;
    DoublePower(p.initial, 0);
  }

  /** A cooldown is an attempt too: one delay after one cooldown exceeds the bound. */
  lemma CooldownStretchesBackoff(p: Policy, w: string) returns (steps: seq<Step>)
    requires Named(w) && p.jitter == 0 && p.initial < p.cap && p.retryLimit >= 2
    ensures !BoundAt(steps, 0, p)
    ensures RunTo(steps).history == [History(0, 1, [Delay(2, Base(2, p))])]
  {
    hide Decide, From, Next, Base, Pow2;
    var t := p.validFrom;
    steps := [] + [Enqueueing(Asked(p), t)];
    OneQueued(p);
    FromStep(System([], map[], []), [], Enqueueing(Asked(p), t));
    var j1 := Claimed(NewJob(Asked(p), t), w, t, 30);
    Decisions(j1, p, t);
    DecideNow(j1, Cooled(t), 0, t);
    steps := Round(steps, w, Cooled(t), 0, t);
    var j2 := Claimed(Changed(j1, Decide(j1, Cooled(t), 0, t).value), w, t + 1, 30);
    Decisions(j2, p, t + 1);
    DecideNow(j2, TRIED, 0, t + 1);
    steps := Round(steps, w, TRIED, 0, t + 1);
    var d := [] + [Delay(2, Base(2, p))];
    assert d[..0] == [] && Total(d) == Total(d[..0]) + Base(2, p);
    SecondBase(p);
  }

  lemma {:induction false} PowerAboveCount(initial: nat, r: nat)
    ensures r * initial <= initial * Pow2(r) - initial
  {
    if r > 0 {
      PowerAboveCount(initial, r - 1);
      DoublePower(initial, r - 1);
      PowerGrows(initial, 0, r - 1);
      Spread(r - 1, initial);
    }
  }

  lemma {:induction false} AtMost(d: seq<Delay>, bound: nat)
    requires forall i | 0 <= i < |d| :: 1 <= d[i].attempt <= bound
    requires forall i, j | 0 <= i < j < |d| :: d[i].attempt < d[j].attempt
    ensures |d| <= bound
  {
    if d != [] {
      var init, last := d[..|d| - 1], d[|d| - 1].attempt;
      forall i | 0 <= i < |init| ensures init[i].attempt <= last - 1 {
        assert d[i].attempt < d[|d| - 1].attempt;
      }
      AtMost(init, last - 1);
    }
  }

  /** Delays of different attempts within a limit of one: there is at most one, of the initial length. */
  lemma FewDelays(d: seq<Delay>, p: Policy, last: int)
    requires Delays(d, p, last) && p.retryLimit <= 1 && p.jitter == 0
    ensures Total(d) <= p.initial * Pow2(|d|) - p.initial
  {
    if |d| > 0 {
      assert d[0].attempt == 1 && DelayOk(p, d[0]);
      AtMost(d, p.retryLimit);
      assert d[..0] == [] && Total(d) == Total(d[..0]) + d[0].seconds;
      assert Pow2(1) == 2 * Pow2(0) && Pow2(0) == 1;
      DoublePower(p.initial, 0);
    }
  }

  lemma BoundHolds(steps: seq<Step>, id: nat, p: Policy)
    requires p.jitter == 0 && (p.cap == p.initial || p.retryLimit <= 1)
    ensures BoundAt(steps, id, p)
  {
    Invariant(steps);
    var s := RunTo(steps);
    if id < |s.jobs| && s.jobs[id].policy == Some(p) {
      assert BudgetOk(s.jobs[id], s.history[id]);
      var d, last := s.history[id].delays, s.jobs[id].attempts - Open(s.jobs[id]);
      if p.retryLimit <= 1 {
        FewDelays(d, p, last);
      } else {
        TotalBound(d, p, last);
        PowerAboveCount(p.initial, |d|);
      }
    }
  }

  /** Without jitter and expiries the bound initial * (2^r - 1) holds of every run of a policy exactly
      when the cap is the initial delay or at most one retry is allowed. */
  lemma BackoffBoundExactly(p: Policy)
    requires p.jitter == 0
    ensures BoundAlways(p) <==> p.cap == p.initial || p.retryLimit <= 1
  {
    if p.cap == p.initial || p.retryLimit <= 1 {
      forall steps, id ensures BoundAt(steps, id, p) {
        BoundHolds(steps, id, p);
      }
    } else {
      assert "w"[0] != ' ';
      var steps := CooldownStretchesBackoff(p, "w");
    }
  }
}
