/** What every interleaving of requests, reconciliations, handlers and engine transactions keeps about
    executions, flows and their jobs. */
module CollectionRuns {
  import opened Options
  import opened Collection
  import I = Ingestion
  import J = JobEngine
  import W = JobWorkers

  /** `finished` holds the collection jobs whose handler has returned a success, in the past. */
  datatype System = System(world: World, finished: set<nat>)

  datatype Step =
    | AddCompany(company: string)
    | SetEnabled(key: FlowKey, enabled: bool)
    | Requesting(command: Command)
    | Reconciling(job: nat, attempts: nat, kind: J.Kind, report: Report, now: int)
    | Handling(job: nat, attempts: nat, plan: Planned, now: int, later: int)
    | Engine(op: J.Op)

  predicate IsCollection(jobs: J.Jobs, id: nat) {
    id < |jobs| && jobs[id].jobType == COLLECTION
  }

  /** Keys of collection jobs are made only by requests. */
  predicate Foreign(key: string) {
    !("collection:" <= key)
  }

  /** Other code enqueues jobs of its own types and keys, and a collection job is completed only after its
      handler returned a success; `CollectionLaws.WorkerIsPermitted` shows that workers do no more.
      Everything else the engine can do is allowed at any moment. */
  predicate Permitted(s: System, op: J.Op) {
    match op
    case DoEnqueue(r, _) => r.jobType != COLLECTION && Foreign(r.key)
    case DoComplete(id, _, _, _, _) => !IsCollection(s.world.jobs, id)
    case DoWrite(id, _, c) => IsCollection(s.world.jobs, id) && c.decision == J.Done ==> id in s.finished
    case _ => true
  }

  const IDLE := Flow(true, None, None, None, None, None, None, "", "")

  function WithCompany(flows: Flows, company: string): Flows {
    var (a, b) := (FlowKey(company, Nfe), FlowKey(company, Nfse));
    if a in flows || b in flows then flows else flows[a := IDLE][b := IDLE]
  }

  function Next(s: System, step: Step): System {
    var w := s.world;
    match step
    case AddCompany(c) => s.(world := w.(flows := WithCompany(w.flows, c)))
    case SetEnabled(k, on) => if k in w.flows then s.(world := w.(flows := w.flows[k := w.flows[k].(enabled := on)])) else s
    case Requesting(c) => s.(world := Request(w, c).0)
    case Reconciling(job, attempts, kind, report, now) => s.(world := Reconcile(w, job, attempts, kind, report, now))
    case Handling(job, attempts, plan, now, later) =>
      var (t, o) := Handle(w, job, attempts, plan, now, later);
      System(t, if o.Some? && o.value.kind == J.Success then s.finished + {job} else s.finished)
    case Engine(op) => if Permitted(s, op) then s.(world := w.(jobs := J.Apply(w.jobs, op))) else s
  }

  function RunTo(s: System, steps: seq<Step>): System {
    if steps == [] then s else Next(RunTo(s, steps[..|steps| - 1]), steps[|steps| - 1])
  }

  const START := System(World(map[], [], []), {})

  // ---------- the invariant ----------

  /** A flow's pointer names the active execution of its company and family and shows its state. */
  predicate FlowOk(k: FlowKey, flow: Flow, execs: seq<Execution>) {
    flow.active.Some? ==>
      && flow.active.value < |execs| && execs[flow.active.value].key == k && Active(execs[flow.active.value].state)
      && flow.state == Some(execs[flow.active.value].state)
  }

  predicate Indexed(e: nat, execs: seq<Execution>, flows: Flows)
    requires e < |execs|
  {
    Active(execs[e].state) ==> execs[e].key in flows && flows[execs[e].key].active == Some(e)
  }

  ghost predicate IndexOk(flows: Flows, execs: seq<Execution>) {
    && (forall k | k in flows :: FlowOk(k, flows[k], execs))
    && (forall e | 0 <= e < |execs| :: Indexed(e, execs, flows))
  }

  /** An execution has its own job, made for it, under its policy. */
  predicate JobOk(e: nat, x: Execution, jobs: J.Jobs) {
    && x.job < |jobs| && jobs[x.job].jobType == COLLECTION && jobs[x.job].key == JobKey(e)
    && x.policy.Some? && jobs[x.job].policy == x.policy
    && (jobs[x.job].state == J.Completed ==> Terminal(x.state))
    && x.state != Running && x.state != Failed
  }

  predicate JobKeyOk(j: J.Job, count: nat) {
    (j.jobType == COLLECTION || !Foreign(j.key)) ==> exists e: nat :: e < count && j.key == JobKey(e)
  }

  predicate FinishedOk(job: nat, execs: seq<Execution>) {
    exists e | 0 <= e < |execs| :: execs[e].job == job && Terminal(execs[e].state)
  }

  ghost predicate JobsOk(execs: seq<Execution>, jobs: J.Jobs) {
    && (forall e | 0 <= e < |execs| :: JobOk(e, execs[e], jobs))
    && (forall i | 0 <= i < |jobs| :: JobKeyOk(jobs[i], |execs|))
  }

  ghost predicate Inv(s: System) {
    && J.Good(s.world.jobs)
    && IndexOk(s.world.flows, s.world.execs)
    && JobsOk(s.world.execs, s.world.jobs)
    && (forall job | job in s.finished :: FinishedOk(job, s.world.execs))
  }

  // ---------- keys ----------

  lemma JobKeyInjective(a: nat, b: nat)
    requires JobKey(a) == JobKey(b)
    ensures a == b
  {
    assert JobKey(a)[|"collection:"|..] == I.Decimal(a);
    assert JobKey(b)[|"collection:"|..] == I.Decimal(b);
    I.DecimalRoundTrip(a);
    I.DecimalRoundTrip(b);
  }

  lemma JobKeyNotForeign(e: nat)
    ensures !Foreign(JobKey(e))
  {
    assert JobKey(e)[..|"collection:"|] == "collection:";
  }

  lemma SameJobSameExec(execs: seq<Execution>, jobs: J.Jobs, a: nat, b: nat)
    requires a < |execs| && b < |execs| && JobOk(a, execs[a], jobs) && JobOk(b, execs[b], jobs)
    requires execs[a].job == execs[b].job
    ensures a == b
  {
    JobKeyInjective(a, b);
  }

  // ---------- what each step keeps ----------

  /** Terminal executions never change, and nothing about an execution but its progress does. */
  predicate ExecAges(a: Execution, b: Execution) {
    && b.key == a.key && b.job == a.job && b.policy == a.policy && b.scope == a.scope && b.origin == a.origin
        && b.retryOf == a.retryOf
    && (Terminal(a.state) ==> b == a)
  }

  ghost predicate ExecsAge(a: seq<Execution>, b: seq<Execution>) {
    |a| <= |b| && forall e | 0 <= e < |a| :: ExecAges(a[e], b[e])
  }

  lemma FinishedStays(finished: set<nat>, a: seq<Execution>, b: seq<Execution>)
    requires ExecsAge(a, b) && forall job | job in finished :: FinishedOk(job, a)
    ensures forall job | job in finished :: FinishedOk(job, b)
  {
    forall job | job in finished ensures FinishedOk(job, b) {
      var e :| 0 <= e < |a| && a[e].job == job && Terminal(a[e].state);
      assert ExecAges(a[e], b[e]);
    }
  }

  lemma EngineKeeps(s: System, op: J.Op)
    requires Inv(s) && Permitted(s, op)
    ensures J.Good(J.Apply(s.world.jobs, op)) && JobsOk(s.world.execs, J.Apply(s.world.jobs, op))
  {
    var execs, jobs, t := s.world.execs, s.world.jobs, J.Apply(s.world.jobs, op);
    J.ApplyKeeps(jobs, op);
    forall e | 0 <= e < |execs| ensures JobOk(e, execs[e], t) {
      assert JobOk(e, execs[e], jobs) && J.Ages(jobs[execs[e].job], t[execs[e].job]);
      CompletionIsFinished(s, op, e);
    }
    forall i | 0 <= i < |t| ensures JobKeyOk(t[i], |execs|) {
      if i < |jobs| {
        assert JobKeyOk(jobs[i], |execs|) && J.Ages(jobs[i], t[i]);
      } else {
        J.NewRow(jobs, op);
      }
    }
  }

  lemma CompletionIsFinished(s: System, op: J.Op, e: nat)
    requires Inv(s) && Permitted(s, op) && e < |s.world.execs|
    requires s.world.execs[e].job < |J.Apply(s.world.jobs, op)|
    ensures J.Apply(s.world.jobs, op)[s.world.execs[e].job].state == J.Completed ==> Terminal(s.world.execs[e].state)
  {
    var execs, jobs, job := s.world.execs, s.world.jobs, s.world.execs[e].job;
    assert JobOk(e, execs[e], jobs);
    if J.Apply(jobs, op)[job].state == J.Completed && jobs[job].state != J.Completed {
      J.CompletedBy(jobs, op, job);
      assert FinishedOk(job, execs);
      var f :| 0 <= f < |execs| && execs[f].job == job && Terminal(execs[f].state);
      assert JobOk(f, execs[f], jobs);
      SameJobSameExec(execs, jobs, e, f);
    }
  }

  lemma ReconcileKeeps(w: World, job: nat, attempts: nat, kind: J.Kind, r: Report, now: int)
    requires IndexOk(w.flows, w.execs) && JobsOk(w.execs, w.jobs)
    ensures var t := Reconcile(w, job, attempts, kind, r, now);
            IndexOk(t.flows, t.execs) && JobsOk(t.execs, t.jobs) && ExecsAge(w.execs, t.execs) && t.jobs == w.jobs
  {
    hide Reconciled, FlowAfter, IndexOk, JobsOk;
    match ExecOf(w.execs, job)
    case None =>
    case Some(e) =>
      var x := w.execs[e];
      if x.key in w.flows && !Terminal(x.state) {
        ProgressOf(w, e, attempts, kind, r, now);
        var y := Reconciled(x, attempts, kind, r, now);
        SetExec(w, e, y, FlowAfter(w.flows[x.key], y, kind, now));
      }
  }

  lemma ProgressOf(w: World, e: nat, attempts: nat, kind: J.Kind, r: Report, now: int)
    requires IndexOk(w.flows, w.execs) && JobsOk(w.execs, w.jobs) && e < |w.execs|
    requires w.execs[e].key in w.flows && !Terminal(w.execs[e].state)
    ensures var x := w.execs[e];
            var y := Reconciled(x, attempts, kind, r, now);
            var flow := FlowAfter(w.flows[x.key], y, kind, now);
            && Active(x.state) && ExecAges(x, y)
            && (Active(y.state) || Terminal(y.state)) && y.state != Running && y.state != Failed
            && flow.state == Some(y.state) && flow.active == if Terminal(y.state) then None else Some(e)
  {
    assert Indexed(e, w.execs, w.flows) && JobOk(e, w.execs[e], w.jobs);
  }

  /** The active execution of a flow moves to another state, and its flow with it. */
  lemma SetExec(w: World, e: nat, y: Execution, flow: Flow)
    requires IndexOk(w.flows, w.execs) && JobsOk(w.execs, w.jobs) && e < |w.execs| && Active(w.execs[e].state)
    requires ExecAges(w.execs[e], y) && (Active(y.state) || Terminal(y.state)) && y.state != Running && y.state != Failed
    requires flow.state == Some(y.state) && flow.active == if Terminal(y.state) then None else Some(e)
    ensures var execs, flows := w.execs[e := y], w.flows[y.key := flow];
            IndexOk(flows, execs) && JobsOk(execs, w.jobs) && ExecsAge(w.execs, execs)
  {
    var execs, flows := w.execs[e := y], w.flows[y.key := flow];
    assert Indexed(e, w.execs, w.flows) && JobOk(e, w.execs[e], w.jobs);
    forall k | k in flows ensures FlowOk(k, flows[k], execs) {
      if k != y.key {
        assert FlowOk(k, w.flows[k], w.execs);
      }
    }
    forall d | 0 <= d < |execs| ensures Indexed(d, execs, flows) {
      assert Indexed(d, w.execs, w.flows);
    }
    forall d | 0 <= d < |execs| ensures JobOk(d, execs[d], w.jobs) {
      assert JobOk(d, w.execs[d], w.jobs);
    }
    SameCount(w.execs, execs, w.jobs);
  }

  lemma SameCount(a: seq<Execution>, b: seq<Execution>, jobs: J.Jobs)
    requires |a| == |b| && forall i | 0 <= i < |jobs| :: JobKeyOk(jobs[i], |a|)
    ensures forall i | 0 <= i < |jobs| :: JobKeyOk(jobs[i], |b|)
  {
  }

  /** In a good state a request finds its job key free and no other active execution: it creates. */
  lemma CreateForKeeps(w: World, c: Command, f: Family)
    requires J.Good(w.jobs) && IndexOk(w.flows, w.execs) && JobsOk(w.execs, w.jobs)
    requires FlowKey(c.company, f) in w.flows && PolicyFor(c, f).Some? && f in Families(c.scope)
    requires w.flows[FlowKey(c.company, f)].active.None?
    ensures var t, key := CreateFor(w, c, f), FlowKey(c.company, f);
            && t.Ok? && |t.value.execs| == |w.execs| + 1 && t.value.execs[..|w.execs|] == w.execs
            && CreatedFor(w, c, t.value, f, |w.execs|, |w.jobs|)
            && t.value.flows == w.flows[key := t.value.flows[key]]
            && |t.value.jobs| == |w.jobs| + 1 && t.value.jobs[..|w.jobs|] == w.jobs
            && J.Good(t.value.jobs) && IndexOk(t.value.flows, t.value.execs) && JobsOk(t.value.execs, t.value.jobs)
            && J.AllAge(w.jobs, t.value.jobs)
  {
    var key, e, p := FlowKey(c.company, f), |w.execs|, PolicyFor(c, f).value;
    forall d | 0 <= d < |w.execs| && w.execs[d].key == key ensures !Active(w.execs[d].state) {
      assert Indexed(d, w.execs, w.flows);
    }
    var r := JobRequest(c, f, e, p);
    KeyIsFree(w, e);
    J.EnqueueKeeps(w.jobs, r, c.now);
    assert J.Enqueue(w.jobs, r, c.now) == (w.jobs + [J.NewJob(r, c.now)], Ok(|w.jobs|));
    Append(w, NewExecution(w, c, f, p, |w.jobs|), Started(w.flows[key], e, c.now), J.NewJob(r, c.now));
  }

  lemma KeyIsFree(w: World, e: nat)
    requires JobsOk(w.execs, w.jobs) && e == |w.execs|
    ensures J.ActiveFor(w.jobs, JobKey(e)).None? && !J.Taken(w.jobs, JobKey(e))
  {
    forall i | 0 <= i < |w.jobs| ensures w.jobs[i].key != JobKey(e) {
      assert JobKeyOk(w.jobs[i], |w.execs|);
      if w.jobs[i].key == JobKey(e) {
        JobKeyNotForeign(e);
        var d: nat :| d < |w.execs| && w.jobs[i].key == JobKey(d);
        JobKeyInjective(d, e);
      }
    }
  }

  lemma Append(w: World, x: Execution, flow: Flow, job: J.Job)
    requires IndexOk(w.flows, w.execs) && JobsOk(w.execs, w.jobs)
    requires x.key in w.flows && w.flows[x.key].active.None? && x.state == Queued && x.job == |w.jobs| && x.policy.Some?
    requires flow.active == Some(|w.execs|) && flow.state == Some(Queued)
    requires job.key == JobKey(|w.execs|) && job.jobType == COLLECTION && job.policy == x.policy && job.state == J.Queued
    ensures IndexOk(w.flows[x.key := flow], w.execs + [x]) && JobsOk(w.execs + [x], w.jobs + [job])
  {
    var execs, flows, jobs := w.execs + [x], w.flows[x.key := flow], w.jobs + [job];
    forall k | k in flows ensures FlowOk(k, flows[k], execs) {
      if k != x.key {
        assert FlowOk(k, w.flows[k], w.execs);
      }
    }
    forall d | 0 <= d < |execs| ensures Indexed(d, execs, flows) && JobOk(d, execs[d], jobs) {
      if d < |w.execs| {
        assert Indexed(d, w.execs, w.flows) && JobOk(d, w.execs[d], w.jobs);
      }
    }
    forall i | 0 <= i < |jobs| ensures JobKeyOk(jobs[i], |execs|) {
      if i < |w.jobs| {
        assert JobKeyOk(w.jobs[i], |w.execs|);
      } else {
        assert jobs[i].key == JobKey(|w.execs|);
      }
    }
  }

  /** Without an active execution nothing is stale, so nothing is cleared. */
  lemma {:induction false} NothingStale(w: World, company: string, families: seq<Family>)
    requires IndexOk(w.flows, w.execs) && forall f | f in families :: FlowKey(company, f) in w.flows
    ensures ActiveOf(w, company, families).0 == w.flows
    ensures ActiveOf(w, company, families).1 == [] <==> forall f | f in families :: w.flows[FlowKey(company, f)].active.None?
  {
    if families != [] {
      var init, last := families[..|families| - 1], families[|families| - 1];
      assert families == init + [last];
      NothingStale(w, company, init);
      assert FlowOk(FlowKey(company, last), w.flows[FlowKey(company, last)], w.execs);
    }
  }

  /** One new queued execution for each family of the command, and nothing else but their flows and jobs. */
  ghost predicate Begun(w: World, c: Command, t: World) {
    && OthersKept(w, c, t)
    && |t.execs| == |w.execs| + |Families(c.scope)| && t.execs[..|w.execs|] == w.execs
    && |t.jobs| == |w.jobs| + |Families(c.scope)| && t.jobs[..|w.jobs|] == w.jobs
    && forall i | 0 <= i < |Families(c.scope)| :: BegunAt(w, c, t, i)
  }

  predicate BegunAt(w: World, c: Command, t: World, i: nat)
    requires i < |Families(c.scope)| && |t.execs| == |w.execs| + |Families(c.scope)|
  {
    CreatedFor(w, c, t, Families(c.scope)[i], |w.execs| + i, |w.jobs| + i)
  }

  /** A queued execution that has not started, on its flow and with its job, all under the policy in force. */
  predicate CreatedFor(w: World, c: Command, t: World, f: Family, e: nat, job: nat)
    requires f in Families(c.scope)
  {
    var key := FlowKey(c.company, f);
    && e < |t.execs| && job < |t.jobs| && key in w.flows && key in t.flows && f in c.policies
    && t.execs[e] == Execution(key, c.scope, c.origin, t.execs[e].retryOf, Some(c.policies[f]), job,
                               Queued, I.Outcome.Unknown, I.NoAction, Report(false, 0, None, None), "", None, None)
    && (t.execs[e].retryOf.Some? ==> c.origin == Retry)
    && t.flows[key] == Flow(w.flows[key].enabled, Some(Queued), Some(e), Some(c.now), w.flows[key].lastSuccessAt,
        Some(c.now), None, "", "")
    && t.jobs[job] == J.Job(
         "collection.synthetic", "company:" + c.company + ":flow:" + (if f == Nfe then "nfe" else "nfse"),
         map["execution_id" := J.Text(I.Decimal(e)), "company_id" := J.Text(c.company),
             "family" := J.Text(if f == Nfe then "nfe" else "nfse"),
             "scope" := J.Text(if c.scope == Complete then "completa" else if f == Nfe then "nfe" else "nfse"),
             "origin" := J.Text(if c.origin == Automatic then "automatica" else if c.origin == Manual then "manual" else "retry"),
             "outcome" := J.Text("valid_empty")],
         0, "collection:" + I.Decimal(e), Some(c.policies[f]), c.now, 0, J.Queued, None,
         None, "", None, None, None, "", None)
  }

  predicate Startable(w: World, c: Command, f: Family) {
    && FlowKey(c.company, f) in w.flows && PolicyFor(c, f).Some?
    && w.flows[FlowKey(c.company, f)].active.None? && w.flows[FlowKey(c.company, f)].state != Some(Blocked)
  }

  /** What a request leaves: an execution for every family of its scope, each flow being free and not
      blocked, or nothing at all. */
  ghost predicate AllOrNothing(w: World, c: Command, t: World, a: Answer) {
    match a
    case Rejected(e) => t == w && e != ConcurrentRequest && e != JobRefused
    case Duplicate(active) => t == w && active != []
    case Created(ids) =>
      && ids == Fresh(|w.execs|, |Families(c.scope)|) && Begun(w, c, t)
      && forall f | f in Families(c.scope) :: Startable(w, c, f)
  }

  ghost predicate OthersKept(w: World, c: Command, t: World) {
    && t.flows.Keys == w.flows.Keys && J.AllAge(w.jobs, t.jobs)
    && forall k | k in w.flows && (k.company != c.company || k.family !in Families(c.scope)) :: t.flows[k] == w.flows[k]
  }

  ghost predicate WorldOk(w: World) {
    J.Good(w.jobs) && IndexOk(w.flows, w.execs) && JobsOk(w.execs, w.jobs)
  }

  lemma CreateOne(w: World, c: Command, f: Family)
    requires WorldOk(w) && Startable(w, c, f) && f in Families(c.scope)
    ensures var t := CreateFor(w, c, f);
            && t.Ok? && WorldOk(t.value) && J.AllAge(w.jobs, t.value.jobs)
            && |t.value.execs| == |w.execs| + 1 && t.value.execs[..|w.execs|] == w.execs
            && CreatedFor(w, c, t.value, f, |w.execs|, |w.jobs|)
            && |t.value.jobs| == |w.jobs| + 1 && t.value.jobs[..|w.jobs|] == w.jobs
            && t.value.flows.Keys == w.flows.Keys
            && forall k | k in w.flows && k != FlowKey(c.company, f) :: t.value.flows[k] == w.flows[k]
  {
    CreateForKeeps(w, c, f);
  }

  lemma CreateBoth(w: World, c: Command)
    requires WorldOk(w) && c.scope == Complete && Startable(w, c, Nfe) && Startable(w, c, Nfse)
    ensures var t := CreateFor(w, c, Nfe);
            t.Ok? && FlowKey(c.company, Nfse) in t.value.flows &&
            var u := CreateFor(t.value, c, Nfse); u.Ok? && WorldOk(u.value) && Begun(w, c, u.value)
  {
    hide WorldOk, CreateFor, J.AllAge;
    CreateOne(w, c, Nfe);
    var t := CreateFor(w, c, Nfe).value;
    CreateOne(t, c, Nfse);
    var u := CreateFor(t, c, Nfse).value;
    J.AgesTransitive(w.jobs, t.jobs, u.jobs);
    assert u.execs[..|w.execs|] == u.execs[..|t.execs|][..|w.execs|];
    assert u.execs[|w.execs|] == u.execs[..|t.execs|][|w.execs|];
    assert u.jobs[..|w.jobs|] == u.jobs[..|t.jobs|][..|w.jobs|];
    assert u.jobs[|w.jobs|] == u.jobs[..|t.jobs|][|w.jobs|];
    assert BegunAt(w, c, u, 0) && BegunAt(w, c, u, 1);
  }

  lemma CreateAllKeeps(w: World, c: Command, families: seq<Family>)
    requires WorldOk(w) && families == Families(c.scope)
    requires forall f | f in families :: FlowKey(c.company, f) in w.flows && PolicyFor(c, f).Some? && Startable(w, c, f)
    ensures var t := CreateAll(w, c, families); t.Ok? && WorldOk(t.value) && Begun(w, c, t.value)
  {
    hide WorldOk, CreateFor;
    match c.scope
    case Only(f) =>
      assert f in families;
      CreateOne(w, c, f);
      AllOne(w, c, [f]);
      assert BegunAt(w, c, CreateFor(w, c, f).value, 0);
    case Complete =>
      assert Nfe in families && Nfse in families;
      CreateBoth(w, c);
      AllOne(w, c, [Nfe]);
      assert [Nfe, Nfse][..1] == [Nfe];
  }

  lemma AllOne(w: World, c: Command, families: seq<Family>)
    requires |families| == 1 && FlowKey(c.company, families[0]) in w.flows && PolicyFor(c, families[0]).Some?
    ensures CreateAll(w, c, families) == CreateFor(w, c, families[0])
  {
    assert families[..0] == [];
  }

  lemma MeansOk(w: World)
    requires J.Good(w.jobs) && IndexOk(w.flows, w.execs) && JobsOk(w.execs, w.jobs)
    ensures WorldOk(w)
  {}

  /** A request creates one execution for every family of its scope, or changes nothing. */
  lemma RequestKeeps(w: World, c: Command)
    requires WorldOk(w)
    ensures WorldOk(Request(w, c).0) && ExecsAge(w.execs, Request(w, c).0.execs)
    ensures AllOrNothing(w, c, Request(w, c).0, Request(w, c).1)
  {
    hide CreateAll, ActiveOf, FirstRefusal, IndexOk, JobsOk;
    var families := Families(c.scope);
    if c.allowed && c.companyActive && c.certificateUsable && forall f | f in families :: FlowKey(c.company, f) in w.flows {
      NothingStale(w, c.company, families);
      assert w.(flows := w.flows) == w;
      if ActiveOf(w, c.company, families).1 == [] && FirstRefusal(w.flows, c, families).None? && RetryOk(w, c) {
        forall f | f in families ensures Startable(w, c, f) {
          assert FlowRefusal(w.flows[FlowKey(c.company, f)], c, f).None?;
        }
        CreateAllKeeps(w, c, families);
        var t := CreateAll(w, c, families).value;
        assert Request(w, c) == (t, Created(Fresh(|w.execs|, |families|)));
        forall e | 0 <= e < |w.execs| ensures ExecAges(w.execs[e], t.execs[e]) {
          assert t.execs[e] == t.execs[..|w.execs|][e];
        }
      }
    }
  }

  lemma HandleKeeps(w: World, job: nat, attempts: nat, plan: Planned, now: int, later: int)
    requires WorldOk(w)
    ensures var (t, o) := Handle(w, job, attempts, plan, now, later);
            && WorldOk(t) && ExecsAge(w.execs, t.execs)
            && (o.Some? && o.value.kind == J.Success ==> FinishedOk(job, t.execs))
  {
    match ExecOf(w.execs, job)
    case None =>
    case Some(e) =>
      if Terminal(w.execs[e].state) {
        assert FinishedOk(job, w.execs);
      } else {
        var (o, r) := Classified(plan, now);
        ReconcileKeeps(w, job, attempts, o.kind, r, later);
        if w.execs[e].key in w.flows && o.kind == J.Success {
          assert FinishedOk(job, Reconcile(w, job, attempts, o.kind, r, later).execs);
        }
      }
  }

  lemma FlowsOnly(w: World, flows: Flows)
    requires IndexOk(w.flows, w.execs)
    requires w.flows.Keys <= flows.Keys
    requires forall k | k in w.flows :: flows[k].active == w.flows[k].active && flows[k].state == w.flows[k].state
    requires forall k | k in flows && k !in w.flows :: flows[k].active.None?
    ensures IndexOk(flows, w.execs)
  {
    forall k | k in flows ensures FlowOk(k, flows[k], w.execs) {
      if k in w.flows {
        assert FlowOk(k, w.flows[k], w.execs);
      }
    }
    forall e | 0 <= e < |w.execs| ensures Indexed(e, w.execs, flows) {
      assert Indexed(e, w.execs, w.flows);
    }
  }

  lemma StepKeeps(s: System, step: Step)
    requires Inv(s)
    ensures Inv(Next(s, step)) && ExecsAge(s.world.execs, Next(s, step).world.execs)
  {
    hide IndexOk, JobsOk, J.Good, Handle, Reconcile, Request, J.Apply;
    var w, t := s.world, Next(s, step);
    MeansOk(w);
    match step {
      case AddCompany(c) => FlowsOnly(w, t.world.flows);
      case SetEnabled(k, on) => FlowsOnly(w, t.world.flows);
      case Requesting(c) => RequestKeeps(w, c);
      case Reconciling(job, attempts, kind, report, now) => ReconcileKeeps(w, job, attempts, kind, report, now);
      case Handling(job, attempts, plan, now, later) => HandleKeeps(w, job, attempts, plan, now, later);
      case Engine(op) => if Permitted(s, op) { EngineKeeps(s, op); }
    }
    FinishedStays(s.finished, w.execs, t.world.execs);
  }

  lemma {:induction false} RunKeeps(s: System, steps: seq<Step>)
    requires Inv(s)
    ensures Inv(RunTo(s, steps)) && ExecsAge(s.world.execs, RunTo(s, steps).world.execs)
  {
    if steps != [] {
      var before := RunTo(s, steps[..|steps| - 1]);
      RunKeeps(s, steps[..|steps| - 1]);
      StepKeeps(before, steps[|steps| - 1]);
      ExecsAgeTransitive(s.world.execs, before.world.execs, RunTo(s, steps).world.execs);
    }
  }

  lemma ExecsAgeTransitive(a: seq<Execution>, b: seq<Execution>, c: seq<Execution>)
    requires ExecsAge(a, b) && ExecsAge(b, c)
    ensures ExecsAge(a, c)
  {
    forall e | 0 <= e < |a| ensures ExecAges(a[e], c[e]) {
      assert ExecAges(a[e], b[e]) && ExecAges(b[e], c[e]);
    }
  }
}
