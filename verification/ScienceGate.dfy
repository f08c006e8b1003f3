/** The Ciência to complete-XML gate of the NF-e follow-up: two kinds of job on the engine, their
    handlers, and the evidence the second attaches. */
module ScienceGate {
  import opened Options
  import J = JobEngine
  import A = Artifacts
  import E = EvidenceStore

  const SCIENCE := "nfe.science"
  const XML := "nfe.complete_xml"

  const DOCUMENT := "document_id"
  const CORRELATION := "correlation_id"
  const SCIENCE_JOB := "science_job_id"
  const PERMITTED := "retrieval_permitted"

  datatype Outcome = Success | Cooldown | Unavailable | Timeout | Blocked | Other(name: string)

  /** What the adapter answered, or the follow-up error it raised. */
  datatype Reply =
    | Raised
    | Reply(outcome: Outcome, permitted: bool, reason: string, cooldownUntil: Option<int>)

  /** A result object with permission but without success cannot be built. */
  predicate Consistent(r: Reply) {
    r.Reply? && r.permitted ==> r.outcome == Success
  }

  datatype Attachment = Attachment(document: string, artifact: nat, job: nat, science: nat)

  /** A running XML handler that has passed its check, and for which document and science job. */
  datatype Pass = Pass(job: nat, document: string, science: nat)

  datatype Answer = Answer(job: nat, outcome: J.HandlerOutcome)

  /** `answers` and `passes` are what running handlers hold; `granted` the science jobs the adapter
      answered with permission, `attached` the evidence rows XML handlers inserted. */
  datatype Gate = Gate(
    jobs: J.Jobs, docs: E.Store, rows: A.Rows,
    answers: set<Answer>, passes: set<Pass>, granted: set<nat>, attached: seq<Attachment>)

  function Field(m: J.SafeMap, name: string): Option<J.Value> {
    if name in m then Some(m[name]) else None
  }

  predicate Truthy(v: Option<J.Value>) {
    match v
    case None => false
    case Some(Null) => false
    case Some(Flag(b)) => b
    case Some(Number(n)) => n != 0
    case Some(Text(t)) => t != ""
  }

  function OutcomeName(o: Outcome): string {
    match o
    case Success => "success" case Cooldown => "cooldown" case Unavailable => "unavailable"
    case Timeout => "timeout" case Blocked => "blocked" case Other(name) => name
  }

  /** `as_job_outcome`. */
  function AsJobOutcome(r: Reply, document: string): J.HandlerOutcome
    requires r.Reply?
  {
    var result := map[DOCUMENT := J.Text(document), "outcome" := J.Text(OutcomeName(r.outcome)), PERMITTED := J.Flag(r.permitted)];
    match r.outcome
    case Success => J.HandlerOutcome(J.Success, result, "", None)
    case Cooldown => J.HandlerOutcome(J.Kind.Cooldown, result, r.reason, r.cooldownUntil)
    case Unavailable | Timeout => J.HandlerOutcome(J.Temporary, result, r.reason, None)
    case Blocked => J.HandlerOutcome(J.Permanent, result, r.reason, None)
    case Other(_) => J.HandlerOutcome(J.Partial, result, r.reason, None)
  }

  /** The job outcome of an answer: success exactly for success, permanent exactly for blocked, permission
      carried over as it was given, and given only with success. */
  lemma AnswerCarriesPermission(r: Reply, document: string)
    requires Consistent(r) && r.Reply?
    ensures var o := AsJobOutcome(r, document);
            && (o.kind == J.Success <==> r.outcome == Success)
            && (o.kind == J.Permanent <==> r.outcome == Blocked)
            && (Truthy(Field(o.result, PERMITTED)) <==> r.permitted)
            && (r.permitted ==> o.kind == J.Success)
            && Field(o.result, DOCUMENT) == Some(J.Text(document))
  {
  }

  /** The rest of the job outcome: a cooldown takes the answer's deadline, a missing or slow service is tried
      again, everything but a success carries the answer's reason. */
  lemma AnswerExactly(r: Reply, document: string)
    requires r.Reply?
    ensures var o := AsJobOutcome(r, document);
            && (o.kind == J.Kind.Cooldown <==> r.outcome == Cooldown)
            && (o.kind == J.Temporary <==> r.outcome == Unavailable || r.outcome == Timeout)
            && (o.kind == J.Kind.Partial <==> r.outcome.Other?)
            && o.cooldownUntil == (if r.outcome == Cooldown then r.cooldownUntil else None)
            && o.errorCode == (if r.outcome == Success then "" else r.reason)
            && o.result == map["document_id" := J.Text(document), "retrieval_permitted" := J.Flag(r.permitted),
                               "outcome" := J.Text(match r.outcome
                                                   case Success => "success" case Cooldown => "cooldown" case Unavailable => "unavailable"
                                                   case Timeout => "timeout" case Blocked => "blocked" case Other(name) => name)]
  {
  }

  function ScienceRequest(document: string, intent: string, correlation: string, policy: J.Policy, now: int): J.Request {
    J.Request(SCIENCE, "document:" + document,
              map["operation" := J.Text("science"), DOCUMENT := J.Text(document), CORRELATION := J.Text(correlation),
                  "intent" := J.Text(intent)],
              "nfe:science:" + document + ":" + intent + ":" + correlation, 0, Some(now), Some(policy))
  }

  function XmlRequest(science: nat, document: string, correlation: string, policy: Option<J.Policy>): J.Request {
    J.Request(XML, "document:" + document,
              map["operation" := J.Text("complete_xml"), DOCUMENT := J.Text(document), CORRELATION := J.Text("xml:" + correlation),
                  "science_correlation_id" := J.Text(correlation), SCIENCE_JOB := J.Number(science)],
              "nfe:xml:" + document + ":" + correlation, 0, None, policy)
  }

  /** `handle_science_job`; `None` is an exception that leaves the handler. */
  function HandleScience(jobs: J.Jobs, id: nat, reply: Reply, now: int): (J.Jobs, Option<J.HandlerOutcome>)
    requires id < |jobs|
  {
    var payload := jobs[id].payload;
    match (Field(payload, DOCUMENT), Field(payload, CORRELATION))
    case (Some(Text(document)), Some(Text(correlation))) =>
      if reply.Raised? then (jobs, Some(J.HandlerOutcome(J.Permanent, map[], "followup_rejected", None)))
      else
        var classified := AsJobOutcome(reply, document);
        if !(reply.permitted && classified.kind == J.Success) then (jobs, Some(classified))
        else
          (match J.Enqueue(jobs, XmlRequest(id, document, correlation, jobs[id].policy), now)
           case (after, Ok(xml)) => (after, Some(classified.(result := classified.result["followup_job_id" := J.Number(xml)])))
           case (after, Err(_)) => (after, None))
    case _ => (jobs, None)
  }

  /** The check at the start of `handle_xml_job`: the science job it names, when that job is completed
      with permission. */
  function Checked(jobs: J.Jobs, id: nat): Option<Pass>
    requires id < |jobs|
  {
    var payload := jobs[id].payload;
    match (Field(payload, SCIENCE_JOB), Field(payload, DOCUMENT))
    case (Some(Number(science)), Some(Text(document))) =>
      if 0 <= science < |jobs| && Permits(jobs[science]) then Some(Pass(id, document, science)) else None
    case _ => None
  }

  predicate Permits(science: J.Job) {
    science.state == J.Completed && science.result.Some? && Truthy(Field(science.result.value, PERMITTED))
  }

  // ---------- runs ----------

  datatype Step =
    | EnqueueingScience(document: string, intent: string, correlation: string, policy: J.Policy, now: int)
    | HandlingScience(job: nat, reply: Reply, now: int)
    | CheckingXml(job: nat)
    | AttachingXml(pass: Pass, artifact: nat)
    | Persisting(input: E.Input)
    | Attaching(document: string, artifact: nat)
    | Storing(change: A.Op)
    | Engine(op: J.Op)

  predicate IsScience(jobs: J.Jobs, id: nat) {
    id < |jobs| && jobs[id].jobType == SCIENCE
  }

  /** Other code enqueues other job types, and a science job is completed only with a success its handler
      answered; `FollowUp.WorkerIsPermitted` shows that workers do no more. XML jobs may end in any way. */
  predicate Permitted(g: Gate, op: J.Op) {
    match op
    case DoEnqueue(r, _) => r.jobType != SCIENCE && r.jobType != XML
    case DoComplete(id, _, _, _, _) => !IsScience(g.jobs, id)
    case DoWrite(id, _, c) =>
      IsScience(g.jobs, id) && c.decision == J.Done ==> exists a | a in g.answers :: AnswerFor(a, id, c)
    case _ => true
  }

  predicate AnswerFor(a: Answer, id: nat, c: J.Change) {
    a.job == id && a.outcome.kind == J.Success && a.outcome.result == c.result
  }

  function Next(g: Gate, step: Step): Gate {
    match step
    case EnqueueingScience(document, intent, correlation, policy, now) =>
      g.(jobs := J.Enqueue(g.jobs, ScienceRequest(document, intent, correlation, policy, now), now).0)
    case HandlingScience(id, reply, now) =>
      if id < |g.jobs| && g.jobs[id].jobType == SCIENCE && Consistent(reply) then
        var (jobs, o) := HandleScience(g.jobs, id, reply, now);
        g.(jobs := jobs,
           answers := if o.Some? then g.answers + {Answer(id, o.value)} else g.answers,
           granted := if reply.Reply? && reply.permitted then g.granted + {id} else g.granted)
      else g
    case CheckingXml(id) =>
      if id < |g.jobs| && g.jobs[id].jobType == XML && Checked(g.jobs, id).Some?
      then g.(passes := g.passes + {Checked(g.jobs, id).value}) else g
    case AttachingXml(pass, artifact) =>
      if pass in g.passes then
        var (docs, status) := E.Attach(g.docs, g.rows, pass.document, artifact);
        g.(docs := docs,
           attached := if status == Some(E.Persisted)
                       then g.attached + [Attachment(pass.document, artifact, pass.job, pass.science)] else g.attached)
      else g
    case Persisting(d) => g.(docs := E.Persist(g.docs, g.rows, d).0)
    case Attaching(document, artifact) => g.(docs := E.Attach(g.docs, g.rows, document, artifact).0)
    case Storing(op) => g.(rows := A.Apply(g.rows, op))
    case Engine(op) => if Permitted(g, op) then g.(jobs := J.Apply(g.jobs, op)) else g
  }

  function RunTo(g: Gate, steps: seq<Step>): Gate {
    if steps == [] then g else Next(RunTo(g, steps[..|steps| - 1]), steps[|steps| - 1])
  }

  const START := Gate([], E.Store(map[], map[], map[]), [], {}, {}, {}, [])

  // ---------- the invariant ----------

  predicate ForDocument(j: J.Job, document: string) {
    Field(j.payload, DOCUMENT) == Some(J.Text(document))
  }

  /** An XML job names a science job of its own document that the adapter answered with permission. */
  predicate XmlOk(g: Gate, j: J.Job) {
    j.jobType == XML ==>
      match (Field(j.payload, SCIENCE_JOB), Field(j.payload, DOCUMENT))
      case (Some(Number(science)), Some(Text(document))) =>
        0 <= science < |g.jobs| && g.jobs[science].jobType == SCIENCE && ForDocument(g.jobs[science], document)
            && science in g.granted
      case _ => false
  }

  /** The science job of a document: completed, with permission recorded, which the adapter gave. */
  predicate Authorized(g: Gate, document: string, science: nat) {
    && science < |g.jobs| && g.jobs[science].jobType == SCIENCE && ForDocument(g.jobs[science], document)
    && Permits(g.jobs[science]) && science in g.granted
  }

  /** Permission in the result of a science job was given by the adapter. */
  predicate ResultOk(g: Gate, id: nat)
    requires id < |g.jobs|
  {
    g.jobs[id].jobType == SCIENCE && Permits(g.jobs[id]) ==> id in g.granted
  }

  predicate AnswerOk(g: Gate, a: Answer) {
    && a.job < |g.jobs| && g.jobs[a.job].jobType == SCIENCE
    && (a.outcome.kind == J.Success && Truthy(Field(a.outcome.result, PERMITTED)) ==> a.job in g.granted)
  }

  ghost predicate Inv(g: Gate) {
    && J.Good(g.jobs)
    && (forall i | 0 <= i < |g.jobs| :: XmlOk(g, g.jobs[i]) && ResultOk(g, i))
    && (forall a | a in g.answers :: AnswerOk(g, a))
    && (forall p | p in g.passes :: Authorized(g, p.document, p.science))
    && (forall i | 0 <= i < |g.attached| :: Authorized(g, g.attached[i].document, g.attached[i].science))
  }

  /** What later states keep of an earlier one, as far as the gate is concerned. */
  ghost predicate Later(a: Gate, b: Gate) {
    J.AllAge(a.jobs, b.jobs) && a.granted <= b.granted
  }

  lemma AuthorizedStays(a: Gate, b: Gate, document: string, science: nat)
    requires Later(a, b) && Authorized(a, document, science)
    ensures Authorized(b, document, science)
  {
    assert J.Ages(a.jobs[science], b.jobs[science]);
  }

  lemma XmlStays(a: Gate, b: Gate, j: J.Job)
    requires Later(a, b) && XmlOk(a, j)
    ensures XmlOk(b, j)
  {
    if j.jobType == XML {
      var science := Field(j.payload, SCIENCE_JOB).value.number;
      assert J.Ages(a.jobs[science], b.jobs[science]);
    }
  }

  lemma AnswerStays(a: Gate, b: Gate, x: Answer)
    requires Later(a, b) && AnswerOk(a, x)
    ensures AnswerOk(b, x)
  {
    assert J.Ages(a.jobs[x.job], b.jobs[x.job]);
  }

  lemma SameXml(g: Gate, a: J.Job, b: J.Job)
    requires XmlOk(g, a) && J.Ages(a, b)
    ensures XmlOk(g, b)
  {
  }

  /** A step keeps the invariant when the old rows age, new rows and answers are in order, and passes
      and attachments are authorized. */
  lemma Keeps(a: Gate, b: Gate)
    requires Inv(a) && Later(a, b) && J.Good(b.jobs)
    requires forall i | |a.jobs| <= i < |b.jobs| :: XmlOk(b, b.jobs[i])
    requires forall i | 0 <= i < |b.jobs| :: ResultOk(b, i)
    requires forall x | x in b.answers && x !in a.answers :: AnswerOk(b, x)
    requires forall p | p in b.passes && p !in a.passes :: Authorized(b, p.document, p.science)
    requires |a.attached| <= |b.attached| && b.attached[..|a.attached|] == a.attached
    requires forall i | |a.attached| <= i < |b.attached| :: Authorized(b, b.attached[i].document, b.attached[i].science)
    ensures Inv(b)
  {
    hide XmlOk, ResultOk, AnswerOk, Authorized, J.Good;
    forall i | 0 <= i < |b.jobs| ensures XmlOk(b, b.jobs[i]) {
      if i < |a.jobs| {
        assert J.Ages(a.jobs[i], b.jobs[i]);
        XmlStays(a, b, a.jobs[i]);
        SameXml(b, a.jobs[i], b.jobs[i]);
      }
    }
    forall x | x in b.answers ensures AnswerOk(b, x) {
      if x in a.answers { AnswerStays(a, b, x); }
    }
    forall p | p in b.passes ensures Authorized(b, p.document, p.science) {
      if p in a.passes { AuthorizedStays(a, b, p.document, p.science); }
    }
    forall i | 0 <= i < |b.attached| ensures Authorized(b, b.attached[i].document, b.attached[i].science) {
      if i < |a.attached| {
        assert b.attached[i] == b.attached[..|a.attached|][i];
        AuthorizedStays(a, b, a.attached[i].document, a.attached[i].science);
      }
    }
  }

  lemma ResultsKept(a: Gate, b: Gate)
    requires Inv(a) && a.granted <= b.granted && |a.jobs| <= |b.jobs|
    requires forall i | 0 <= i < |a.jobs| :: b.jobs[i] == a.jobs[i]
    requires forall i | |a.jobs| <= i < |b.jobs| :: b.jobs[i].state == J.Queued
    ensures forall i | 0 <= i < |b.jobs| :: ResultOk(b, i)
  {
    forall i | 0 <= i < |b.jobs| ensures ResultOk(b, i) {
      if i < |a.jobs| { assert ResultOk(a, i); }
    }
  }

  lemma Unchanged(a: Gate, b: Gate)
    requires Inv(a) && b == a.(docs := b.docs, rows := b.rows)
    ensures Inv(b) && Later(a, b)
  {
    assert J.AllAge(a.jobs, b.jobs);
    forall i | 0 <= i < |b.jobs| ensures ResultOk(b, i) { assert ResultOk(a, i); }
    Keeps(a, b);
  }

  lemma EnqueueStep(g: Gate, r: J.Request, now: int)
    requires Inv(g) && r.jobType != XML
    ensures var t := g.(jobs := J.Enqueue(g.jobs, r, now).0); Inv(t) && Later(g, t)
  {
    var t := g.(jobs := J.Enqueue(g.jobs, r, now).0);
    J.EnqueueKeeps(g.jobs, r, now);
    ResultsKept(g, t);
    Keeps(g, t);
  }

  lemma ScienceStep(g: Gate, id: nat, reply: Reply, now: int)
    requires Inv(g) && id < |g.jobs| && g.jobs[id].jobType == SCIENCE && Consistent(reply)
    ensures var t := Next(g, HandlingScience(id, reply, now)); Inv(t) && Later(g, t)
  {
    hide HandleScience, J.Enqueue, J.Good, AnswerOk, Authorized;
    var t := Next(g, HandlingScience(id, reply, now));
    var o := HandleScience(g.jobs, id, reply, now).1;
    HandledJobs(g, id, reply, now);
    assert forall i | 0 <= i < |g.jobs| :: t.jobs[i] == t.jobs[..|g.jobs|][i];
    J.EnqueueKeeps(g.jobs, XmlRequest(id, TextOf(g.jobs[id], DOCUMENT), TextOf(g.jobs[id], CORRELATION), g.jobs[id].policy), now);
    assert J.AllAge(g.jobs, g.jobs);
    ResultsKept(g, t);
    if o.Some? {
      AnswerInOrder(g, t, id, reply, now);
    }
    assert t.answers - g.answers <= {Answer(id, if o.Some? then o.value else J.HandlerOutcome(J.Success, map[], "", None))};
    Keeps(g, t);
  }

  function TextOf(j: J.Job, name: string): string {
    match Field(j.payload, name)
    case Some(Text(t)) => t
    case _ => ""
  }

  /** The handler enqueues at most one job, an XML job naming itself and its own document. */
  lemma HandledJobs(g: Gate, id: nat, reply: Reply, now: int)
    requires Inv(g) && id < |g.jobs| && g.jobs[id].jobType == SCIENCE && Consistent(reply)
    ensures var (jobs, o) := HandleScience(g.jobs, id, reply, now);
            var r := XmlRequest(id, TextOf(g.jobs[id], DOCUMENT), TextOf(g.jobs[id], CORRELATION), g.jobs[id].policy);
            && (jobs == g.jobs || (jobs == J.Enqueue(g.jobs, r, now).0 && |jobs| > |g.jobs|))
            && (|jobs| > |g.jobs| ==>
                  && reply.Reply? && reply.permitted && |jobs| == |g.jobs| + 1 && jobs[..|g.jobs|] == g.jobs
                  && jobs[|g.jobs|] == J.NewJob(r, now) && ForDocument(g.jobs[id], TextOf(g.jobs[id], DOCUMENT)))
  {
  }

  lemma AnswerInOrder(g: Gate, t: Gate, id: nat, reply: Reply, now: int)
    requires id < |g.jobs| && g.jobs[id].jobType == SCIENCE && HandleScience(g.jobs, id, reply, now).1.Some?
    requires id < |t.jobs| && t.jobs[id].jobType == SCIENCE && (reply.Reply? && reply.permitted ==> id in t.granted)
    ensures AnswerOk(t, Answer(id, HandleScience(g.jobs, id, reply, now).1.value))
  {
    assert "followup_job_id" != PERMITTED;
  }

  lemma CheckStep(g: Gate, id: nat)
    requires Inv(g) && id < |g.jobs| && g.jobs[id].jobType == XML && Checked(g.jobs, id).Some?
    ensures var t := g.(passes := g.passes + {Checked(g.jobs, id).value}); Inv(t) && Later(g, t)
  {
    var p := Checked(g.jobs, id).value;
    var t := g.(passes := g.passes + {p});
    assert XmlOk(g, g.jobs[id]);
    assert J.AllAge(g.jobs, g.jobs);
    assert Authorized(t, p.document, p.science);
    forall i | 0 <= i < |t.jobs| ensures ResultOk(t, i) { assert ResultOk(g, i); }
    Keeps(g, t);
  }

  lemma AttachStep(g: Gate, pass: Pass, artifact: nat)
    requires Inv(g) && pass in g.passes
    ensures var t := Next(g, AttachingXml(pass, artifact)); Inv(t) && Later(g, t)
  {
    var t := Next(g, AttachingXml(pass, artifact));
    assert J.AllAge(g.jobs, t.jobs);
    AuthorizedStays(g, t, pass.document, pass.science);
    forall i | 0 <= i < |t.jobs| ensures ResultOk(t, i) { assert ResultOk(g, i); }
    Keeps(g, t);
  }

  lemma EngineStep(g: Gate, op: J.Op)
    requires Inv(g) && Permitted(g, op)
    ensures var t := g.(jobs := J.Apply(g.jobs, op)); Inv(t) && Later(g, t)
  {
    var t := g.(jobs := J.Apply(g.jobs, op));
    J.ApplyKeeps(g.jobs, op);
    forall i | 0 <= i < |t.jobs| ensures ResultOk(t, i) {
      if i < |g.jobs| {
        assert ResultOk(g, i) && J.Ages(g.jobs[i], t.jobs[i]);
        if g.jobs[i].jobType == SCIENCE && Permits(t.jobs[i]) && !Permits(g.jobs[i]) {
          NewPermission(g, op, i);
        }
      } else {
        J.NewRow(g.jobs, op);
      }
    }
    forall i | |g.jobs| <= i < |t.jobs| ensures XmlOk(t, t.jobs[i]) {
      J.NewRow(g.jobs, op);
    }
    Keeps(g, t);
  }

  /** A science job that gets permission gets it from an answer of its handler. */
  lemma NewPermission(g: Gate, op: J.Op, i: nat)
    requires Inv(g) && Permitted(g, op) && i < |g.jobs| && i < |J.Apply(g.jobs, op)|
    requires g.jobs[i].jobType == SCIENCE && Permits(J.Apply(g.jobs, op)[i]) && !Permits(g.jobs[i])
    ensures i in g.granted
  {
    J.ApplyKeeps(g.jobs, op);
    assert J.Ages(g.jobs[i], J.Apply(g.jobs, op)[i]);
    J.CompletedBy(g.jobs, op, i);
    var a :| a in g.answers && AnswerFor(a, i, op.change);
    assert AnswerOk(g, a);
  }

  lemma StepKeeps(g: Gate, step: Step)
    requires Inv(g)
    ensures Inv(Next(g, step)) && Later(g, Next(g, step))
  {
    hide Inv, Later, HandleScience, Checked, J.Apply, J.Enqueue, E.Persist, E.Attach;
    Unchanged(g, g);
    match step {
      case EnqueueingScience(document, intent, correlation, policy, now) =>
        EnqueueStep(g, ScienceRequest(document, intent, correlation, policy, now), now);
      case HandlingScience(id, reply, now) =>
        if id < |g.jobs| && g.jobs[id].jobType == SCIENCE && Consistent(reply) { ScienceStep(g, id, reply, now); }
      case CheckingXml(id) =>
        if id < |g.jobs| && g.jobs[id].jobType == XML && Checked(g.jobs, id).Some? { CheckStep(g, id); }
      case AttachingXml(pass, artifact) => if pass in g.passes { AttachStep(g, pass, artifact); }
      case Persisting(d) => Unchanged(g, Next(g, step));
      case Attaching(document, artifact) => Unchanged(g, Next(g, step));
      case Storing(op) => Unchanged(g, Next(g, step));
      case Engine(op) => if Permitted(g, op) { EngineStep(g, op); }
    }
  }

  lemma {:induction false} RunKeeps(g: Gate, steps: seq<Step>)
    requires Inv(g)
    ensures Inv(RunTo(g, steps)) && Later(g, RunTo(g, steps))
  {
    if steps == [] {
      Unchanged(g, g);
    } else {
      var before := RunTo(g, steps[..|steps| - 1]);
      RunKeeps(g, steps[..|steps| - 1]);
      StepKeeps(before, steps[|steps| - 1]);
      J.AgesTransitive(g.jobs, before.jobs, RunTo(g, steps).jobs);
    }
  }

  // ---------- the attachments are evidence rows ----------

  predicate Present(docs: E.Store, x: Attachment) {
    E.DocOf(docs, x.document).Some? && E.Attached(E.DocOf(docs, x.document).value, x.artifact)
  }

  ghost predicate Stored(g: Gate) {
    && A.Valid(g.rows) && E.Valid(g.docs, g.rows)
    && forall i | 0 <= i < |g.attached| :: Present(g.docs, g.attached[i])
  }

  lemma PresentStays(a: E.Store, b: E.Store, x: Attachment)
    requires E.StoreGrows(a, b) && Present(a, x)
    ensures Present(b, x)
  {
    var before, after := E.DocOf(a, x.document).value, b.docs[a.ids[x.document]];
    assert E.RowGrows(before, after);
    var i :| 0 <= i < |before.evidence| && before.evidence[i].artifact == x.artifact;
    assert after.evidence[i].artifact == x.artifact;
  }

  lemma AttachedIsPresent(docs: E.Store, rows: A.Rows, x: Attachment)
    requires E.Attach(docs, rows, x.document, x.artifact).1 == Some(E.Persisted)
    ensures Present(E.Attach(docs, rows, x.document, x.artifact).0, x)
  {
    var row := E.DocOf(E.Attach(docs, rows, x.document, x.artifact).0, x.document).value;
    assert row.evidence[|row.evidence| - 1].artifact == x.artifact;
  }

  /** Documents only grow, so what was attached stays attached. */
  lemma DocsGrow(g: Gate, step: Step)
    requires Stored(g)
    ensures var t := Next(g, step); A.Valid(t.rows) && E.Valid(t.docs, t.rows) && E.StoreGrows(g.docs, t.docs)
  {
    hide HandleScience, Checked, J.Apply, J.Enqueue, E.Persist, E.Attach, E.Valid, E.StoreGrows;
    E.GrowsReflexive(g.docs);
    match step
    case AttachingXml(pass, artifact) => E.AttachKeeps(g.docs, g.rows, pass.document, artifact);
    case Persisting(d) => E.PersistKeeps(g.docs, g.rows, d);
    case Attaching(document, artifact) => E.AttachKeeps(g.docs, g.rows, document, artifact);
    case Storing(op) =>
      A.ApplyKeeps(g.rows, op);
      E.ValidEvolves(g.docs, g.rows, A.Apply(g.rows, op));
    case _ =>
  }

  lemma StepStored(g: Gate, step: Step)
    requires Stored(g)
    ensures Stored(Next(g, step)) && E.StoreGrows(g.docs, Next(g, step).docs)
  {
    hide Present, E.Valid, E.StoreGrows, HandleScience, Checked, J.Apply, J.Enqueue, E.Persist, E.Attach;
    var t := Next(g, step);
    DocsGrow(g, step);
    forall i | 0 <= i < |t.attached| ensures Present(t.docs, t.attached[i]) {
      if i < |g.attached| {
        PresentStays(g.docs, t.docs, g.attached[i]);
      } else {
        AttachedIsPresent(g.docs, g.rows, t.attached[i]);
      }
    }
  }

  lemma {:induction false} RunStored(g: Gate, steps: seq<Step>)
    requires Stored(g)
    ensures Stored(RunTo(g, steps))
    ensures |g.attached| <= |RunTo(g, steps).attached| && RunTo(g, steps).attached[..|g.attached|] == g.attached
  {
    if steps != [] {
      RunStored(g, steps[..|steps| - 1]);
      StepStored(RunTo(g, steps[..|steps| - 1]), steps[|steps| - 1]);
      AttachmentsStay(RunTo(g, steps[..|steps| - 1]), steps[|steps| - 1]);
    }
  }

  lemma AttachmentsStay(g: Gate, step: Step)
    ensures |g.attached| <= |Next(g, step).attached| && Next(g, step).attached[..|g.attached|] == g.attached
  {
    hide HandleScience, Checked, J.Apply, J.Enqueue, E.Persist, E.Attach;
  }

  /** Over whole runs: every row an XML handler attached is an evidence row of its document, and names a
      science job of that document which is COMPLETED with permission and which the adapter answered
      with permission, at once and in every later state. */
  lemma GateHolds(steps: seq<Step>, more: seq<Step>, i: nat)
    requires i < |RunTo(START, steps).attached|
    ensures var g := RunTo(START, steps); var t, x := RunTo(g, more), g.attached[i];
            && Present(g.docs, x) && Authorized(g, x.document, x.science)
            && Present(t.docs, x) && Authorized(t, x.document, x.science)
  {
    var g := RunTo(START, steps);
    RunKeeps(START, steps);
    RunKeeps(g, more);
    AuthorizedStays(g, RunTo(g, more), g.attached[i].document, g.attached[i].science);
    RunStored(START, steps);
    RunStored(g, more);
    assert RunTo(g, more).attached[i] == RunTo(g, more).attached[..|g.attached|][i];
  }
}
