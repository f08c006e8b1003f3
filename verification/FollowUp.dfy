/** The NF-e follow-up handlers over mutable tables, as runs of the gate's steps, and the permission map
    of the simulated transport. */
module FollowUp {
  import opened Options
  import opened ScienceGate
  import J = JobEngine
  import A = Artifacts
  import E = EvidenceStore
  import W = JobWorkers

  // ---------- process_one on follow-up jobs ----------

  /** What a worker does after a handler of the follow-up is a step the gate permits: it completes a
      science job only with the success that the handler answered. */
  lemma WorkerIsPermitted(g: Gate, id: nat, owner: string, policy: Option<J.Policy>, reaction: W.Reaction, t: W.Readings)
    returns (steps: seq<Step>)
    requires IsScience(g.jobs, id) ==> !reaction.Plain?
    requires IsScience(g.jobs, id) && reaction.Classified? ==> ScienceGate.Answer(id, reaction.outcome) in g.answers
    ensures RunTo(g, steps) == g.(jobs := W.Conclude(g.jobs, id, owner, policy, reaction, t))
  {
    hide W.Conclude, J.Apply;
    var op := W.ConcludeByOneOp(g.jobs, id, owner, policy, reaction, t);
    steps := [];
    assert g.(jobs := g.jobs) == g;
    if op.Some? {
      if op.value.DoWrite? && op.value.change.decision == J.Done && IsScience(g.jobs, id) {
        assert AnswerFor(ScienceGate.Answer(id, reaction.outcome), id, op.value.change);
      }
      assert Permitted(g, op.value);
      steps := [] + [Engine(op.value)];
      RunStep(g, [], Engine(op.value));
    }
  }

  /** `process_one` on a science job after its claim: the handler with a consistent answer, then the
      conclusion, is a run of the gate. */
  lemma ScienceIsRun(g: Gate, id: nat, reply: Reply, now: int, owner: string, t: W.Readings) returns (steps: seq<Step>)
    requires IsScience(g.jobs, id) && Consistent(reply)
    ensures var (jobs, o) := HandleScience(g.jobs, id, reply, now);
            var reaction := if o.Some? then W.Reaction.Classified(o.value) else W.Raised;
            RunTo(g, steps).jobs == W.Conclude(jobs, id, owner, g.jobs[id].policy, reaction, t)
  {
    hide W.Conclude, HandleScience, J.Apply;
    var (jobs, o) := HandleScience(g.jobs, id, reply, now);
    var next := Next(g, HandlingScience(id, reply, now));
    var reaction := if o.Some? then W.Reaction.Classified(o.value) else W.Raised;
    var rest := WorkerIsPermitted(next, id, owner, g.jobs[id].policy, reaction, t);
    RunAppend(g, HandlingScience(id, reply, now), rest);
    steps := [HandlingScience(id, reply, now)] + rest;
  }

  lemma {:induction false} RunAppend(g: Gate, step: Step, rest: seq<Step>)
    ensures RunTo(g, [step] + rest) == RunTo(Next(g, step), rest)
  {
    hide Next;
    if rest == [] {
      assert [step] + rest == [] + [step];
      RunStep(g, [], step);
    } else {
      RunAppend(g, step, rest[..|rest| - 1]);
      assert ([step] + rest)[..|rest|] == [step] + rest[..|rest| - 1];
    }
  }

  // ---------- handle_xml_job ----------

  /** What the XML handler meets: the document context, the transport's answer, the two artifacts it
      stored (`None` is a follow-up error) and whether the XML is well-formed and safe. */
  datatype XmlRun = XmlRun(contextOk: bool, answered: bool, original: Option<nat>, xmlValid: bool, xml: Option<nat>)

  function Refuse(code: string): Option<J.HandlerOutcome> {
    Some(J.HandlerOutcome(J.Permanent, map[], code, None))
  }

  /** The artifact rows at the two attachments are `before` and `after`; `None` is an exception. */
  function HandleXml(jobs: J.Jobs, docs: E.Store, before: A.Rows, after: A.Rows, id: nat, r: XmlRun)
    : (E.Store, Option<J.HandlerOutcome>)
    requires id < |jobs|
  {
    match Checked(jobs, id)
    case None => (docs, Refuse("science_required"))
    case Some(p) =>
      if !r.contextOk || !r.answered || r.original.None? then (docs, Refuse("xml_rejected"))
      else
        match E.Attach(docs, before, p.document, r.original.value)
        case (_, None) => (docs, None)
        case (first, Some(_)) =>
          if !r.xmlValid || r.xml.None? then (first, Refuse("xml_rejected"))
          else
            match E.Attach(first, after, p.document, r.xml.value)
            case (_, None) => (first, None)
            case (second, Some(_)) =>
              (second, Some(J.HandlerOutcome(J.Success,
                 map[DOCUMENT := J.Text(p.document), "original_evidence_id" := J.Number(r.original.value)], "", None)))
  }

  // ---------- what the handlers answer ----------

  /** The text a job's payload holds under a name, if it holds one. */
  predicate Says(j: J.Job, name: string, text: string) {
    name in j.payload && j.payload[name] == J.Text(text)
  }

  /** The row of the XML job that follows a Ciência: it names the science job, and waits for no other time
      than now under the same policy. */
  function XmlRow(science: nat, j: J.Job, document: string, correlation: string, now: int): J.Job {
    J.Job("nfe.complete_xml", "document:" + document,
          map["operation" := J.Text("complete_xml"), "document_id" := J.Text(document),
              "correlation_id" := J.Text("xml:" + correlation),
              "science_correlation_id" := J.Text(correlation), "science_job_id" := J.Number(science)],
          0, "nfe:xml:" + document + ":" + correlation, j.policy, now, 0, J.Queued, None, None, "", None, None, None, "", None)
  }

  /** The science job a request queues: due at once, under its policy, one for each document, intent and
      correlation. */
  lemma ScienceQueued(jobs: J.Jobs, document: string, intent: string, correlation: string, policy: J.Policy, now: int)
    ensures var key := "nfe:science:" + document + ":" + intent + ":" + correlation;
            var (t, r) := J.Enqueue(jobs, ScienceRequest(document, intent, correlation, policy, now), now);
            InForce(Some(policy), now) && (forall i | 0 <= i < |jobs| :: jobs[i].key == key ==> jobs[i].state == J.Completed) ==>
              && r == Ok(|jobs|)
              && t == jobs + [J.Job("nfe.science", "document:" + document,
                                    map["operation" := J.Text("science"), "document_id" := J.Text(document),
                                        "correlation_id" := J.Text(correlation), "intent" := J.Text(intent)],
                                    0, key, Some(policy), now, 0, J.Queued, None, None, "", None, None, None, "", None)]
  {
  }

  /** The policy is in force at `now`, or there is none. */
  predicate InForce(p: Option<J.Policy>, now: int) {
    p.Some? ==> p.value.validFrom <= now && (p.value.validUntil.Some? ==> now < p.value.validUntil.value)
  }

  /** `handle_science_job` for a document and correlation. A refused request blocks. An answer without
      permission is reported as it is. With permission, the XML job of the key is queued, unless an open one
      is there already, and reported with the answer; when it cannot be queued the handler raises. */
  lemma ScienceExactly(jobs: J.Jobs, id: nat, reply: Reply, now: int, document: string, correlation: string)
    requires id < |jobs| && Says(jobs[id], "document_id", document) && Says(jobs[id], "correlation_id", correlation)
        && Consistent(reply)
    ensures var (t, o) := HandleScience(jobs, id, reply, now);
            var key := "nfe:xml:" + document + ":" + correlation;
            if reply.Raised? then t == jobs && o == Some(J.HandlerOutcome(J.Permanent, map[], "followup_rejected", None))
            else if !reply.permitted then t == jobs && o == Some(AsJobOutcome(reply, document))
            else if !InForce(jobs[id].policy, now) then t == jobs && o.None?
            else if forall i | 0 <= i < |jobs| :: jobs[i].key == key ==> jobs[i].state == J.Completed then
              t == jobs + [XmlRow(id, jobs[id], document, correlation, now)] && Reports(o, reply, document, |jobs|)
            else
              t == jobs
              && (o.None? || exists xml: nat ::
                    xml < |jobs| && jobs[xml].key == key && J.Active(jobs[xml]) && Reports(o, reply, document, xml))
              && (o.None? <==> forall i | 0 <= i < |jobs| && jobs[i].key == key :: !J.Active(jobs[i]))
  {
    hide AsJobOutcome;
    AnswerCarriesSuccess(reply, document);
    var r := XmlRequest(id, document, correlation, jobs[id].policy);
    assert r.key == "nfe:xml:" + document + ":" + correlation;
    if reply.Reply? && reply.permitted {
      match J.ActiveFor(jobs, r.key)
      case Some(i) => assert jobs[i].key == r.key && J.Active(jobs[i]);
      case None =>
    }
  }

  predicate Reports(o: Option<J.HandlerOutcome>, reply: Reply, document: string, xml: nat)
    requires reply.Reply?
  {
    var answer := AsJobOutcome(reply, document);
    o == Some(answer.(result := answer.result["followup_job_id" := J.Number(xml)]))
  }

  lemma AnswerCarriesSuccess(reply: Reply, document: string)
    requires Consistent(reply)
    ensures reply.Reply? && reply.permitted ==> AsJobOutcome(reply, document).kind == J.Success
  {
  }

  /** A payload without a text for the document or the correlation raises. */
  lemma ScienceRaises(jobs: J.Jobs, id: nat, reply: Reply, now: int)
    requires id < |jobs|
    requires (forall text :: !Says(jobs[id], "document_id", text)) || (forall text :: !Says(jobs[id], "correlation_id", text))
    ensures HandleScience(jobs, id, reply, now) == (jobs, None)
  {
    var payload := jobs[id].payload;
    if Field(payload, DOCUMENT).Some? && payload[DOCUMENT].Text? {
      assert Says(jobs[id], "document_id", payload[DOCUMENT].text);
    }
    if Field(payload, CORRELATION).Some? && payload[CORRELATION].Text? {
      assert Says(jobs[id], "correlation_id", payload[CORRELATION].text);
    }
  }

  /** The science job the XML job names is completed and its result permits the retrieval. */
  predicate Cleared(jobs: J.Jobs, id: nat, science: nat)
    requires id < |jobs|
  {
    && "science_job_id" in jobs[id].payload && jobs[id].payload["science_job_id"] == J.Number(science)
    && science < |jobs| && jobs[science].state == J.Completed && jobs[science].result.Some?
    && "retrieval_permitted" in jobs[science].result.value && Truthy(Some(jobs[science].result.value["retrieval_permitted"]))
  }

  /** `handle_xml_job`: without a cleared science job nothing is attached and the job blocks. Otherwise the
      original is attached first and stays even when the XML is then refused; both attached is a success.
      An artifact that cannot be evidence raises. */
  lemma XmlExactly(jobs: J.Jobs, docs: E.Store, before: A.Rows, after: A.Rows, id: nat, r: XmlRun, document: string)
    requires id < |jobs| && Says(jobs[id], "document_id", document)
    ensures var (t, o) := HandleXml(jobs, docs, before, after, id, r);
            if !(exists science: nat :: Cleared(jobs, id, science)) then t == docs && Blocks(o, "science_required")
            else if !r.contextOk || !r.answered || r.original.None? then t == docs && Blocks(o, "xml_rejected")
            else
              var first := E.Attach(docs, before, document, r.original.value);
              if first.1.None? then t == docs && o.None?
              else if !r.xmlValid || r.xml.None? then t == first.0 && Blocks(o, "xml_rejected")
              else
                var second := E.Attach(first.0, after, document, r.xml.value);
                if second.1.None? then t == first.0 && o.None?
                else
                  t == second.0
                  && o == Some(J.HandlerOutcome(J.Success,
                       map["document_id" := J.Text(document), "original_evidence_id" := J.Number(r.original.value)], "", None))
  {
    hide E.Attach;
    ClearedExactly(jobs, id, document);
  }

  predicate Blocks(o: Option<J.HandlerOutcome>, code: string) {
    o == Some(J.HandlerOutcome(J.Permanent, map[], code, None))
  }

  lemma ClearedExactly(jobs: J.Jobs, id: nat, document: string)
    requires id < |jobs| && Says(jobs[id], "document_id", document)
    ensures Checked(jobs, id).Some? <==> exists science: nat :: Cleared(jobs, id, science)
    ensures Checked(jobs, id).Some? ==> Checked(jobs, id).value.document == document
  {
    if Checked(jobs, id).Some? {
      assert Cleared(jobs, id, Checked(jobs, id).value.science);
    }
  }

  /** Permission is a flag that is set, a number that is not zero, or a text that is not empty. */
  lemma TruthyExactly(v: J.Value)
    ensures Truthy(Some(v)) <==> v != J.Null && v != J.Flag(false) && v != J.Number(0) && v != J.Text("")
    ensures !Truthy(None)
  {
  }

  lemma RunStep(g: Gate, steps: seq<Step>, step: Step)
    ensures RunTo(g, steps + [step]) == Next(RunTo(g, steps), step)
  {
    assert (steps + [step])[..|steps|] == steps;
  }

  lemma CheckNext(g: Gate, id: nat)
    requires id < |g.jobs| && g.jobs[id].jobType == XML && Checked(g.jobs, id).Some?
    ensures var t := Next(g, CheckingXml(id));
            t.jobs == g.jobs && t.docs == g.docs && t.rows == g.rows && Checked(g.jobs, id).value in t.passes
  {
    hide Checked;
  }

  lemma AttachNext(g: Gate, p: Pass, artifact: nat)
    requires p in g.passes
    ensures var t := Next(g, AttachingXml(p, artifact));
            t.jobs == g.jobs && t.docs == E.Attach(g.docs, g.rows, p.document, artifact).0 && t.rows == g.rows
                && t.passes == g.passes
  {
    hide E.Attach;
  }

  /** Storing an artifact between two steps. */
  lemma {:induction false} StoreRun(g: Gate, before: seq<Step>, ops: seq<A.Op>) returns (steps: seq<Step>)
    ensures var s, t := RunTo(g, before), RunTo(g, steps);
            t.jobs == s.jobs && t.docs == s.docs && t.passes == s.passes && t.rows == A.Run(s.rows, ops)
    decreases |ops|
  {
    if ops == [] {
      steps := before;
    } else {
      RunStep(g, before, Storing(ops[0]));
      steps := StoreRun(g, before + [Storing(ops[0])], ops[1..]);
    }
  }

  /** An XML handler is a run of gate steps, so `GateHolds` covers what it attaches, whatever it stores
      between its two attachments. */
  lemma XmlIsRun(g: Gate, id: nat, r: XmlRun, storing: seq<A.Op>) returns (steps: seq<Step>)
    requires id < |g.jobs| && g.jobs[id].jobType == XML
    ensures RunTo(g, steps).docs == HandleXml(g.jobs, g.docs, g.rows, A.Run(g.rows, storing), id, r).0
    ensures RunTo(g, steps).jobs == g.jobs
  {
    hide E.Attach, Checked, Next;
    steps := [];
    var check := Checked(g.jobs, id);
    if check.Some? && r.contextOk && r.answered && r.original.Some? {
      var p := check.value;
      RunStep(g, [], CheckingXml(id));
      CheckNext(g, id);
      var g1 := Next(g, CheckingXml(id));
      if E.Attach(g.docs, g.rows, p.document, r.original.value).1.Some? {
        steps := [] + [CheckingXml(id)];
        AttachNext(g1, p, r.original.value);
        RunStep(g, steps, AttachingXml(p, r.original.value));
        steps := steps + [AttachingXml(p, r.original.value)];
        var first := RunTo(g, steps);
        var after := A.Run(g.rows, storing);
        if r.xmlValid && r.xml.Some? && E.Attach(first.docs, after, p.document, r.xml.value).1.Some? {
          steps := StoreRun(g, steps, storing);
          AttachNext(RunTo(g, steps), p, r.xml.value);
          RunStep(g, steps, AttachingXml(p, r.xml.value));
          steps := steps + [AttachingXml(p, r.xml.value)];
        }
      }
    }
  }

  // ---------- the service over mutable tables ----------

  class NFeFollowUpService {
    var jobs: J.Jobs
    var docs: E.Store

    constructor ()
      ensures jobs == [] && docs == E.Store(map[], map[], map[])
    {
      jobs, docs := [], E.Store(map[], map[], map[]);
    }

    /** `handle_science_job`. */
    method HandleScienceJob(id: nat, reply: Reply, now: int) returns (o: Option<J.HandlerOutcome>)
      requires id < |jobs|
      modifies this`jobs
      ensures (jobs, o) == HandleScience(old(jobs), id, reply, now)
    {
      hide AsJobOutcome, J.Enqueue;
      var payload := jobs[id].payload;
      if DOCUMENT !in payload || CORRELATION !in payload || !payload[DOCUMENT].Text? || !payload[CORRELATION].Text? {
        return None;
      }
      var document, correlation := payload[DOCUMENT].text, payload[CORRELATION].text;
      if reply.Raised? {
        return Refuse("followup_rejected");
      }
      var classified := AsJobOutcome(reply, document);
      if !reply.permitted || classified.kind != J.Success {
        return Some(classified);
      }
      var queued := J.Enqueue(jobs, XmlRequest(id, document, correlation, jobs[id].policy), now);
      EnqueueRefused(jobs, XmlRequest(id, document, correlation, jobs[id].policy), now);
      jobs := queued.0;
      match queued.1
      case Ok(xml) => return Some(classified.(result := classified.result["followup_job_id" := J.Number(xml)]));
      case Err(_) => return None;
    }

    /** `handle_xml_job`, with both attachments against the artifact rows of their moment. */
    method HandleXmlJob(before: A.Rows, after: A.Rows, id: nat, r: XmlRun) returns (o: Option<J.HandlerOutcome>)
      requires id < |jobs|
      modifies this`docs
      ensures (docs, o) == HandleXml(jobs, old(docs), before, after, id, r)
    {
      hide E.Attach, Checked;
      var check := Checked(jobs, id);
      if check.None? {
        return Refuse("science_required");
      }
      var document := check.value.document;
      if !r.contextOk || !r.answered || r.original.None? {
        return Refuse("xml_rejected");
      }
      var first := E.Attach(docs, before, document, r.original.value);
      if first.1.None? {
        return None;
      }
      docs := first.0;
      if !r.xmlValid || r.xml.None? {
        return Refuse("xml_rejected");
      }
      var second := E.Attach(docs, after, document, r.xml.value);
      if second.1.None? {
        return None;
      }
      docs := second.0;
      return Some(J.HandlerOutcome(J.Success,
        map[DOCUMENT := J.Text(document), "original_evidence_id" := J.Number(r.original.value)], "", None));
    }
  }

  lemma EnqueueRefused(jobs: J.Jobs, r: J.Request, now: int)
    ensures J.Enqueue(jobs, r, now).1.Err? ==> J.Enqueue(jobs, r, now).0 == jobs
  {
  }

  // ---------- the simulated transport ----------

  datatype Key = Key(document: string, flow: string, correlation: string)

  datatype Scenario = Scenario(outcome: Outcome, permitted: bool, xml: Option<string>)

  datatype Call = ScienceCall(flow: string, correlation: string) | XmlCall(flow: string, correlation: string)

  datatype Simulated = Simulated(science: map<Key, Reply>, xml: map<Key, string>, calls: seq<Call>)

  function ScenarioReply(c: Scenario): Reply {
    Reply(c.outcome, c.permitted, OutcomeName(c.outcome), if c.outcome == Cooldown then Some(1893456000) else None)
  }

  /** The first request of a key is answered and recorded; later ones get the recorded answer. */
  function Science(s: Simulated, c: Scenario, k: Key): (Simulated, Reply) {
    if k in s.science then (s, s.science[k])
    else (s.(science := s.science[k := ScenarioReply(c)], calls := s.calls + [ScienceCall(k.flow, k.correlation)]),
        ScenarioReply(c))
  }

  /** `k` carries the correlation of the science request; `None` is the follow-up error. */
  function CompleteXml(s: Simulated, c: Scenario, k: Key, correlation: string): (Simulated, Option<string>) {
    if k !in s.science || !(s.science[k].Reply? && s.science[k].permitted) then (s, None)
    else if c.xml.None? then (s, None)
    else if k in s.xml then (s, Some(s.xml[k]))
    else (s.(xml := s.xml[k := c.xml.value], calls := s.calls + [XmlCall(k.flow, correlation)]), c.xml)
  }

  datatype Ask = AskScience(key: Key) | AskXml(key: Key, correlation: string)

  function Asked(s: Simulated, c: Scenario, asks: seq<Ask>): Simulated {
    if asks == [] then s
    else
      var before := Asked(s, c, asks[..|asks| - 1]);
      match asks[|asks| - 1]
      case AskScience(k) => Science(before, c, k).0
      case AskXml(k, correlation) => CompleteXml(before, c, k, correlation).0
  }

  /** XML has been handed out only for permitted keys, and every answered key was called once. */
  ghost predicate SimulatedOk(s: Simulated) {
    && (forall k | k in s.xml :: k in s.science && s.science[k].Reply? && s.science[k].permitted)
    && |s.calls| == |s.science| + |s.xml|
  }

  /** Whatever is asked in whatever order: no XML without a permitted Ciência of the same key, one call
      for each answer, and answers never change. */
  lemma {:induction false} TransportKeeps(s: Simulated, c: Scenario, asks: seq<Ask>)
    requires SimulatedOk(s)
    ensures var t := Asked(s, c, asks);
            && SimulatedOk(t)
            && (forall k | k in s.science :: k in t.science && t.science[k] == s.science[k])
            && (forall k | k in s.xml :: k in t.xml && t.xml[k] == s.xml[k])
  {
    if asks != [] {
      TransportKeeps(s, c, asks[..|asks| - 1]);
    }
  }

  /** A key is answered once, as the scenario says, and then always the same; only a new answer is a call. */
  lemma ScienceAnswersOnce(s: Simulated, c: Scenario, k: Key)
    ensures var (t, r) := Science(s, c, k);
            if k in s.science then t == s && r == s.science[k]
            else
              && r.Reply? && r.outcome == c.outcome && r.permitted == c.permitted
              && (r.cooldownUntil.Some? <==> c.outcome == Cooldown)
              && t == Simulated(s.science[k := r], s.xml, s.calls + [ScienceCall(k.flow, k.correlation)])
  {
  }

  /** Complete XML is refused exactly without a permitted Ciência of the key or without XML in the scenario;
      a key gets the scenario's XML once and then always the same. */
  lemma XmlAnswersOnce(s: Simulated, c: Scenario, k: Key, correlation: string)
    ensures var (t, r) := CompleteXml(s, c, k, correlation);
            var allowed := k in s.science && s.science[k].Reply? && s.science[k].permitted && c.xml.Some?;
            && (r.Some? <==> allowed)
            && (if allowed && k !in s.xml then
                  r == c.xml && t == Simulated(s.science, s.xml[k := c.xml.value], s.calls + [XmlCall(k.flow, correlation)])
                else t == s && (allowed ==> r == Some(s.xml[k])))
  {
  }

  /** The simulator's dictionaries and call list. */
  class NFeFollowUpSimulator {
    const scenario: Scenario
    var science: map<Key, Reply>
    var xml: map<Key, string>
    var calls: seq<Call>

    function State(): Simulated
      reads this
    {
      Simulated(science, xml, calls)
    }

    constructor (c: Scenario)
      ensures scenario == c && State() == Simulated(map[], map[], [])
    {
      scenario, science, xml, calls := c, map[], map[], [];
    }

    method RequestScience(k: Key) returns (r: Reply)
      modifies this`science, this`calls
      ensures (State(), r) == Science(old(State()), scenario, k)
    {
      if k !in science {
        science := science[k := ScenarioReply(scenario)];
        calls := calls + [ScienceCall(k.flow, k.correlation)];
      }
      return science[k];
    }

    method RequestXml(k: Key, correlation: string) returns (r: Option<string>)
      modifies this`xml, this`calls
      ensures (State(), r) == CompleteXml(old(State()), scenario, k, correlation)
    {
      if k !in science || science[k].Raised? || !science[k].permitted || scenario.xml.None? {
        return None;
      }
      if k !in xml {
        xml := xml[k := scenario.xml.value];
        calls := calls + [XmlCall(k.flow, correlation)];
      }
      return Some(xml[k]);
    }
  }
}
