/** Lease fencing: what a worker's call can still do after an arbitrary interleaving of other calls. */
module JobFencing {
  import opened Options
  import opened JobEngine

  // ---------- fencing ----------

  /** The worker that owns the job now also owned it before, at the same attempt. */
  predicate SameHold(a: Job, b: Job, owner: string) {
    OwnedBy(b, owner) ==> OwnedBy(a, owner) && b.attempts == a.attempts && b.policy == a.policy && b.jobType == a.jobType
  }

  predicate ClaimsFor(op: Op, owner: string) {
    op.DoClaim? && op.owner == owner
  }

  predicate By(op: Op, owner: string) {
    match op
    case DoEnqueue(_, _) => false
    case DoReclaim(_) => false
    case DoClaim(o, _, _, _) => o == owner
    case DoRenew(_, o, _, _, _) => o == owner
    case DoComplete(_, o, _, _, _) => o == owner
    case DoFail(_, o, _, _, _) => o == owner
    case DoWrite(_, o, _) => o == owner
  }

  /** Whether a step claims job `id`. */
  predicate Takes(jobs: Jobs, op: Op, id: nat) {
    op.DoClaim? && Claim(jobs, op.owner, op.now, op.duration, op.locked).1 == Ok(Some(id))
  }

  predicate NeverTaken(jobs: Jobs, ops: seq<Op>, id: nat) {
    ops == [] || (NeverTaken(jobs, ops[..|ops| - 1], id) && !Takes(Run(jobs, ops[..|ops| - 1]), ops[|ops| - 1], id))
  }

  lemma StepHold(jobs: Jobs, op: Op, id: nat, owner: string)
    requires Good(jobs) && id < |jobs| && !ClaimsFor(op, owner)
    ensures id < |Apply(jobs, op)| && SameHold(jobs[id], Apply(jobs, op)[id], owner)
    ensures OwnedBy(Apply(jobs, op)[id], owner) ==> !Takes(jobs, op, id)
  {
    ApplyKeeps(jobs, op);
    match op
    case DoClaim(other, now, duration, locked) => ClaimOthers(jobs, other, now, duration, locked, id, owner);
    case _ =>
  }

  lemma ClaimOthers(jobs: Jobs, other: string, now: int, duration: nat, locked: set<nat>, id: nat, owner: string)
    requires Good(jobs) && id < |jobs| && other != owner
    ensures var (t, r) := Claim(jobs, other, now, duration, locked);
            id < |t| && SameHold(jobs[id], t[id], owner) && (OwnedBy(t[id], owner) ==> r != Ok(Some(id)))
  {
  }

  /** While a worker claims nothing, whatever everybody does: a job it still owns is the job it owned,
      at the same attempt, and nobody has claimed it since. */
  lemma {:induction false} HoldIsOld(jobs: Jobs, ops: seq<Op>, id: nat, owner: string)
    requires Good(jobs) && id < |jobs|
    requires forall i | 0 <= i < |ops| :: !ClaimsFor(ops[i], owner)
    ensures id < |Run(jobs, ops)| && SameHold(jobs[id], Run(jobs, ops)[id], owner)
    ensures OwnedBy(Run(jobs, ops)[id], owner) ==> NeverTaken(jobs, ops, id)
  {
    RunKeeps(jobs, ops);
    if ops != [] {
      var init, last := ops[..|ops| - 1], ops[|ops| - 1];
      HoldIsOld(jobs, init, id, owner);
      RunKeeps(jobs, init);
      StepHold(Run(jobs, init), last, id, owner);
    }
  }

  /** A lease its owner does not renew does not get later. */
  lemma {:induction false} LeaseNotExtended(jobs: Jobs, ops: seq<Op>, id: nat, owner: string)
    requires Good(jobs) && id < |jobs|
    requires forall i | 0 <= i < |ops| :: !By(ops[i], owner)
    ensures id < |Run(jobs, ops)|
    ensures OwnedBy(Run(jobs, ops)[id], owner) ==>
              && OwnedBy(jobs[id], owner)
              && Run(jobs, ops)[id].lease == jobs[id].lease
  {
    RunKeeps(jobs, ops);
    if ops != [] {
      var init, last := ops[..|ops| - 1], ops[|ops| - 1];
      LeaseNotExtended(jobs, init, id, owner);
      RunKeeps(jobs, init);
      StepLease(Run(jobs, init), last, id, owner);
    }
  }

  lemma StepLease(jobs: Jobs, op: Op, id: nat, owner: string)
    requires Good(jobs) && id < |jobs| && !By(op, owner)
    ensures id < |Apply(jobs, op)|
    ensures OwnedBy(Apply(jobs, op)[id], owner) ==> OwnedBy(jobs[id], owner) && Apply(jobs, op)[id].lease == jobs[id].lease
  {
    ApplyKeeps(jobs, op);
    match op
    case DoClaim(other, now, duration, locked) => ClaimOthers(jobs, other, now, duration, locked, id, owner);
    case _ =>
  }

  /** The worker's calls on the job it claimed: each takes effect exactly when the job still runs under
      its unexpired lease, and then nobody claimed the job since and the attempt count is the claimed
      one; otherwise nothing changes. */
  lemma Fencing(jobs: Jobs, claim: Op, ops: seq<Op>, id: nat, op: Op)
    requires Good(jobs) && claim.DoClaim? && Takes(jobs, claim, id)
    requires forall i | 0 <= i < |ops| :: !ClaimsFor(ops[i], claim.owner)
    requires op.DoRenew? || op.DoComplete? || op.DoFail? || op.DoWrite?
    requires op.id == id && op.owner == claim.owner
    ensures var claimed := Apply(jobs, claim);
            var s := Run(claimed, ops);
            var now := if op.DoWrite? then op.change.now else op.now;
            && id < |claimed| && id < |s|
            && (Holds(s, id, claim.owner, now) ==>
                  && NeverTaken(claimed, ops, id) && s[id].attempts == claimed[id].attempts
                  && s[id].lease.value.expiresAt > now
                  && Apply(s, op)[id].attempts == s[id].attempts && forall k | 0 <= k < |s| && k != id :: Apply(s, op)[k] == s[k])
            && (!Holds(s, id, claim.owner, now) ==> Apply(s, op) == s)
            && (op.DoComplete? || op.DoFail? || op.DoWrite? ==> (Holds(s, id, claim.owner, now) <==> Apply(s, op)[id] != s[id]))
  {
    var claimed := Apply(jobs, claim);
    ApplyKeeps(jobs, claim);
    HoldIsOld(claimed, ops, id, claim.owner);
  }

  /** `finalize` decides on an unlocked read and writes later. Whatever others do in between, it ends as
      an indivisible finalize at the moment of the write would: the same new table, or nothing. */
  lemma SplitFinalizeIsAtomic(jobs: Jobs, between: seq<Op>, id: nat, owner: string, o: HandlerOutcome, jitter: int, now: int)
    requires Good(jobs) && id < |jobs|
    requires forall i | 0 <= i < |between| :: !By(between[i], owner)
    ensures var s := Run(jobs, between);
            var whole := Finalize(s, id, owner, o, jitter, now);
            match Read(jobs, id, owner, o, jitter, now)
            case Ok(c) => Write(s, id, owner, c).0 == whole.0 && (Write(s, id, owner, c).1.Ok? <==> whole.1.Ok?)
            case Err(_) => whole.0 == s && whole.1.Err?
  {
    hide Changed, Run;
    var s := Run(jobs, between);
    LeaseNotExtended(jobs, between, id, owner);
    HoldIsOld(jobs, between, id, owner);
    if Holds(s, id, owner, now) {
      assert Holds(jobs, id, owner, now);
      SameDecision(jobs[id], s[id], o, jitter, now);
    }
  }

  lemma SameDecision(a: Job, b: Job, o: HandlerOutcome, jitter: int, now: int)
    requires a.attempts == b.attempts && a.policy == b.policy
    ensures Decide(a, o, jitter, now) == Decide(b, o, jitter, now)
  {
  }
}
