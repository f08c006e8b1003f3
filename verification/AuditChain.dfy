/** The audit hash chain: appending events, verifying a list of them, and what an accepted list proves.
    The hash (SHA-256 over canonical fields) is a parameter; tamper evidence assumes it injective. */
module AuditChain {
  import opened Options

  /** Every hashed field. `context` is the redacted JSON, taken as an opaque value. */
  datatype Payload = Payload(
    sequence: int, occurredAt: int, actor: Option<string>, role: string, ip: Option<string>, action: string,
    entityType: string, entity: string, result: string, reason: string, correlation: string, context: string,
    previousHash: string)

  /** A row: the hashed fields and the stored hash. */
  datatype Event = Event(fields: Payload, eventHash: string)

  type Hash = Payload -> string

  datatype Entry = Entry(
    actor: Option<string>, role: string, ip: string, action: string, entityType: string, entity: string,
    result: string, reason: string, correlation: string, context: string)

  datatype Chain = Chain(lastSequence: int, lastHash: string)

  datatype Log = Log(chain: Option<Chain>, events: seq<Event>)

  datatype Failure = MissingReason | Unavailable

  datatype Issue = SequenceIssue | HashIssue

  datatype Report = Report(valid: bool, checked: nat, issue: Option<Issue>, sequence: Option<int>)

  const GENESIS := "0000000000000000000000000000000000000000000000000000000000000000"

  predicate RequiresReason(action: string) {
    || action == "user.deactivate" || action == "company.deactivate" || action == "user.password_reset"
    || action == "user.role_change" || action == "document.delete"
  }

  predicate IsSpace(c: char) {
    c == ' ' || '\t' <= c <= '\r' || '\U{1c}' <= c <= '\U{1f}'
  }

  function TrimLeft(s: string): string {
    if s != "" && IsSpace(s[0]) then TrimLeft(s[1..]) else s
  }

  function TrimRight(s: string): string {
    if s != "" && IsSpace(s[|s| - 1]) then TrimRight(s[..|s| - 1]) else s
  }

  function Strip(s: string): string {
    TrimRight(TrimLeft(s))
  }

  // ---------- append ----------

  function Head(log: Log): Chain {
    if log.chain.Some? then log.chain.value else Chain(0, GENESIS)
  }

  function NewPayload(e: Entry, head: Chain, now: int): Payload {
    Payload(head.lastSequence + 1, now, e.actor, e.role, if e.ip == "" then None else Some(e.ip), e.action,
            e.entityType, e.entity, e.result, Strip(e.reason), e.correlation, e.context, head.lastHash)
  }

  /** The unique constraints on sequence and hash. */
  predicate Clashes(events: seq<Event>, x: Event) {
    exists i | 0 <= i < |events| :: events[i].fields.sequence == x.fields.sequence || events[i].eventHash == x.eventHash
  }

  /** `append`; a constraint violation aborts the transaction. */
  function Append(log: Log, hash: Hash, e: Entry, now: int): (Log, Result<Event, Failure>) {
    if RequiresReason(e.action) && Strip(e.reason) == "" then (log, Err(MissingReason))
    else
      var p := NewPayload(e, Head(log), now);
      var x := Event(p, hash(p));
      if Clashes(log.events, x) then (log, Err(Unavailable))
      else (Log(Some(Chain(p.sequence, x.eventHash)), log.events + [x]), Ok(x))
  }

  // ---------- verify ----------

  function HashBefore(rows: seq<Event>, i: nat): string
    requires i <= |rows|
  {
    if i == 0 then GENESIS else rows[i - 1].eventHash
  }

  predicate InSequence(rows: seq<Event>, i: nat)
    requires i < |rows|
  {
    rows[i].fields.sequence == i + 1
  }

  predicate Links(rows: seq<Event>, hash: Hash, i: nat)
    requires i < |rows|
  {
    rows[i].fields.previousHash == HashBefore(rows, i) && rows[i].eventHash == hash(rows[i].fields)
  }

  predicate SoundAt(rows: seq<Event>, hash: Hash, i: nat)
    requires i < |rows|
  {
    InSequence(rows, i) && Links(rows, hash, i)
  }

  /** A list the verifier accepts. */
  ghost predicate Accepted(rows: seq<Event>, hash: Hash) {
    forall i | 0 <= i < |rows| :: SoundAt(rows, hash, i)
  }

  class AuditVerifier {
    /** Accepts exactly the sound lists; otherwise `checked` is the length of the longest sound prefix
        and the first unsound row says why. */
    static method Verify(rows: seq<Event>, hash: Hash) returns (r: Report)
      ensures r.valid <==> Accepted(rows, hash)
      ensures r.valid ==> r == Report(true, |rows|, None, None)
      ensures !r.valid ==>
                && r.checked < |rows| && Accepted(rows[..r.checked], hash) && !SoundAt(rows, hash, r.checked)
                && r.sequence == Some(rows[r.checked].fields.sequence)
                && r.issue == Some(if InSequence(rows, r.checked) then HashIssue else SequenceIssue)
    {
      var previousHash, expectedSequence := GENESIS, 1;
      while expectedSequence <= |rows|
        invariant 1 <= expectedSequence <= |rows| + 1
        invariant previousHash == HashBefore(rows, expectedSequence - 1)
        invariant forall k | 0 <= k < expectedSequence - 1 :: SoundAt(rows, hash, k)
      {
        var row := rows[expectedSequence - 1];
        if row.fields.sequence != expectedSequence {
          PrefixAccepted(rows, hash, expectedSequence - 1);
          assert !SoundAt(rows, hash, expectedSequence - 1);
          return Report(false, expectedSequence - 1, Some(SequenceIssue), Some(row.fields.sequence));
        }
        var payload := row.fields.(previousHash := previousHash);
        if row.fields.previousHash != previousHash || row.eventHash != hash(payload) {
          PrefixAccepted(rows, hash, expectedSequence - 1);
          assert !SoundAt(rows, hash, expectedSequence - 1);
          return Report(false, expectedSequence - 1, Some(HashIssue), Some(row.fields.sequence));
        }
        previousHash := row.eventHash;
        expectedSequence := expectedSequence + 1;
      }
      return Report(true, |rows|, None, None);
    }
  }

  lemma PrefixAccepted(rows: seq<Event>, hash: Hash, n: nat)
    requires n <= |rows| && forall k | 0 <= k < n :: SoundAt(rows, hash, k)
    ensures Accepted(rows[..n], hash)
  {
    forall i | 0 <= i < n ensures SoundAt(rows[..n], hash, i) {
      assert SoundAt(rows, hash, i);
    }
  }

  // ---------- the service ----------

  class AuditService {
    const hash: Hash
    var chain: Option<Chain>
    var events: seq<Event>

    function State(): Log
      reads this
    {
      Log(chain, events)
    }

    constructor (h: Hash)
      ensures hash == h && State() == Log(None, [])
    {
      hash, chain, events := h, None, [];
    }

    method AppendEvent(e: Entry, now: int) returns (r: Result<Event, Failure>)
      modifies this`chain, this`events
      ensures (State(), r) == Append(old(State()), hash, e, now)
    {
      hide Clashes, Strip;
      if RequiresReason(e.action) && Strip(e.reason) == "" {
        return Err(MissingReason);
      }
      var head := if chain.Some? then chain.value else Chain(0, GENESIS);
      var payload := Payload(
        sequence := head.lastSequence + 1, occurredAt := now, actor := e.actor, role := e.role,
        ip := if e.ip == "" then None else Some(e.ip), action := e.action, entityType := e.entityType, entity := e.entity,
        result := e.result, reason := Strip(e.reason), correlation := e.correlation, context := e.context,
        previousHash := head.lastHash);
      var event := Event(payload, hash(payload));
      if Clashes(events, event) {
        return Err(Unavailable);
      }
      events := events + [event];
      chain := Some(Chain(payload.sequence, event.eventHash));
      return Ok(event);
    }
  }

  // ---------- runs of append ----------

  ghost predicate Injective(hash: Hash) {
    forall a, b | hash(a) == hash(b) :: a == b
  }

  datatype Attempt = Attempt(entry: Entry, now: int)

  function Run(log: Log, hash: Hash, attempts: seq<Attempt>): Log {
    if attempts == [] then log
    else
      var last := attempts[|attempts| - 1];
      Append(Run(log, hash, attempts[..|attempts| - 1]), hash, last.entry, last.now).0
  }

  /** The chain row holds the length and last hash of an accepted log. */
  ghost predicate InStep(log: Log, hash: Hash) {
    Accepted(log.events, hash) && Head(log) == Chain(|log.events|, HashBefore(log.events, |log.events|))
  }

  /** The row says who did what to which entity, when, from where, with which result, why and in which context. */
  predicate Tells(p: Payload, e: Entry, now: int) {
    && p.occurredAt == now && p.actor == e.actor && p.role == e.role && p.ip == (if e.ip == "" then None else Some(e.ip))
    && p.action == e.action && p.entityType == e.entityType && p.entity == e.entity && p.result == e.result
    && p.reason == Strip(e.reason) && p.correlation == e.correlation && p.context == e.context
  }

  /** Exactly these actions need a reason that is more than space. */
  lemma ReasonRequired(e: Entry)
    ensures RequiresReason(e.action) <==>
              e.action in {"user.deactivate", "company.deactivate", "user.password_reset", "user.role_change", "document.delete"}
    ensures Strip(e.reason) == "" <==> forall i | 0 <= i < |e.reason| :: IsSpace(e.reason[i])
  {
    var i, n := StripExactly(e.reason);
  }

  lemma {:induction false} LeftMargin(s: string) returns (n: nat)
    ensures n <= |s| && TrimLeft(s) == s[n..] && (n < |s| ==> !IsSpace(s[n]))
    ensures forall i | 0 <= i < n :: IsSpace(s[i])
  {
    n := 0;
    if s != "" && IsSpace(s[0]) {
      var rest := LeftMargin(s[1..]);
      n := rest + 1;
      assert forall i | 0 < i < n :: s[i] == s[1..][i - 1];
    }
  }

  lemma {:induction false} RightMargin(s: string) returns (n: nat)
    ensures n <= |s| && TrimRight(s) == s[..n] && (n > 0 ==> !IsSpace(s[n - 1]))
    ensures forall i | n <= i < |s| :: IsSpace(s[i])
  {
    n := |s|;
    if s != "" && IsSpace(s[|s| - 1]) {
      n := RightMargin(s[..|s| - 1]);
    }
  }

  /** Stripping cuts off the space at both ends, and nothing else. */
  lemma StripExactly(s: string) returns (i: nat, n: nat)
    ensures i <= n <= |s| && Strip(s) == s[i..n]
    ensures forall k | 0 <= k < |s| && !(i <= k < n) :: IsSpace(s[k])
    ensures i < n ==> !IsSpace(s[i]) && !IsSpace(s[n - 1])
  {
    i := LeftMargin(s);
    var m := RightMargin(s[i..]);
    n := i + m;
    assert s[i..][..m] == s[i..n];
    assert forall k | n <= k < |s| :: s[k] == s[i..][k - i];
  }

  /** With the log in step, only a missing reason stops an append: no constraint can clash. */
  lemma AppendKeeps(log: Log, hash: Hash, e: Entry, now: int)
    requires Injective(hash) && InStep(log, hash)
    ensures var (t, r) := Append(log, hash, e, now);
            && InStep(t, hash)
            && (r.Ok? <==> !(RequiresReason(e.action) && Strip(e.reason) == ""))
            && (r.Ok? ==>
                  && |t.events| == |log.events| + 1
                  && t.events[..|log.events|] == log.events
                  && t.events[|log.events|] == r.value)
            && (r.Ok? ==> Tells(r.value.fields, e, now) && r.value.fields.sequence == |log.events| + 1)
            && (r.Err? ==> t == log && r.error == MissingReason)
  {
    var p := NewPayload(e, Head(log), now);
    var x := Event(p, hash(p));
    assert p.sequence == |log.events| + 1;
    forall i | 0 <= i < |log.events|
      ensures log.events[i].fields.sequence != x.fields.sequence && log.events[i].eventHash != x.eventHash
    {
      assert SoundAt(log.events, hash, i);
    }
    var t := log.events + [x];
    forall i | 0 <= i < |t| ensures SoundAt(t, hash, i) {
      if i < |log.events| {
        assert SoundAt(log.events, hash, i);
        assert HashBefore(t, i) == HashBefore(log.events, i);
      } else {
        assert HashBefore(t, i) == HashBefore(log.events, i);
      }
    }
  }

  /** Every run of `append` yields a log the verifier accepts, with one row for each attempt that was
      not refused for a missing reason, and with the chain row on its last row. */
  lemma {:induction false} RunAccepted(hash: Hash, attempts: seq<Attempt>)
    requires Injective(hash)
    ensures var log := Run(Log(None, []), hash, attempts); InStep(log, hash) && |log.events| == Kept(attempts)
  {
    if attempts != [] {
      var init, last := attempts[..|attempts| - 1], attempts[|attempts| - 1];
      RunAccepted(hash, init);
      AppendKeeps(Run(Log(None, []), hash, init), hash, last.entry, last.now);
    }
  }

  function Kept(attempts: seq<Attempt>): nat {
    if attempts == [] then 0
    else
      var e := attempts[|attempts| - 1].entry;
      Kept(attempts[..|attempts| - 1]) + (if RequiresReason(e.action) && Strip(e.reason) == "" then 0 else 1)
  }

  // ---------- tamper evidence ----------

  /** Two accepted lists that share a row hash anywhere share it at the same place, and agree on every
      field of every row up to it. */
  lemma {:induction false} SharedHash(a: seq<Event>, b: seq<Event>, hash: Hash, i: nat, j: nat)
    requires Injective(hash) && Accepted(a, hash) && Accepted(b, hash)
    requires i < |a| && j < |b| && a[i].eventHash == b[j].eventHash
    ensures i == j && a[..i + 1] == b[..j + 1]
    decreases i
  {
    assert SoundAt(a, hash, i) && SoundAt(b, hash, j);
    assert a[i] == b[j];
    if i > 0 {
      SharedHash(a, b, hash, i - 1, j - 1);
      assert a[..i + 1] == a[..i] + [a[i]];
      assert b[..j + 1] == b[..j] + [b[j]];
    }
  }

  /** Tamper evidence: accepted lists with the same last hash are the same list, whatever their lengths
      were thought to be. */
  lemma SameLastHash(a: seq<Event>, b: seq<Event>, hash: Hash)
    requires Injective(hash) && Accepted(a, hash) && Accepted(b, hash) && a != [] && b != []
    requires a[|a| - 1].eventHash == b[|b| - 1].eventHash
    ensures a == b
  {
    SharedHash(a, b, hash, |a| - 1, |b| - 1);
    assert a[..|a|] == a && b[..|b|] == b;
  }

  /** Rewriting one row of an accepted list is accepted exactly when it is the last row and the new row
      is itself soundly linked; any earlier rewrite is rejected. */
  lemma RewriteDetected(rows: seq<Event>, hash: Hash, i: nat, x: Event)
    requires Injective(hash) && Accepted(rows, hash) && i < |rows| && x != rows[i]
    ensures Accepted(rows[i := x], hash) <==> i == |rows| - 1 && SoundAt(rows[i := x], hash, i)
  {
    var t := rows[i := x];
    assert SoundAt(rows, hash, i);
    if i < |rows| - 1 {
      assert SoundAt(rows, hash, i + 1);
      assert !(SoundAt(t, hash, i) && SoundAt(t, hash, i + 1));
    } else if SoundAt(t, hash, i) {
      forall k | 0 <= k < |t| ensures SoundAt(t, hash, k) {
        assert SoundAt(rows, hash, k);
      }
    }
  }

  /** Dropping rows is accepted exactly when they are dropped from the end: a list that lost an earlier
      row is rejected, one that lost its tail needs the recorded last hash to be told apart. */
  lemma DropDetected(rows: seq<Event>, hash: Hash, i: nat, j: nat)
    requires Injective(hash) && Accepted(rows, hash) && i < j <= |rows|
    ensures Accepted(rows[..i] + rows[j..], hash) <==> j == |rows|
  {
    var t := rows[..i] + rows[j..];
    if j == |rows| {
      assert t == rows[..i];
      PrefixAccepted(rows, hash, i);
    } else {
      assert t[i] == rows[j];
      assert SoundAt(rows, hash, j);
      assert !SoundAt(t, hash, i);
    }
  }
}
