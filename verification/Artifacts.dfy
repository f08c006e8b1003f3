/** Artifact rows, the object store behind them, and the storage service.
    Rows are append-only and a row's id is its index; the object key of row `i` is `Own(i)`.
    `h` is the content hash, passed in as a function. */
module Artifacts {
  import opened Options

  type Digest = string
  type Bytes = seq<bv8>

  datatype State = Pending | Finalized | Missing | Divergent

  datatype Artifact = Artifact(key: string, mime: string, state: State, digest: Digest, size: Option<nat>)

  datatype ObjectKey = Own(id: nat) | Foreign(name: string)

  datatype Object = Object(bytes: Bytes, digest: Digest)

  datatype Error = InvalidMetadata | NotPending | TooLarge | IntegrityFailed | Conflict | NotFinalizable | NotReadable

  datatype Report = Report(pending: nat, missing: nat, divergent: nat, orphans: nat)

  type Rows = seq<Artifact>
  type Objects = map<ObjectKey, Object>

  // ---------- row operations, one per transaction ----------

  function NewArtifact(key: string, mime: string): Artifact {
    Artifact(key, mime, Pending, "", None)
  }

  /** `_finalize` on the row `id`: the id of the row that owns the content, or the error raised. */
  function FinalizeRow(rows: Rows, id: nat, digest: Digest, size: nat): (Rows, Result<nat, Error>)
    requires id < |rows|
  {
    var a := rows[id];
    match a.state
    case Finalized =>
      (rows, if a.digest == digest && a.size == Some(size) then Ok(id) else Err(Conflict))
    case Pending =>
      (match FinalizedOwner(rows, a.key)
       case None =>
         (rows[id := a.(state := Finalized, digest := digest, size := Some(size))], Ok(id))
       case Some(o) =>
         (rows, if rows[o].digest == digest && rows[o].size == Some(size) then Ok(o) else Err(Conflict)))
    case _ => (rows, Err(NotFinalizable))
  }

  /** The first finalized row of a logical key. */
  function FinalizedOwner(rows: Rows, key: string): (r: Option<nat>)
    ensures r.Some? ==> r.value < |rows| && rows[r.value].state == Finalized && rows[r.value].key == key
    ensures r.None? ==> forall i | 0 <= i < |rows| :: rows[i].state == Finalized ==> rows[i].key != key
  {
    if rows == [] then None
    else
      match FinalizedOwner(rows[..|rows| - 1], key)
      case Some(i) => Some(i)
      case None =>
        var last := rows[|rows| - 1];
        if last.state == Finalized && last.key == key then Some(|rows| - 1) else None
  }

  /** The oldest row of a logical key, whatever its state. */
  function FirstOf(rows: Rows, key: string): (r: Option<nat>)
    ensures r.Some? ==> r.value < |rows| && rows[r.value].key == key
                        && forall i | 0 <= i < r.value :: rows[i].key != key
    ensures r.None? ==> forall i | 0 <= i < |rows| :: rows[i].key != key
  {
    if rows == [] then None
    else
      match FirstOf(rows[..|rows| - 1], key)
      case Some(i) => Some(i)
      case None => if rows[|rows| - 1].key == key then Some(|rows| - 1) else None
  }

  /** `_mark_problem`: only a finalized row is touched. */
  function MarkRow(rows: Rows, id: nat, problem: State): Rows
    requires id < |rows|
  {
    if rows[id].state == Finalized then rows[id := rows[id].(state := problem)] else rows
  }

  // ---------- whole runs over the rows ----------

  datatype Op =
    | Begin(key: string, mime: string)
    | Finalize(id: nat, digest: Digest, size: nat)
    | Mark(id: nat, problem: State)

  function Apply(rows: Rows, op: Op): Rows {
    match op
    case Begin(key, mime) => rows + [NewArtifact(key, mime)]
    case Finalize(id, digest, size) => if id < |rows| then FinalizeRow(rows, id, digest, size).0 else rows
    case Mark(id, problem) =>
      if id < |rows| && (problem == Missing || problem == Divergent) then MarkRow(rows, id, problem) else rows
  }

  function Run(rows: Rows, ops: seq<Op>): Rows
    decreases |ops|
  {
    if ops == [] then rows else Run(Apply(rows, ops[0]), ops[1..])
  }

  ghost predicate OneFinalizedPerKey(rows: Rows) {
    forall i, j | 0 <= i < j < |rows| && rows[i].state == Finalized && rows[j].state == Finalized ::
      rows[i].key != rows[j].key
  }

  ghost predicate RowOk(a: Artifact) {
    if a.state == Pending then a.digest == "" && a.size == None else a.size.Some?
  }

  ghost predicate Valid(rows: Rows) {
    OneFinalizedPerKey(rows) && forall i | 0 <= i < |rows| :: RowOk(rows[i])
  }

  /** How a row may differ later on: it keeps its key; content is written once, on leaving Pending;
      Missing and Divergent are final and Finalized can only become one of them. */
  predicate RowEvolves(a: Artifact, b: Artifact) {
    && a.key == b.key && a.mime == b.mime
    && (a.state != Pending ==> b.state != Pending && b.digest == a.digest && b.size == a.size)
    && (a.state == Missing || a.state == Divergent ==> b == a)
  }

  ghost predicate Evolves(old_: Rows, new_: Rows) {
    |old_| <= |new_| && forall i | 0 <= i < |old_| :: RowEvolves(old_[i], new_[i])
  }

  lemma EvolvesTransitive(a: Rows, b: Rows, c: Rows)
    requires Evolves(a, b) && Evolves(b, c)
    ensures Evolves(a, c)
  {
    forall i | 0 <= i < |a| ensures RowEvolves(a[i], c[i]) {
      assert RowEvolves(a[i], b[i]) && RowEvolves(b[i], c[i]);
    }
  }

  lemma ApplyKeeps(rows: Rows, op: Op)
    requires Valid(rows)
    ensures Valid(Apply(rows, op)) && Evolves(rows, Apply(rows, op))
  {
    var next := Apply(rows, op);
    forall i | 0 <= i < |next| ensures RowOk(next[i]) {
      assert i < |rows| ==> RowOk(rows[i]);
    }
  }

  /** Over every run: at most one finalized row per logical key, digest and size written once on
      Pending to Finalized, no way back from Missing or Divergent, no row lost. */
  lemma {:induction false} RunKeeps(rows: Rows, ops: seq<Op>)
    requires Valid(rows)
    ensures Valid(Run(rows, ops)) && Evolves(rows, Run(rows, ops))
    decreases |ops|
  {
    if ops != [] {
      ApplyKeeps(rows, ops[0]);
      RunKeeps(Apply(rows, ops[0]), ops[1..]);
      EvolvesTransitive(rows, Apply(rows, ops[0]), Run(rows, ops));
    }
  }

  // ---------- reconciliation as a specification ----------

  predicate HeadMatches(objects: Objects, rows: Rows, i: nat)
    requires i < |rows|
  {
    && Own(i) in objects
    && rows[i].size == Some(|objects[Own(i)].bytes|)
    && objects[Own(i)].digest == rows[i].digest
  }

  /** What one pass of `reconcile` makes of a row. */
  function Reconciled(objects: Objects, rows: Rows, i: nat): Artifact
    requires i < |rows|
  {
    if rows[i].state != Finalized || HeadMatches(objects, rows, i) then rows[i]
    else rows[i].(state := if Own(i) !in objects then Missing else Divergent)
  }

  function ReconciledRows(objects: Objects, rows: Rows): (r: Rows)
    ensures |r| == |rows|
  {
    seq(|rows|, i requires 0 <= i < |rows| => Reconciled(objects, rows, i))
  }

  /** Rows below `n` that a pass turns from Finalized into `problem`. */
  function Turned(objects: Objects, rows: Rows, problem: State, n: nat): nat
    requires n <= |rows|
  {
    if n == 0 then 0
    else Turned(objects, rows, problem, n - 1)
         + (if Turns(objects, rows, problem, n - 1) then 1 else 0)
  }

  /** Row `i` is finalized and the pass leaves it in the state `problem`. */
  predicate Turns(objects: Objects, rows: Rows, problem: State, i: nat) {
    i < |rows| && rows[i].state == Finalized && Reconciled(objects, rows, i).state == problem
  }

  function CountPending(rows: Rows): nat {
    if rows == [] then 0
    else CountPending(rows[..|rows| - 1]) + (if rows[|rows| - 1].state == Pending then 1 else 0)
  }

  lemma {:induction false} NothingTurned(objects: Objects, rows: Rows, problem: State, n: nat)
    requires n <= |rows| && problem != Finalized
    requires forall i | 0 <= i < n :: rows[i].state == Finalized ==> HeadMatches(objects, rows, i)
    ensures Turned(objects, rows, problem, n) == 0
  {
    if n > 0 {
      NothingTurned(objects, rows, problem, n - 1);
    }
  }

  lemma {:induction false} SamePending(objects: Objects, rows: Rows, n: nat)
    requires n <= |rows|
    ensures CountPending(ReconciledRows(objects, rows)[..n]) == CountPending(rows[..n])
  {
    if n > 0 {
      var a, b := ReconciledRows(objects, rows)[..n], rows[..n];
      assert a[..n - 1] == ReconciledRows(objects, rows)[..n - 1];
      assert b[..n - 1] == rows[..n - 1];
      SamePending(objects, rows, n - 1);
    }
  }

  /** A second pass over an untouched store finds nothing new and changes nothing;
      the pending count is the one of the first pass. */
  lemma SecondReconcileFindsNothing(objects: Objects, rows: Rows)
    ensures var once := ReconciledRows(objects, rows);
            && ReconciledRows(objects, once) == once
            && Turned(objects, once, Missing, |once|) == 0
            && Turned(objects, once, Divergent, |once|) == 0
            && CountPending(once) == CountPending(rows)
  {
    var once := ReconciledRows(objects, rows);
    forall i | 0 <= i < |once| ensures once[i].state == Finalized ==> HeadMatches(objects, once, i) {
      assert once[i] == Reconciled(objects, rows, i);
    }
    NothingTurned(objects, once, Missing, |once|);
    NothingTurned(objects, once, Divergent, |once|);
    assert ReconciledRows(objects, once) == once;
    SamePending(objects, rows, |rows|);
    assert once[..|rows|] == once && rows[..|rows|] == rows;
  }

  function Flatten(chunks: seq<Bytes>): Bytes {
    if chunks == [] then [] else Flatten(chunks[..|chunks| - 1]) + chunks[|chunks| - 1]
  }

  lemma {:induction false} FlattenMonotone(chunks: seq<Bytes>, n: nat)
    requires n <= |chunks|
    ensures |Flatten(chunks[..n])| <= |Flatten(chunks)|
    decreases |chunks| - n
  {
    if n == |chunks| {
      assert chunks[..n] == chunks;
    } else {
      assert chunks[..n + 1][..n] == chunks[..n];
      FlattenMonotone(chunks, n + 1);
    }
  }

  // ---------- what is stored can be read ----------

  predicate Holds(a: Artifact, key: string, digest: Digest, size: nat) {
    a.state == Finalized && a.key == key && a.digest == digest && a.size == Some(size)
  }

  predicate Unowned(rows: Rows, key: string) {
    forall i | 0 <= i < |rows| :: !(rows[i].key == key && rows[i].state == Finalized)
  }

  /** The row is finalized for these bytes and its own object has them. */
  predicate Stored(rows: Rows, objects: Objects, h: Bytes -> Digest, id: nat, bytes: Bytes) {
    && id < |rows| && rows[id].state == Finalized && rows[id].digest == h(bytes) && rows[id].size == Some(|bytes|)
    && Own(id) in objects && objects[Own(id)] == Object(bytes, h(bytes))
  }

  /** What a pass may make of a row: only a finalized one whose object is gone or differs in size or
      digest changes, and only its state. */
  predicate Judged(objects: Objects, a: Artifact, b: Artifact, i: nat) {
    if a.state != Finalized then b == a
    else if Own(i) !in objects then b == a.(state := Missing)
    else if Some(|objects[Own(i)].bytes|) != a.size || objects[Own(i)].digest != a.digest then b == a.(state := Divergent)
    else b == a
  }

  function TurnedRows(objects: Objects, rows: Rows, problem: State, n: nat): set<nat> {
    set i: nat | i < n && Turns(objects, rows, problem, i)
  }

  function PendingRows(rows: Rows, n: nat): set<nat>
    requires n <= |rows|
  {
    set i: nat | i < n && rows[i].state == Pending
  }

  /** The pass counts exactly the rows it turned, and the rows it found pending. */
  lemma {:induction false} TurnedCounts(objects: Objects, rows: Rows, problem: State, n: nat)
    requires n <= |rows|
    ensures Turned(objects, rows, problem, n) == |TurnedRows(objects, rows, problem, n)|
  {
    hide Turns;
    if n > 0 {
      TurnedCounts(objects, rows, problem, n - 1);
      var init := TurnedRows(objects, rows, problem, n - 1);
      assert TurnedRows(objects, rows, problem, n) == if Turns(objects, rows, problem, n - 1) then init + {n - 1} else init;
    }
  }

  lemma {:induction false} PendingCounts(rows: Rows, n: nat)
    requires n <= |rows|
    ensures CountPending(rows[..n]) == |PendingRows(rows, n)|
  {
    if n > 0 {
      PendingCounts(rows, n - 1);
      assert rows[..n][..n - 1] == rows[..n - 1];
      var init := PendingRows(rows, n - 1);
      assert PendingRows(rows, n) == if rows[n - 1].state == Pending then init + {n - 1} else init;
    }
  }

  /** `_finalize` on a valid table: a pending row of an unowned key takes the content, one of an owned key
      yields the owner if it has the same content, and everything else is refused without a change. */
  lemma FinalizeExactly(rows: Rows, id: nat, digest: Digest, size: nat)
    requires id < |rows| && Valid(rows)
    ensures var (t, r) := FinalizeRow(rows, id, digest, size);
            var key := rows[id].key;
            && (r.Ok? ==> r.value < |t| && Holds(t[r.value], key, digest, size))
            && (if rows[id].state == Pending && Unowned(rows, key) then
                  t == rows[id := Artifact(key, rows[id].mime, Finalized, digest, Some(size))] && r == Ok(id)
                else
                  && t == rows
                  && (r.Ok? <==> (rows[id].state == Pending || rows[id].state == Finalized)
                                 && exists o :: 0 <= o < |rows| && Holds(rows[o], key, digest, size)))
  {
    if rows[id].state == Pending && FinalizedOwner(rows, rows[id].key).Some? {
      var o := FinalizedOwner(rows, rows[id].key).value;
      assert rows[o].key == rows[id].key && rows[o].state == Finalized;
    } else if rows[id].state == Finalized {
      assert Holds(rows[id], rows[id].key, rows[id].digest, rows[id].size.value) by { assert RowOk(rows[id]); }
    }
  }

  /** The bytes of a stream are those of its chunks, in order. */
  lemma {:induction false} FlattenJoins(a: seq<Bytes>, b: seq<Bytes>)
    ensures Flatten([]) == [] && Flatten(a + b) == Flatten(a) + Flatten(b)
    ensures forall chunk: Bytes :: Flatten([chunk]) == chunk
  {
    forall chunk: Bytes ensures Flatten([chunk]) == chunk {
      assert [chunk][..0] == [];
    }
    if b == [] {
      assert a + b == a;
    } else {
      FlattenJoins(a, b[..|b| - 1]);
      assert (a + b)[..|a + b| - 1] == a + b[..|b| - 1];
    }
  }

  // ---------- the service ----------

  class ArtifactStorageService {
    const h: Bytes -> Digest
    const maximumSize: nat
    var rows: Rows
    var objects: Objects

    constructor (h: Bytes -> Digest, maximumSize: nat)
      ensures this.h == h && this.maximumSize == maximumSize && rows == [] && objects == map[]
    {
      this.h, this.maximumSize := h, maximumSize;
      rows, objects := [], map[];
    }

    method Begin(logicalClass: string, key: string, mime: string) returns (r: Result<nat, Error>)
      modifies this`rows
      ensures r.Err? <==> logicalClass == "" || key == "" || mime == ""
                          || |logicalClass| > 64 || |key| > 255 || |mime| > 255
      ensures r.Err? ==> r == Err(InvalidMetadata) && rows == old(rows)
      ensures r.Ok? ==> r.value == |old(rows)| && rows == old(rows) + [Artifact(key, mime, Pending, "", None)]
      ensures r.Ok? ==> rows == Apply(old(rows), Op.Begin(key, mime))
    {
      if logicalClass == "" || key == "" || mime == "" || |logicalClass| > 64 || |key| > 255 || |mime| > 255 {
        return Err(InvalidMetadata);
      }
      r := Ok(|rows|);
      rows := rows + [NewArtifact(key, mime)];
    }

    /** `write_stream`: the chunks are summed while they are read and refused above the limit. */
    method WriteStream(id: nat, chunks: seq<Bytes>) returns (r: Result<Object, Error>)
      modifies this`objects
      ensures |Flatten(chunks)| > maximumSize ==> r == Err(TooLarge) && objects == old(objects)
      ensures |Flatten(chunks)| <= maximumSize ==>
                && r == Ok(Object(Flatten(chunks), h(Flatten(chunks))))
                && objects == old(objects)[Own(id) := r.value]
    {
      var staged: Bytes := [];
      for n := 0 to |chunks|
        invariant staged == Flatten(chunks[..n]) && |staged| <= maximumSize
        invariant objects == old(objects)
      {
        assert chunks[..n + 1][..n] == chunks[..n];
        if |staged| + |chunks[n]| > maximumSize {
          FlattenMonotone(chunks, n + 1);
          return Err(TooLarge);
        }
        staged := staged + chunks[n];
      }
      assert chunks[..|chunks|] == chunks;
      var written := Object(staged, h(staged));
      objects := objects[Own(id) := written];
      r := Ok(written);
    }

    /** `transmit`. `headFails` is the store refusing or altering the confirmation read. */
    method Transmit(id: nat, chunks: seq<Bytes>, headFails: bool) returns (r: Result<nat, Error>)
      requires id < |rows|
      modifies this
      ensures old(rows[id]).state != Pending ==> r == Err(NotPending) && rows == old(rows) && objects == old(objects)
      ensures r.Ok? ==>
                var bytes := Flatten(chunks);
                && old(rows[id]).state == Pending && !headFails && |bytes| <= maximumSize
                && (rows, r) == FinalizeRow(old(rows), id, h(bytes), |bytes|)
                && objects == old(objects)[Own(id) := Object(bytes, h(bytes))]
                && r.value < |rows| && Holds(rows[r.value], old(rows[id]).key, h(bytes), |bytes|)
                && (r.value == id <==> Unowned(old(rows), old(rows[id]).key))
                && (r.value == id ==> Stored(rows, objects, h, id, bytes))
                && (r.value != id ==> rows == old(rows))
                && |rows| == |old(rows)| && forall k | 0 <= k < |rows| && k != id :: rows[k] == old(rows)[k]
      ensures forall k, bytes | k != id && Stored(old(rows), old(objects), h, k, bytes) :: Stored(rows, objects, h, k, bytes)
      ensures r.Err? ==> rows == old(rows)
      ensures old(rows[id]).state == Pending && |Flatten(chunks)| > maximumSize ==>
                r == Err(TooLarge) && objects == old(objects)
      ensures old(rows[id]).state == Pending && |Flatten(chunks)| <= maximumSize && headFails ==>
                && r == Err(IntegrityFailed)
                && objects == old(objects)[Own(id) := Object(Flatten(chunks), h(Flatten(chunks)))]
      ensures r.Err? && old(rows[id]).state == Pending && !headFails && |Flatten(chunks)| <= maximumSize ==>
                r.error == Conflict && exists o :: 0 <= o < |rows| && rows[o].key == rows[id].key && rows[o].state == Finalized
                                                   && !Holds(rows[o], rows[id].key, h(Flatten(chunks)), |Flatten(chunks)|)
    {
      if rows[id].state != Pending {
        return Err(NotPending);
      }
      var written := WriteStream(id, chunks);
      if written.Err? {
        return Err(written.error);
      }
      if headFails {
        return Err(IntegrityFailed);
      }
      var outcome := FinalizeRow(rows, id, written.value.digest, |written.value.bytes|);
      rows := outcome.0;
      r := outcome.1;
    }

    /** `read_verified`: bytes come back only when they match the recorded digest and size; no row changes. */
    method ReadVerified(id: nat) returns (r: Result<Bytes, Error>)
      requires id < |rows|
      ensures r.Ok? <==> rows[id].state == Finalized && Own(id) in objects
                         && rows[id].size == Some(|objects[Own(id)].bytes|)
                         && h(objects[Own(id)].bytes) == rows[id].digest
      ensures r.Ok? ==> r.value == objects[Own(id)].bytes
      ensures r.Err? ==> r.error == NotReadable
      ensures forall bytes | Stored(rows, objects, h, id, bytes) :: r == Ok(bytes)
    {
      if rows[id].state != Finalized || Own(id) !in objects {
        return Err(NotReadable);
      }
      var payload := objects[Own(id)].bytes;
      if rows[id].size != Some(|payload|) || h(payload) != rows[id].digest {
        return Err(NotReadable);
      }
      r := Ok(payload);
    }

    /** `open_verified`: as above, and a failed check marks the row. */
    method OpenVerified(id: nat) returns (r: Result<Bytes, Error>)
      requires id < |rows|
      modifies this`rows
      ensures r.Ok? <==> old(rows[id]).state == Finalized && Own(id) in objects
                         && old(rows[id]).size == Some(|objects[Own(id)].bytes|)
                         && h(objects[Own(id)].bytes) == old(rows[id]).digest
      ensures r.Ok? ==> r.value == objects[Own(id)].bytes && rows == old(rows)
      ensures r.Err? && old(rows[id]).state != Finalized ==> rows == old(rows)
      ensures r.Err? ==> r.error == NotReadable
      ensures r.Err? && old(rows[id]).state == Finalized ==>
                rows == old(rows)[id := old(rows[id]).(state := if Own(id) in objects then Divergent else Missing)]
      ensures forall bytes | Stored(old(rows), objects, h, id, bytes) :: r == Ok(bytes)
    {
      if rows[id].state != Finalized {
        return Err(NotReadable);
      }
      if Own(id) !in objects {
        rows := MarkRow(rows, id, Missing);
        return Err(NotReadable);
      }
      var payload := objects[Own(id)].bytes;
      if rows[id].size != Some(|payload|) || h(payload) != rows[id].digest {
        rows := MarkRow(rows, id, Divergent);
        return Err(NotReadable);
      }
      r := Ok(payload);
    }

    /** `reconcile`: one pass over the finalized rows, marking and counting. */
    method Reconcile() returns (report: Report)
      modifies this`rows
      ensures rows == ReconciledRows(objects, old(rows))
      ensures |rows| == |old(rows)| && forall i | 0 <= i < |rows| :: Judged(objects, old(rows)[i], rows[i], i)
      ensures forall k, bytes | Stored(old(rows), objects, h, k, bytes) :: Stored(rows, objects, h, k, bytes)
      ensures report.missing == Turned(objects, old(rows), Missing, |old(rows)|)
      ensures report.divergent == Turned(objects, old(rows), Divergent, |old(rows)|)
      ensures report.pending == CountPending(old(rows))
      ensures report.orphans == |set k | k in objects && !(k.Own? && k.id < |old(rows)|)|
    {
      var orphans := |set k | k in objects && !(k.Own? && k.id < |rows|)|;
      var pending := CountPending(rows);
      var missing, divergent := 0, 0;
      ghost var before := rows;
      for i := 0 to |rows|
        invariant |rows| == |before|
        invariant forall k | 0 <= k < i :: rows[k] == Reconciled(objects, before, k)
        invariant forall k | i <= k < |rows| :: rows[k] == before[k]
        invariant missing == Turned(objects, before, Missing, i)
        invariant divergent == Turned(objects, before, Divergent, i)
      {
        if rows[i].state == Finalized {
          if Own(i) !in objects {
            rows := MarkRow(rows, i, Missing);
            missing := missing + 1;
          } else if rows[i].size != Some(|objects[Own(i)].bytes|) || objects[Own(i)].digest != rows[i].digest {
            rows := MarkRow(rows, i, Divergent);
            divergent := divergent + 1;
          }
        }
      }
      report := Report(pending, missing, divergent, orphans);
    }
  }
}
