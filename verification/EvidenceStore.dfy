/** Documents, events and their evidence rows: `persist_document` and `attach_document_evidence`.
    A row is found by its unique identity key, a document also by its id. Evidence only ever grows. */
module EvidenceStore {
  import opened Options
  import A = Artifacts
  import K = IdentityKeys

  type Digest = A.Digest

  datatype Situation = Authorized | Cancelled | Unknown

  datatype Relationship = EventOf | SubstitutionOf

  datatype Kind = PlainDocument | Event | Substitution

  datatype Status = Persisted | Replay | Quarantine | Conflict

  datatype Evidence = Evidence(artifact: nat, digest: Digest, size: nat, conflicting: bool)

  /** A document row, or an event row when `parent` is set. */
  datatype Row = Row(
    id: K.Uuid, naming: K.Naming, selection: K.Selection, parent: Option<string>, relationship: Option<Relationship>,
    emittedAt: int, authorizedAt: Option<int>, situation: Situation,
    conflict: bool, evidence: seq<Evidence>)

  type Table = map<string, Row>

  /** `ids` is the primary key of the documents: the identity key of each id. */
  datatype Store = Store(docs: Table, events: Table, ids: map<string, string>)

  /** `newId` is the random id drawn for the row, should one be inserted. */
  datatype Input = Input(
    naming: K.Naming, identity: K.FiscalIdentity, emittedAt: int, authorizedAt: Option<int>,
    situation: Situation, artifact: nat, origin: string, correlation: string,
    kind: Kind, parent: Option<string>, relationship: Option<Relationship>,
    newId: K.Uuid)

  datatype Outcome =
    | Invalid
    | Done(status: Status, document: Option<string>, event: Option<string>, reason: string)

  const MAX_KEY := 1024

  /** `DocumentInput.validate`. */
  predicate ValidInput(d: Input) {
    && K.ValidNaming(d.naming)
    && K.IsReference(d.origin)
    && (d.correlation != "" ==> K.IsReference(d.correlation))
    && (d.authorizedAt.Some? ==> d.emittedAt <= d.authorizedAt.value)
    && (if d.kind == PlainDocument then d.parent.None? && d.relationship.None?
        else d.parent.Some? && K.IsUuidText(d.parent.value) && d.relationship.Some?)
  }

  /** `_artifact`: only a finalized row with a full hex digest can be evidence. */
  predicate Usable(rows: A.Rows, id: nat) {
    && id < |rows| && rows[id].state == A.Finalized && rows[id].size.Some?
    && IsDigest(rows[id].digest)
  }

  predicate IsDigest(s: string) {
    |s| == 64 && forall i | 0 <= i < 64 :: '0' <= s[i] <= '9' || 'a' <= s[i] <= 'f'
  }

  predicate Holds(row: Row, digest: Digest) {
    exists i | 0 <= i < |row.evidence| :: row.evidence[i].digest == digest
  }

  predicate Attached(row: Row, artifact: nat) {
    exists i | 0 <= i < |row.evidence| :: row.evidence[i].artifact == artifact
  }

  /** The unique (row, artifact) constraint of the evidence tables. */
  function AddEvidence(row: Row, e: Evidence): Result<Row, ()> {
    if Attached(row, e.artifact) then Err(())
    else Ok(row.(evidence := row.evidence + [e], conflict := row.conflict || e.conflicting))
  }

  function NewRow(d: Input, s: K.Selection, e: Evidence): Row {
    Row(d.newId, d.naming, s, d.parent, d.relationship, d.emittedAt, d.authorizedAt, d.situation, false, [e])
  }

  /** Insert, replay or conflict on one key of one table; both tables follow the same three branches. */
  function Record(table: Table, key: string, d: Input, s: K.Selection, digest: Digest, size: nat): (r: (Table, Option<Status>))
    ensures r.1.Some? ==> key in r.0
  {
    if key !in table then
      (table[key := NewRow(d, s, Evidence(d.artifact, digest, size, false))], Some(Persisted))
    else if Holds(table[key], digest) then (table, Some(Replay))
    else
      match AddEvidence(table[key], Evidence(d.artifact, digest, size, true))
      case Ok(row) => (table[key := row], Some(Conflict))
      case Err(_) => (table, None)
  }

  function Reason(v: Status): string {
    if v == Conflict then "content_hash_mismatch" else ""
  }

  /** The document of an id. */
  function DocOf(st: Store, id: string): Option<Row> {
    if id in st.ids && st.ids[id] in st.docs then Some(st.docs[st.ids[id]]) else None
  }

  /** A new row whose id is taken violates the primary key. */
  function PersistPlain(st: Store, key: string, d: Input, s: K.Selection, digest: Digest, size: nat): (Store, Outcome) {
    if |key| > MAX_KEY || (key !in st.docs && d.newId in st.ids) then (st, Invalid)
    else
      var (docs, status) := Record(st.docs, key, d, s, digest, size);
      match status
      case None => (st, Invalid)
      case Some(v) =>
        (st.(docs := docs, ids := if key in st.docs then st.ids else st.ids[d.newId := key]),
         Done(v, Some(docs[key].id), None, Reason(v)))
  }

  function PersistEvent(st: Store, key: string, parent: string, d: Input, s: K.Selection, digest: Digest,
      size: nat): (Store, Outcome) {
    if |key| > MAX_KEY then (st, Invalid)
    else
      match DocOf(st, parent)
      case None => (st, Done(Quarantine, None, None, "parent_missing"))
      case Some(row) =>
        if row.naming.owner != d.naming.owner || row.naming.family != d.naming.family then
          (st, Done(Quarantine, None, None, "parent_incompatible"))
        else
          var (events, status) := Record(st.events, key, d, s, digest, size);
          match status
          case None => (st, Invalid)
          case Some(v) => (st.(events := events), Done(v, Some(parent), Some(key), Reason(v)))
  }

  /** Past validation: the selected identity decides the key, the kind decides the table. */
  function PersistSelected(st: Store, d: Input, s: K.Selection, digest: Digest, size: nat): (Store, Outcome)
    requires d.kind == PlainDocument || d.parent.Some?
  {
    if d.kind == PlainDocument then PersistPlain(st, K.DocumentKey(d.naming, s), d, s, digest, size)
    else PersistEvent(st, K.EventKey(d.naming.(owner := d.parent.value), s), d.parent.value, d, s, digest, size)
  }

  /** `persist_document`. */
  function Persist(st: Store, rows: A.Rows, d: Input): (Store, Outcome) {
    if !ValidInput(d) || !Usable(rows, d.artifact) then (st, Invalid)
    else
      match K.Select(d.identity)
      case Err(InsufficientIdentity) => (st, Done(Quarantine, None, None, "identity_insufficient"))
      case Err(InvalidIdentity) => (st, Invalid)
      case Ok(s) => PersistSelected(st, d, s, rows[d.artifact].digest, rows[d.artifact].size.value)
  }

  /** `attach_document_evidence`. */
  function Attach(st: Store, rows: A.Rows, document: string, artifact: nat): (Store, Option<Status>) {
    match DocOf(st, document)
    case None => (st, None)
    case Some(row) =>
      if !Usable(rows, artifact) then (st, None)
      else
        match AddEvidence(row, Evidence(artifact, rows[artifact].digest, rows[artifact].size.value, false))
        case Ok(grown) => (st.(docs := st.docs[st.ids[document] := grown]), Some(Persisted))
        case Err(_) => (st, Some(Replay))
  }

  /** Two accepted events share a key exactly when they share parent, names and selected identity; the
      company is not part of the key. */
  lemma EventKeysFaithful(a: Input, b: Input)
    requires a.kind != PlainDocument && b.kind != PlainDocument && K.Select(a.identity).Ok? && K.Select(b.identity).Ok?
    ensures ValidInput(a) && ValidInput(b) ==>
              (K.EventKey(a.naming.(owner := a.parent.value), K.Select(a.identity).value)
               == K.EventKey(b.naming.(owner := b.parent.value), K.Select(b.identity).value)
               <==> a.parent == b.parent && K.Select(a.identity) == K.Select(b.identity)
                    && a.naming.(owner := "") == b.naming.(owner := ""))
  {
    hide K.Select, K.EventKey, K.IsReference, K.IsUuidText;
    if ValidInput(a) && ValidInput(b) {
      K.EventKeyFaithful(a.naming.(owner := a.parent.value), a.identity, b.naming.(owner := b.parent.value), b.identity);
    }
  }

  // ---------- what never changes ----------

  /** Later versions of a row: identity fields fixed, old evidence a prefix, conflict never withdrawn. */
  ghost predicate RowGrows(a: Row, b: Row) {
    && b.id == a.id && b.naming == a.naming && b.selection == a.selection && b.parent == a.parent
        && b.relationship == a.relationship
    && b.emittedAt == a.emittedAt && b.authorizedAt == a.authorizedAt && b.situation == a.situation
    && a.evidence <= b.evidence
    && (a.conflict ==> b.conflict)
  }

  ghost predicate Grows(a: Table, b: Table) {
    a.Keys <= b.Keys && forall k | k in a :: RowGrows(a[k], b[k])
  }

  ghost predicate StoreGrows(a: Store, b: Store) {
    && Grows(a.docs, b.docs) && Grows(a.events, b.events)
    && a.ids.Keys <= b.ids.Keys && forall id | id in a.ids :: b.ids[id] == a.ids[id]
  }

  ghost predicate RowValid(row: Row, rows: A.Rows) {
    && 0 < |row.evidence|
    && (row.conflict <==> exists i | 0 <= i < |row.evidence| :: row.evidence[i].conflicting)
    && (forall i | 0 <= i < |row.evidence| ::
          && row.evidence[i].artifact < |rows|
          && rows[row.evidence[i].artifact].state != A.Pending
          && rows[row.evidence[i].artifact].digest == row.evidence[i].digest
          && rows[row.evidence[i].artifact].size == Some(row.evidence[i].size))
    && (forall i, j | 0 <= i < j < |row.evidence| :: row.evidence[i].artifact != row.evidence[j].artifact)
  }

  /** Every row has evidence with the digest and size of its artifact, once per artifact; a row is in conflict
      exactly when some evidence is conflicting; ids and keys of documents name each other; parents of
      events exist. */
  ghost predicate Valid(st: Store, rows: A.Rows) {
    && TableValid(st.docs, rows) && TableValid(st.events, rows)
    && IdsValid(st.docs, st.ids) && ParentsExist(st.ids, st.events)
  }

  ghost predicate IdsValid(docs: Table, ids: map<string, string>) {
    && (forall id | id in ids :: ids[id] in docs && docs[ids[id]].id == id)
    && (forall k | k in docs :: docs[k].id in ids && ids[docs[k].id] == k)
  }

  ghost predicate ParentsExist(ids: map<string, string>, events: Table) {
    forall k | k in events :: events[k].parent.Some? && events[k].parent.value in ids
  }

  lemma ValidEvolves(st: Store, before: A.Rows, after: A.Rows)
    requires Valid(st, before) && A.Evolves(before, after)
    ensures Valid(st, after)
  {
    forall k | k in st.docs ensures RowValid(st.docs[k], after) {
      RowValidEvolves(st.docs[k], before, after);
    }
    forall k | k in st.events ensures RowValid(st.events[k], after) {
      RowValidEvolves(st.events[k], before, after);
    }
  }

  lemma RowValidEvolves(row: Row, before: A.Rows, after: A.Rows)
    requires RowValid(row, before) && A.Evolves(before, after)
    ensures RowValid(row, after)
  {
    forall i | 0 <= i < |row.evidence|
      ensures row.evidence[i].artifact < |after|
              && after[row.evidence[i].artifact].state != A.Pending
              && after[row.evidence[i].artifact].digest == row.evidence[i].digest
              && after[row.evidence[i].artifact].size == Some(row.evidence[i].size)
    {
      var a := row.evidence[i].artifact;
      assert A.RowEvolves(before[a], after[a]);
    }
  }

  ghost predicate Backed(e: Evidence, rows: A.Rows) {
    && e.artifact < |rows| && rows[e.artifact].state != A.Pending
    && rows[e.artifact].digest == e.digest && rows[e.artifact].size == Some(e.size)
  }

  ghost predicate TableValid(table: Table, rows: A.Rows) {
    forall k | k in table :: RowValid(table[k], rows)
  }

  // ---------- the simple object: a map from key to what was said first and the distinct digests held ----------

  /** What the input that created a row said of it. */
  datatype Facts = Facts(
    naming: K.Naming, selection: K.Selection, parent: Option<string>, relationship: Option<Relationship>,
    emittedAt: int, authorizedAt: Option<int>, situation: Situation)

  /** A row at the level of the map: its facts, its distinct digests, the artifacts they came from, and
      whether a digest other than the first ever arrived as a conflict. */
  datatype AbsRow = AbsRow(id: string, facts: Facts, digests: set<Digest>, artifacts: set<nat>, conflict: bool)

  type AbsTable = map<string, AbsRow>

  datatype Abstract = Abstract(docs: AbsTable, events: AbsTable, ids: map<string, string>)

  function Digests(row: Row): set<Digest> {
    set i | 0 <= i < |row.evidence| :: row.evidence[i].digest
  }

  function ArtifactsOf(row: Row): set<nat> {
    set i | 0 <= i < |row.evidence| :: row.evidence[i].artifact
  }

  function AbsOf(row: Row): AbsRow {
    AbsRow(row.id,
           Facts(row.naming, row.selection, row.parent, row.relationship, row.emittedAt, row.authorizedAt, row.situation),
           Digests(row), ArtifactsOf(row), row.conflict)
  }

  function Abs(table: Table): AbsTable {
    map k | k in table :: AbsOf(table[k])
  }

  function AbsStore(st: Store): Abstract {
    Abstract(Abs(st.docs), Abs(st.events), st.ids)
  }

  /** First digest of a key persists, a held digest replays, any other is added as a conflict. */
  function AbsRecord(m: AbsTable, key: string, d: Input, s: K.Selection, digest: Digest): (r: (AbsTable, Status))
    ensures key in r.0
  {
    if key !in m then
      (m[key := AbsRow(d.newId, Facts(d.naming, s, d.parent, d.relationship, d.emittedAt, d.authorizedAt, d.situation),
                       {digest}, {d.artifact}, false)], Persisted)
    else if digest in m[key].digests then (m, Replay)
    else
      (m[key := m[key].(digests := m[key].digests + {digest}, artifacts := m[key].artifacts + {d.artifact}, conflict := true)],
       Conflict)
  }

  lemma HoldsDigests(row: Row, digest: Digest)
    ensures Holds(row, digest) <==> digest in Digests(row)
  {}

  lemma AttachedArtifacts(row: Row, artifact: nat)
    ensures Attached(row, artifact) <==> artifact in ArtifactsOf(row)
  {}

  // ---------- one row ----------

  lemma AppendKeeps(row: Row, e: Evidence, rows: A.Rows)
    requires RowValid(row, rows) && Backed(e, rows) && !Attached(row, e.artifact)
    ensures AddEvidence(row, e).Ok?
    ensures RowValid(AddEvidence(row, e).value, rows) && RowGrows(row, AddEvidence(row, e).value)
    ensures AbsOf(AddEvidence(row, e).value)
            == AbsOf(row).(digests := Digests(row) + {e.digest}, artifacts := ArtifactsOf(row) + {e.artifact},
                           conflict := row.conflict || e.conflicting)
  {
    var grown := AddEvidence(row, e).value;
    assert forall i | 0 <= i < |row.evidence| :: grown.evidence[i] == row.evidence[i];
    assert grown.evidence[|row.evidence|] == e;
    if row.conflict {
      var i :| 0 <= i < |row.evidence| && row.evidence[i].conflicting;
      assert grown.evidence[i].conflicting;
    }
    AppendSets(row, e);
  }

  lemma AppendSets(row: Row, e: Evidence)
    ensures Digests(row.(evidence := row.evidence + [e])) == Digests(row) + {e.digest}
    ensures ArtifactsOf(row.(evidence := row.evidence + [e])) == ArtifactsOf(row) + {e.artifact}
  {
    var grown := row.(evidence := row.evidence + [e]);
    assert forall i | 0 <= i < |row.evidence| :: grown.evidence[i] == row.evidence[i];
    assert grown.evidence[|row.evidence|] == e;
    forall x | x in Digests(row) + {e.digest} ensures x in Digests(grown) {
      if x in Digests(row) {
        var i :| 0 <= i < |row.evidence| && row.evidence[i].digest == x;
        assert grown.evidence[i].digest == x;
      }
    }
    forall x | x in ArtifactsOf(row) + {e.artifact} ensures x in ArtifactsOf(grown) {
      if x in ArtifactsOf(row) {
        var i :| 0 <= i < |row.evidence| && row.evidence[i].artifact == x;
        assert grown.evidence[i].artifact == x;
      }
    }
  }

  lemma SetRow(table: Table, key: string, row: Row, rows: A.Rows)
    requires TableValid(table, rows) && RowValid(row, rows)
    requires key in table ==> RowGrows(table[key], row)
    ensures TableValid(table[key := row], rows) && Grows(table, table[key := row])
    ensures Abs(table[key := row]) == Abs(table)[key := AbsOf(row)]
  {
  }

  /** A digest the row does not hold cannot come from an artifact it already has, because a digest is
      fixed once written: the uniqueness constraint never trips. */
  lemma NewDigestNewArtifact(row: Row, artifact: nat, rows: A.Rows)
    requires RowValid(row, rows) && artifact < |rows| && !Holds(row, rows[artifact].digest)
    ensures !Attached(row, artifact)
  {
    forall i | 0 <= i < |row.evidence| ensures row.evidence[i].artifact != artifact {
      assert row.evidence[i].digest != rows[artifact].digest;
    }
  }

  // ---------- one table ----------

  ghost predicate RecordGood(
    table: Table, key: string, d: Input, s: K.Selection, digest: Digest, r: (Table, Option<Status>), rows: A.Rows)
  {
    && r.1.Some? && TableValid(r.0, rows) && Grows(table, r.0)
    && (Abs(r.0), r.1.value) == AbsRecord(Abs(table), key, d, s, digest)
    && r.0.Keys == table.Keys + {key} && Holds(r.0[key], digest)
    && (forall k | k in table && k != key :: r.0[k] == table[k])
    && (key !in table ==> r.0[key].parent == d.parent && r.0[key].id == d.newId)
  }

  lemma RecordNew(table: Table, key: string, d: Input, s: K.Selection, digest: Digest, size: nat, rows: A.Rows)
    requires TableValid(table, rows) && Backed(Evidence(d.artifact, digest, size, false), rows)
    requires key !in table
    ensures RecordGood(table, key, d, s, digest, Record(table, key, d, s, digest, size), rows)
  {
    var row := NewRow(d, s, Evidence(d.artifact, digest, size, false));
    assert row.evidence[0].digest == digest && row.evidence[0].artifact == d.artifact;
    assert Digests(row) == {digest} && ArtifactsOf(row) == {d.artifact};
    SetRow(table, key, row, rows);
    HoldsDigests(row, digest);
  }

  lemma RecordConflict(table: Table, key: string, d: Input, s: K.Selection, digest: Digest, size: nat, rows: A.Rows)
    requires TableValid(table, rows) && Backed(Evidence(d.artifact, digest, size, false), rows)
    requires key in table && !Holds(table[key], digest)
    ensures RecordGood(table, key, d, s, digest, Record(table, key, d, s, digest, size), rows)
  {
    hide Digests, ArtifactsOf, RowGrows, RowValid, Attached;
    var row := table[key];
    var e := Evidence(d.artifact, digest, size, true);
    NewDigestNewArtifact(row, d.artifact, rows);
    AppendKeeps(row, e, rows);
    var grown := AddEvidence(row, e).value;
    SetRow(table, key, grown, rows);
    HoldsDigests(grown, digest);
    HoldsDigests(row, digest);
  }

  /** One `Record` call: valid again, only growing, and exactly the abstract step, status included. */
  lemma RecordRefines(table: Table, key: string, d: Input, s: K.Selection, digest: Digest, size: nat, rows: A.Rows)
    requires TableValid(table, rows) && Backed(Evidence(d.artifact, digest, size, false), rows)
    ensures RecordGood(table, key, d, s, digest, Record(table, key, d, s, digest, size), rows)
  {
    if key !in table {
      RecordNew(table, key, d, s, digest, size, rows);
    } else if Holds(table[key], digest) {
      HoldsDigests(table[key], digest);
    } else {
      RecordConflict(table, key, d, s, digest, size, rows);
    }
  }

  // ---------- persist_document ----------

  /** A result other than quarantine names a row that now holds the artifact's digest. */
  ghost predicate Recorded(st: Store, document: Option<string>, event: Option<string>, digest: Digest) {
    if event.Some? then event.value in st.events && Holds(st.events[event.value], digest)
    else document.Some? && DocOf(st, document.value).Some? && Holds(DocOf(st, document.value).value, digest)
  }

  ghost predicate PersistGood(before: Store, r: (Store, Outcome), digest: Digest, rows: A.Rows) {
    && Valid(r.0, rows) && StoreGrows(before, r.0)
    && (r.1.Done? && r.1.status != Quarantine ==> Recorded(r.0, r.1.document, r.1.event, digest))
  }

  /** `persist_document` on the map, past validation: PERSISTED exactly on a new key, REPLAY exactly on
      a digest already held, CONFLICT otherwise, and quarantine for a parent that is missing or of
      another company or family. */
  function AbsPersistPlain(m: Abstract, key: string, d: Input, s: K.Selection, digest: Digest): (Abstract, Outcome) {
    if |key| > MAX_KEY || (key !in m.docs && d.newId in m.ids) then (m, Invalid)
    else
      var (docs, v) := AbsRecord(m.docs, key, d, s, digest);
      (m.(docs := docs, ids := if key in m.docs then m.ids else m.ids[d.newId := key]), Done(v, Some(docs[key].id),
          None, if v == Conflict then "content_hash_mismatch" else ""))
  }

  function AbsPersistEvent(m: Abstract, key: string, parent: string, d: Input, s: K.Selection,
      digest: Digest): (Abstract, Outcome) {
    if |key| > MAX_KEY then (m, Invalid)
    else if !(parent in m.ids && m.ids[parent] in m.docs) then (m, Done(Quarantine, None, None, "parent_missing"))
    else if m.docs[m.ids[parent]].facts.naming.owner != d.naming.owner
        || m.docs[m.ids[parent]].facts.naming.family != d.naming.family then
      (m, Done(Quarantine, None, None, "parent_incompatible"))
    else
      var (events, v) := AbsRecord(m.events, key, d, s, digest);
      (m.(events := events), Done(v, Some(parent), Some(key), if v == Conflict then "content_hash_mismatch" else ""))
  }

  lemma PersistPlainKeeps(st: Store, key: string, d: Input, s: K.Selection, digest: Digest, size: nat, rows: A.Rows)
    requires Valid(st, rows) && Backed(Evidence(d.artifact, digest, size, false), rows)
    ensures PersistGood(st, PersistPlain(st, key, d, s, digest, size), digest, rows)
    ensures var r := PersistPlain(st, key, d, s, digest, size);
            (AbsStore(r.0), r.1) == AbsPersistPlain(AbsStore(st), key, d, s, digest)
  {
    GrowsReflexive(st);
    if |key| <= MAX_KEY && (key in st.docs || d.newId !in st.ids) {
      RecordRefines(st.docs, key, d, s, digest, size, rows);
      var r := PersistPlain(st, key, d, s, digest, size).0;
      IdsStay(st, r, key, d.newId);
    }
  }

  lemma IdsStay(st: Store, r: Store, key: string, newId: K.Uuid)
    requires IdsValid(st.docs, st.ids) && Grows(st.docs, r.docs) && r.docs.Keys == st.docs.Keys + {key}
    requires key !in st.docs ==> newId !in st.ids && r.docs[key].id == newId
    requires r.ids == if key in st.docs then st.ids else st.ids[newId := key]
    ensures IdsValid(r.docs, r.ids) && DocOf(r, r.docs[key].id) == Some(r.docs[key])
  {
    forall k | k in r.docs ensures r.docs[k].id in r.ids && r.ids[r.docs[k].id] == k {
      assert k in st.docs ==> RowGrows(st.docs[k], r.docs[k]);
    }
    forall id | id in r.ids ensures r.ids[id] in r.docs && r.docs[r.ids[id]].id == id {
      assert id in st.ids ==> RowGrows(st.docs[st.ids[id]], r.docs[st.ids[id]]);
    }
  }

  lemma ParentsStay(ids: map<string, string>, before: Table, after: Table, key: string, parent: string)
    requires ParentsExist(ids, before) && Grows(before, after) && after.Keys == before.Keys + {key}
    requires parent in ids && (key !in before ==> after[key].parent == Some(parent))
    ensures ParentsExist(ids, after)
  {
    forall k | k in after ensures after[k].parent.Some? && after[k].parent.value in ids {
      assert k in before ==> RowGrows(before[k], after[k]);
    }
  }

  lemma PersistEventKeeps(st: Store, key: string, parent: string, d: Input, s: K.Selection, digest: Digest, size: nat, rows: A.Rows)
    requires Valid(st, rows) && Backed(Evidence(d.artifact, digest, size, false), rows) && d.parent == Some(parent)
    ensures PersistGood(st, PersistEvent(st, key, parent, d, s, digest, size), digest, rows)
    ensures var r := PersistEvent(st, key, parent, d, s, digest, size);
            (AbsStore(r.0), r.1) == AbsPersistEvent(AbsStore(st), key, parent, d, s, digest)
  {
    hide Digests, ArtifactsOf, RowGrows, RowValid, Record, AbsRecord;
    GrowsReflexive(st);
    if |key| <= MAX_KEY && DocOf(st, parent).Some? {
      RecordRefines(st.events, key, d, s, digest, size, rows);
      ParentsStay(st.ids, st.events, Record(st.events, key, d, s, digest, size).0, key, parent);
    }
  }

  lemma GrowsReflexive(st: Store)
    ensures StoreGrows(st, st)
  {}

  function AbsPersist(m: Abstract, rows: A.Rows, d: Input): (Abstract, Outcome) {
    if !ValidInput(d) || !Usable(rows, d.artifact) then (m, Invalid)
    else
      match K.Select(d.identity)
      case Err(InsufficientIdentity) => (m, Done(Quarantine, None, None, "identity_insufficient"))
      case Err(InvalidIdentity) => (m, Invalid)
      case Ok(s) =>
        if d.kind == PlainDocument then AbsPersistPlain(m, K.DocumentKey(d.naming, s), d, s, rows[d.artifact].digest)
        else
          AbsPersistEvent(m, K.EventKey(d.naming.(owner := d.parent.value), s), d.parent.value, d, s, rows[d.artifact].digest)
  }

  /** `persist_document` keeps the store valid and growing, records what it accepts, and is the abstract
      step with the same outcome. */
  lemma PersistKeeps(st: Store, rows: A.Rows, d: Input)
    requires Valid(st, rows)
    ensures Usable(rows, d.artifact) ==> PersistGood(st, Persist(st, rows, d), rows[d.artifact].digest, rows)
    ensures !Usable(rows, d.artifact) ==> Persist(st, rows, d) == (st, Invalid)
    ensures var r := Persist(st, rows, d); (AbsStore(r.0), r.1) == AbsPersist(AbsStore(st), rows, d)
  {
    hide Valid, K.DocumentKey, K.EventKey, K.Select, PersistPlain, PersistEvent, AbsPersistPlain, AbsPersistEvent;
    GrowsReflexive(st);
    if ValidInput(d) && Usable(rows, d.artifact) && K.Select(d.identity).Ok? {
      var s := K.Select(d.identity).value;
      var digest, size := rows[d.artifact].digest, rows[d.artifact].size.value;
      if d.kind == PlainDocument {
        PersistPlainKeeps(st, K.DocumentKey(d.naming, s), d, s, digest, size, rows);
      } else {
        PersistEventKeeps(st, K.EventKey(d.naming.(owner := d.parent.value), s), d.parent.value, d, s, digest, size, rows);
      }
    }
  }

  /** The row a PERSISTED reply names was not there before, has exactly what the input said, and its only
      evidence is the input's artifact with that artifact's digest and size. */
  lemma PersistedRow(st: Store, rows: A.Rows, d: Input)
    requires Valid(st, rows)
    ensures var (t, o) := Persist(st, rows, d);
            o.Done? && o.status == Persisted ==>
              && d.artifact < |rows| && rows[d.artifact].size.Some? && K.Select(d.identity).Ok?
              && (o.event.Some? <==> d.kind != PlainDocument)
              && (if o.event.Some? then o.event.value !in st.events && o.event.value in t.events && o.document == d.parent
                  else o.document == Some(d.newId) && DocOf(st, d.newId).None? && DocOf(t, d.newId).Some?)
              && (if o.event.Some? then t.events[o.event.value] else DocOf(t, d.newId).value)
                 == Row(d.newId, d.naming, K.Select(d.identity).value, d.parent, d.relationship, d.emittedAt, d.authorizedAt,
                        d.situation, false, [Evidence(d.artifact, rows[d.artifact].digest, rows[d.artifact].size.value, false)])
  {
    hide K.Select, K.DocumentKey, K.EventKey, TableValid, K.IsReference, K.IsUuidText;
  }

  /** The input errors, one by one: everything else is answered with a status. */
  lemma InvalidExactly(st: Store, rows: A.Rows, d: Input)
    requires Valid(st, rows)
    ensures Persist(st, rows, d).1.Invalid? <==>
              || !K.IsUuidText(d.naming.owner) || d.naming.family !in {"nfe", "nfse"}
              || !(K.IsReference(d.naming.role) && K.IsReference(d.naming.category) && K.IsReference(d.naming.source))
              || !(K.IsReference(d.naming.flow) && K.IsReference(d.origin))
              || (d.correlation != "" && !K.IsReference(d.correlation))
              || (d.authorizedAt.Some? && d.authorizedAt.value < d.emittedAt)
              || (d.kind == PlainDocument && (d.parent.Some? || d.relationship.Some?))
              || (d.kind != PlainDocument && !(d.parent.Some? && K.IsUuidText(d.parent.value) && d.relationship.Some?))
              || !(d.artifact < |rows| && rows[d.artifact].state == A.Finalized && rows[d.artifact].size.Some?)
              || !(|rows[d.artifact].digest| == 64 && forall i | 0 <= i < 64 :: rows[d.artifact].digest[i] in "0123456789abcdef")
              || K.Select(d.identity) == Err(K.InvalidIdentity)
              || (K.Select(d.identity).Ok? &&
                  var s := K.Select(d.identity).value;
                  if d.kind == PlainDocument then
                    |K.DocumentKey(d.naming, s)| > 1024 || (K.DocumentKey(d.naming, s) !in st.docs && d.newId in st.ids)
                  else |K.EventKey(d.naming.(owner := d.parent.value), s)| > 1024)
  {
    hide Valid, K.IsReference, K.IsUuidText, K.Select, K.DocumentKey, K.EventKey, IsDigest, PersistPlain, PersistEvent, Record;
    if d.artifact < |rows| { DigestExactly(rows[d.artifact].digest); }
    if ValidInput(d) && Usable(rows, d.artifact) && K.Select(d.identity).Ok? {
      var s, digest, size := K.Select(d.identity).value, rows[d.artifact].digest, rows[d.artifact].size.value;
      if d.kind == PlainDocument {
        PlainAnswers(st, K.DocumentKey(d.naming, s), d, s, digest, size, rows);
      } else {
        EventAnswers(st, K.EventKey(d.naming.(owner := d.parent.value), s), d.parent.value, d, s, digest, size, rows);
      }
    }
  }

  lemma DigestExactly(s: string)
    ensures IsDigest(s) <==> |s| == 64 && forall i | 0 <= i < 64 :: s[i] in "0123456789abcdef"
  {
    forall c: char ensures c in "0123456789abcdef" <==> '0' <= c <= '9' || 'a' <= c <= 'f' {
      K.HexExactly(c);
    }
  }

  lemma PlainAnswers(st: Store, key: string, d: Input, s: K.Selection, digest: Digest, size: nat, rows: A.Rows)
    requires Valid(st, rows) && Backed(Evidence(d.artifact, digest, size, false), rows)
    ensures PersistPlain(st, key, d, s, digest, size).1.Invalid? <==> |key| > 1024 || (key !in st.docs && d.newId in st.ids)
  {
    hide RowValid, RowGrows, Digests, ArtifactsOf, Record, AbsRecord;
    RecordRefines(st.docs, key, d, s, digest, size, rows);
  }

  lemma EventAnswers(st: Store, key: string, parent: string, d: Input, s: K.Selection, digest: Digest, size: nat, rows: A.Rows)
    requires Valid(st, rows) && Backed(Evidence(d.artifact, digest, size, false), rows)
    ensures PersistEvent(st, key, parent, d, s, digest, size).1.Invalid? <==> |key| > 1024
  {
    hide RowValid, RowGrows, Digests, ArtifactsOf, Record, AbsRecord;
    RecordRefines(st.events, key, d, s, digest, size, rows);
  }

  lemma RecordedStays(a: Store, b: Store, document: Option<string>, event: Option<string>, digest: Digest)
    requires StoreGrows(a, b) && Recorded(a, document, event, digest)
    ensures Recorded(b, document, event, digest)
  {
    if event.Some? {
      HoldsGrows(a.events[event.value], b.events[event.value], digest);
    } else {
      HoldsGrows(a.docs[a.ids[document.value]], b.docs[a.ids[document.value]], digest);
    }
  }

  lemma HoldsGrows(a: Row, b: Row, digest: Digest)
    requires RowGrows(a, b) && Holds(a, digest)
    ensures Holds(b, digest)
  {
    var i :| 0 <= i < |a.evidence| && a.evidence[i].digest == digest;
    assert b.evidence[i] == a.evidence[i];
  }

  // ---------- attach_document_evidence ----------

  /** On the map: the artifact replays when its document has it, otherwise its digest is added, never as a conflict. */
  function AbsAttach(m: Abstract, rows: A.Rows, document: string, artifact: nat): (Abstract, Option<Status>) {
    if !(document in m.ids && m.ids[document] in m.docs) || !Usable(rows, artifact) then (m, None)
    else
      var row := m.docs[m.ids[document]];
      if artifact in row.artifacts then (m, Some(Replay))
      else
        (m.(docs := m.docs[m.ids[document] := row.(digests := row.digests + {rows[artifact].digest},
            artifacts := row.artifacts + {artifact})]),
         Some(Persisted))
  }

  lemma AttachKeeps(st: Store, rows: A.Rows, document: string, artifact: nat)
    requires Valid(st, rows)
    ensures var r := Attach(st, rows, document, artifact);
            && Valid(r.0, rows) && StoreGrows(st, r.0)
            && (AbsStore(r.0), r.1) == AbsAttach(AbsStore(st), rows, document, artifact)
  {
    hide Digests, ArtifactsOf, RowValid, Attached;
    GrowsReflexive(st);
    if Usable(rows, artifact) && DocOf(st, document).Some? {
      var row := DocOf(st, document).value;
      AttachedArtifacts(row, artifact);
      if !Attached(row, artifact) {
        var e := Evidence(artifact, rows[artifact].digest, rows[artifact].size.value, false);
        AppendKeeps(row, e, rows);
        SetRow(st.docs, st.ids[document], AddEvidence(row, e).value, rows);
      }
    }
  }

  // ---------- runs of calls ----------

  datatype Call =
    | CallPersist(input: Input)
    | CallAttach(document: string, artifact: nat)

  datatype Reply = PersistReply(outcome: Outcome) | AttachReply(status: Option<Status>)

  function Step(st: Store, rows: A.Rows, c: Call): (Store, Reply) {
    match c
    case CallPersist(d) => var (next, o) := Persist(st, rows, d); (next, PersistReply(o))
    case CallAttach(doc, a) => var (next, v) := Attach(st, rows, doc, a); (next, AttachReply(v))
  }

  function AbsStep(m: Abstract, rows: A.Rows, c: Call): (Abstract, Reply) {
    match c
    case CallPersist(d) => var (next, o) := AbsPersist(m, rows, d); (next, PersistReply(o))
    case CallAttach(doc, a) => var (next, v) := AbsAttach(m, rows, doc, a); (next, AttachReply(v))
  }

  lemma StepRefines(st: Store, rows: A.Rows, c: Call)
    requires Valid(st, rows)
    ensures var (next, reply) := Step(st, rows, c);
            Valid(next, rows) && StoreGrows(st, next) && (AbsStore(next), reply) == AbsStep(AbsStore(st), rows, c)
  {
    hide Valid, StoreGrows, Persist, AbsPersist, Attach, AbsAttach;
    match c
    case CallPersist(d) =>
      PersistKeeps(st, rows, d);
      GrowsReflexive(st);
    case CallAttach(doc, a) => AttachKeeps(st, rows, doc, a);
  }

  /** A run interleaves calls with arbitrary artifact operations. */
  datatype Happening = OnStore(call: Call) | OnArtifacts(op: A.Op)

  /** The store, the artifacts and every reply of a run. */
  function Run(st: Store, rows: A.Rows, events: seq<Happening>): (Store, A.Rows, seq<Reply>)
    decreases |events|
  {
    if events == [] then (st, rows, [])
    else
      match events[0]
      case OnStore(c) =>
        var (next, reply) := Step(st, rows, c);
        var (last, after, replies) := Run(next, rows, events[1..]);
        (last, after, [reply] + replies)
      case OnArtifacts(op) => Run(st, A.Apply(rows, op), events[1..])
  }

  function AbsRun(m: Abstract, rows: A.Rows, events: seq<Happening>): (Abstract, seq<Reply>)
    decreases |events|
  {
    if events == [] then (m, [])
    else
      match events[0]
      case OnStore(c) =>
        var (next, reply) := AbsStep(m, rows, c);
        var (last, replies) := AbsRun(next, rows, events[1..]);
        (last, [reply] + replies)
      case OnArtifacts(op) => AbsRun(m, A.Apply(rows, op), events[1..])
  }

  lemma GrowsTransitive(a: Table, b: Table, c: Table)
    requires Grows(a, b) && Grows(b, c)
    ensures Grows(a, c)
  {
    forall k | k in a ensures RowGrows(a[k], c[k]) {
      assert RowGrows(a[k], b[k]) && RowGrows(b[k], c[k]);
    }
  }

  lemma StoreGrowsTransitive(a: Store, b: Store, c: Store)
    requires StoreGrows(a, b) && StoreGrows(b, c)
    ensures StoreGrows(a, c)
  {
    GrowsTransitive(a.docs, b.docs, c.docs);
    GrowsTransitive(a.events, b.events, c.events);
  }

  /** Every run of calls, however interleaved with the artifact lifecycle, refines the map of digests
      with the same replies, keeps the store valid (so conflict means conflicting evidence) and only adds
      evidence. */
  lemma {:induction false} RunRefines(st: Store, rows: A.Rows, events: seq<Happening>)
    requires Valid(st, rows) && A.Valid(rows)
    ensures var r := Run(st, rows, events);
            && Valid(r.0, r.1) && A.Valid(r.1) && StoreGrows(st, r.0)
            && (AbsStore(r.0), r.2) == AbsRun(AbsStore(st), rows, events)
    decreases |events|
  {
    hide Valid, StoreGrows, Step, AbsStep, A.Valid, AbsStore;
    GrowsReflexive(st);
    if events != [] {
      match events[0]
      case OnStore(c) =>
        StepRefines(st, rows, c);
        var next := Step(st, rows, c).0;
        RunRefines(next, rows, events[1..]);
        StoreGrowsTransitive(st, next, Run(st, rows, events).0);
      case OnArtifacts(op) =>
        A.ApplyKeeps(rows, op);
        ValidEvolves(st, rows, A.Apply(rows, op));
        RunRefines(st, A.Apply(rows, op), events[1..]);
    }
  }

  // ---------- the service over mutable tables ----------

  /** The document and event tables; each method is one transaction. */
  class DocumentArchive {
    var docs: Table
    var events: Table
    var ids: map<string, string>

    function State(): Store
      reads this
    {
      Store(docs, events, ids)
    }

    constructor ()
      ensures State() == Store(map[], map[], map[])
    {
      docs, events, ids := map[], map[], map[];
    }

    /** The digest query over the evidence of a row. */
    static method FindDigest(row: Row, digest: Digest) returns (found: bool)
      ensures found <==> Holds(row, digest)
    {
      for i := 0 to |row.evidence|
        invariant forall j | 0 <= j < i :: row.evidence[j].digest != digest
      {
        if row.evidence[i].digest == digest {
          return true;
        }
      }
      return false;
    }

    /** `_persist_document`. */
    method RecordDocument(key: string, d: Input, s: K.Selection, digest: Digest, size: nat) returns (o: Outcome)
      modifies this`docs, this`ids
      ensures (State(), o) == PersistPlain(old(State()), key, d, s, digest, size)
    {
      if |key| > MAX_KEY {
        return Invalid;
      }
      if key !in docs {
        if d.newId in ids {
          return Invalid;
        }
        ids := ids[d.newId := key];
        docs := docs[key := Row(
          id := d.newId, naming := d.naming, selection := s, parent := d.parent, relationship := d.relationship,
          emittedAt := d.emittedAt, authorizedAt := d.authorizedAt, situation := d.situation, conflict := false,
          evidence := [Evidence(d.artifact, digest, size, false)])];
        return Done(Persisted, Some(d.newId), None, "");
      }
      var held := FindDigest(docs[key], digest);
      if held {
        return Done(Replay, Some(docs[key].id), None, "");
      }
      if Attached(docs[key], d.artifact) {
        return Invalid;
      }
      var row := docs[key];
      row := row.(evidence := row.evidence + [Evidence(d.artifact, digest, size, true)]);
      docs := docs[key := row.(conflict := true)];
      return Done(Conflict, Some(row.id), None, "content_hash_mismatch");
    }

    /** `_persist_event`: the parent must exist and be of the same company and family. */
    method RecordEvent(key: string, parent: string, d: Input, s: K.Selection, digest: Digest, size: nat) returns (o: Outcome)
      modifies this`events
      ensures (State(), o) == PersistEvent(old(State()), key, parent, d, s, digest, size)
    {
      if |key| > MAX_KEY {
        return Invalid;
      }
      if parent !in ids || ids[parent] !in docs {
        return Done(Quarantine, None, None, "parent_missing");
      }
      var document := docs[ids[parent]];
      if document.naming.owner != d.naming.owner || document.naming.family != d.naming.family {
        return Done(Quarantine, None, None, "parent_incompatible");
      }
      if key !in events {
        events := events[key := Row(
          id := d.newId, naming := d.naming, selection := s, parent := d.parent, relationship := d.relationship,
          emittedAt := d.emittedAt, authorizedAt := d.authorizedAt, situation := d.situation, conflict := false,
          evidence := [Evidence(d.artifact, digest, size, false)])];
        return Done(Persisted, Some(parent), Some(key), "");
      }
      var held := FindDigest(events[key], digest);
      if held {
        return Done(Replay, Some(parent), Some(key), "");
      }
      if Attached(events[key], d.artifact) {
        return Invalid;
      }
      var row := events[key];
      row := row.(evidence := row.evidence + [Evidence(d.artifact, digest, size, true)]);
      events := events[key := row.(conflict := true)];
      return Done(Conflict, Some(parent), Some(key), "content_hash_mismatch");
    }

    /** `persist_document`. */
    method PersistDocument(rows: A.Rows, d: Input) returns (o: Outcome)
      modifies this
      ensures (State(), o) == Persist(old(State()), rows, d)
    {
      hide PersistPlain, PersistEvent, K.Select, K.DocumentKey, K.EventKey;
      if !ValidInput(d) || !Usable(rows, d.artifact) {
        return Invalid;
      }
      var artifact := rows[d.artifact];
      match K.Select(d.identity)
      case Err(InsufficientIdentity) => return Done(Quarantine, None, None, "identity_insufficient");
      case Err(InvalidIdentity) => return Invalid;
      case Ok(s) =>
        if d.kind == PlainDocument {
          o := RecordDocument(K.DocumentKey(d.naming, s), d, s, artifact.digest, artifact.size.value);
        } else {
          var key := K.EventKey(d.naming.(owner := d.parent.value), s);
          o := RecordEvent(key, d.parent.value, d, s, artifact.digest, artifact.size.value);
        }
    }

    /** `attach_document_evidence`. */
    method AttachEvidence(rows: A.Rows, document: string, artifact: nat) returns (status: Option<Status>)
      modifies this`docs
      ensures (State(), status) == Attach(old(State()), rows, document, artifact)
    {
      if !Usable(rows, artifact) || document !in ids || ids[document] !in docs {
        return None;
      }
      var row := docs[ids[document]];
      if Attached(row, artifact) {
        return Some(Replay);
      }
      var e := Evidence(artifact, rows[artifact].digest, rows[artifact].size.value, false);
      docs := docs[ids[document] := row.(evidence := row.evidence + [e])];
      return Some(Persisted);
    }
  }
}
