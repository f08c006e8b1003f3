/** Fiscal identities and the text keys under which documents and events are stored. */
module IdentityKeys {
  import opened Options

  datatype FiscalIdentity = FiscalIdentity(
    officialKey: string, externalId: string, number: string, series: string, issuer: string)

  datatype Kind = OfficialKey | ExternalId | NumberSeriesIssuer

  datatype Selection = Selection(kind: Kind, value: string)

  function KindText(k: Kind): (t: string)
    ensures |t| == match k case OfficialKey => 12 case ExternalId => 11 case NumberSeriesIssuer => 20
    ensures NoBar(t)
  {
    match k
    case OfficialKey => "official_key"
    case ExternalId => "external_id"
    case NumberSeriesIssuer => "number_series_issuer"
  }

  datatype Error = InsufficientIdentity | InvalidIdentity

  /** The naming context of a stored row; `owner` is the company, or the parent of an event. */
  datatype Naming = Naming(owner: string, family: string, role: string, category: string, source: string, flow: string)

  predicate ReferenceChar(c: char) {
    'A' <= c <= 'Z' || 'a' <= c <= 'z' || '0' <= c <= '9' || c in "_.:/-"
  }

  /** `_SAFE_REFERENCE`. */
  predicate IsReference(s: string) {
    0 < |s| <= 128 && forall i | 0 <= i < |s| :: ReferenceChar(s[i])
  }

  /** Text form of a UUID, section 4 of RFC 9562, as `str(UUID(...))` writes it. */
  predicate IsUuidText(s: string) {
    |s| == 36 && forall i | 0 <= i < 36 ::
      if i in {8, 13, 18, 23} then s[i] == '-' else '0' <= s[i] <= '9' || 'a' <= s[i] <= 'f'
  }

  type Uuid = s: string | IsUuidText(s) witness "00000000-0000-0000-0000-000000000000"

  predicate IdentifierChar(c: char) {
    'A' <= c <= 'Z' || '0' <= c <= '9'
  }

  /** `_IDENTIFIER`. */
  predicate IsIdentifier(s: string) {
    0 < |s| <= 255 && forall i | 0 <= i < |s| :: IdentifierChar(s[i])
  }

  function Upper(c: char): char {
    if 'a' <= c <= 'z' then c - 'a' + 'A' else c
  }

  /** Upper-case, keeping only letters and digits. */
  function Condense(s: string): string {
    if s == "" then ""
    else (if IdentifierChar(Upper(s[0])) then [Upper(s[0])] else []) + Condense(s[1..])
  }

  function Normalize(s: string): (r: Result<string, Error>)
    ensures r.Ok? ==> IsIdentifier(r.value)
  {
    CondenseIdentifier(s);
    var n := Condense(s);
    if 0 < |n| <= 255 then Ok(n) else Err(InvalidIdentity)
  }

  lemma CondenseIdentifier(s: string)
    ensures forall i | 0 <= i < |Condense(s)| :: IdentifierChar(Condense(s)[i])
  {}

  /** `"|".join(parts)`. */
  function Join(parts: seq<string>): string {
    if parts == [] then ""
    else if |parts| == 1 then parts[0]
    else parts[0] + "|" + Join(parts[1..])
  }

  /** `select_strongest_identity`: official key, else external id, else the full number/series/issuer triple. */
  function Select(identity: FiscalIdentity): Result<Selection, Error> {
    if identity.officialKey != "" then
      match Normalize(identity.officialKey)
      case Ok(v) => Ok(Selection(OfficialKey, v))
      case Err(e) => Err(e)
    else if identity.externalId != "" then
      match Normalize(identity.externalId)
      case Ok(v) => Ok(Selection(ExternalId, v))
      case Err(e) => Err(e)
    else if identity.number != "" && identity.series != "" && identity.issuer != "" then
      match (Normalize(identity.number), Normalize(identity.series), Normalize(identity.issuer))
      case (Ok(n), Ok(s), Ok(i)) => Ok(Selection(NumberSeriesIssuer, Join([n, s, i])))
      case _ => Err(InvalidIdentity)
    else Err(InsufficientIdentity)
  }

  function DocumentKey(n: Naming, s: Selection): string {
    Join([n.owner, n.family, n.role, n.category, n.source, n.flow, KindText(s.kind), s.value])
  }

  function EventKey(n: Naming, s: Selection): string {
    Join(["event", n.owner, n.family, n.role, n.category, n.source, n.flow, KindText(s.kind), s.value])
  }

  predicate ValidNaming(n: Naming) {
    && IsUuidText(n.owner) && n.family in {"nfe", "nfse"}
    && IsReference(n.role) && IsReference(n.category) && IsReference(n.source) && IsReference(n.flow)
  }

  // ---------- faithfulness ----------

  predicate NoBar(s: string) {
    forall i | 0 <= i < |s| :: s[i] != '|'
  }

  lemma FirstBar(a: string, x: string, b: string, y: string)
    requires NoBar(a) && NoBar(b) && a + "|" + x == b + "|" + y
    ensures a == b && x == y
  {
    var s, t := a + "|" + x, b + "|" + y;
    assert s[|a|] == '|' && t[|b|] == '|';
    assert a == s[..|a|] == t[..|b|] == b;
    assert x == s[|a| + 1..] == t[|b| + 1..] == y;
  }

  /** Joining with '|' loses nothing as long as only the last part may contain the separator. */
  lemma {:induction false} JoinInjective(p: seq<string>, q: seq<string>)
    requires 0 < |p| == |q|
    requires forall i | 0 <= i < |p| - 1 :: NoBar(p[i]) && NoBar(q[i])
    requires Join(p) == Join(q)
    ensures p == q
    decreases |p|
  {
    if |p| > 1 {
      FirstBar(p[0], Join(p[1..]), q[0], Join(q[1..]));
      JoinInjective(p[1..], q[1..]);
      assert p == [p[0]] + p[1..] && q == [q[0]] + q[1..];
    }
  }

  lemma ReferenceHasNoBar(s: string)
    requires IsReference(s) || IsUuidText(s) || IsIdentifier(s)
    ensures NoBar(s)
  {
    forall i | 0 <= i < |s| ensures s[i] != '|' {
      assert IsUuidText(s) ==> s[i] == '-' || '0' <= s[i] <= '9' || 'a' <= s[i] <= 'f';
    }
  }

  lemma NamingHasNoBar(n: Naming)
    requires ValidNaming(n)
    ensures NoBar(n.owner) && NoBar(n.family) && NoBar(n.role) && NoBar(n.category) && NoBar(n.source) && NoBar(n.flow)
  {
    ReferenceHasNoBar(n.owner);
    ReferenceHasNoBar(n.role);
    ReferenceHasNoBar(n.category);
    ReferenceHasNoBar(n.source);
    ReferenceHasNoBar(n.flow);
  }

  /** Two documents share a key exactly when every part of their naming and identity agrees. */
  lemma DocumentKeyFaithful(n: Naming, a: FiscalIdentity, m: Naming, b: FiscalIdentity)
    requires ValidNaming(n) && ValidNaming(m) && Select(a).Ok? && Select(b).Ok?
    ensures DocumentKey(n, Select(a).value) == DocumentKey(m, Select(b).value) <==> n == m && Select(a) == Select(b)
  {
    var s, t := Select(a).value, Select(b).value;
    var p := [n.owner, n.family, n.role, n.category, n.source, n.flow, KindText(s.kind), s.value];
    var q := [m.owner, m.family, m.role, m.category, m.source, m.flow, KindText(t.kind), t.value];
    if DocumentKey(n, s) == DocumentKey(m, t) {
      NamingHasNoBar(n);
      NamingHasNoBar(m);
      JoinInjective(p, q);
      assert forall i | 0 <= i < 8 :: p[i] == q[i];
      assert p[0] == q[0] && p[1] == q[1] && p[2] == q[2] && p[3] == q[3];
      assert p[4] == q[4] && p[5] == q[5] && p[6] == q[6] && p[7] == q[7];
    }
  }

  lemma EventKeyFaithful(n: Naming, a: FiscalIdentity, m: Naming, b: FiscalIdentity)
    requires ValidNaming(n) && ValidNaming(m) && Select(a).Ok? && Select(b).Ok?
    ensures EventKey(n, Select(a).value) == EventKey(m, Select(b).value) <==> n == m && Select(a) == Select(b)
  {
    if EventKey(n, Select(a).value) == EventKey(m, Select(b).value) {
      var p, q := DocumentKey(n, Select(a).value), DocumentKey(m, Select(b).value);
      var e := ["event", n.owner, n.family, n.role, n.category, n.source, n.flow, KindText(Select(a).value.kind),
          Select(a).value.value];
      var f := ["event", m.owner, m.family, m.role, m.category, m.source, m.flow, KindText(Select(b).value.kind),
          Select(b).value.value];
      assert e[1..] == [n.owner, n.family, n.role, n.category, n.source, n.flow, KindText(Select(a).value.kind),
          Select(a).value.value];
      assert f[1..] == [m.owner, m.family, m.role, m.category, m.source, m.flow, KindText(Select(b).value.kind),
          Select(b).value.value];
      FirstBar("event", p, "event", q);
      DocumentKeyFaithful(n, a, m, b);
    }
  }

  predicate IsTriple(a: FiscalIdentity) {
    a.officialKey == "" && a.externalId == ""
  }

  /** The inner join is faithful too: two triples select the same identity exactly when number,
      series and issuer agree after normalisation. */
  lemma TripleFaithful(a: FiscalIdentity, b: FiscalIdentity)
    requires IsTriple(a) && IsTriple(b) && Select(a).Ok? && Select(b).Ok?
    ensures Select(a) == Select(b) <==>
              && Normalize(a.number) == Normalize(b.number)
              && Normalize(a.series) == Normalize(b.series)
              && Normalize(a.issuer) == Normalize(b.issuer)
  {
    if Select(a) == Select(b) {
      var p := [Normalize(a.number).value, Normalize(a.series).value, Normalize(a.issuer).value];
      var q := [Normalize(b.number).value, Normalize(b.series).value, Normalize(b.issuer).value];
      assert Join(p) == Select(a).value.value == Select(b).value.value == Join(q);
      forall i | 0 <= i < 2 ensures NoBar(p[i]) && NoBar(q[i]) {
        ReferenceHasNoBar(p[i]);
        ReferenceHasNoBar(q[i]);
      }
      JoinInjective(p, q);
      assert p[0] == q[0] && p[1] == q[1] && p[2] == q[2];
    }
  }

  /** Spelling does not matter: letter case and punctuation never change a normalised identity. */
  lemma {:induction false} CondenseIdempotent(s: string)
    ensures Condense(Condense(s)) == Condense(s)
  {
    if s != "" {
      CondenseIdempotent(s[1..]);
      var c := Upper(s[0]);
      if IdentifierChar(c) {
        assert Condense(s) == [c] + Condense(s[1..]);
        assert ([c] + Condense(s[1..]))[1..] == Condense(s[1..]);
      } else {
        assert Condense(s) == Condense(s[1..]);
      }
    }
  }

  // ---------- the characters of references and identifiers ----------

  lemma HexExactly(c: char)
    ensures c in "0123456789abcdef" <==> '0' <= c <= '9' || 'a' <= c <= 'f'
  {
  }

  /** References are up to 128 letters, digits and five marks. */
  lemma ReferenceExactly(s: string)
    ensures IsReference(s) <==>
              0 < |s| <= 128 && forall i | 0 <= i < |s| :: Letter(s[i]) || s[i] in "0123456789" || s[i] in "_.:/-"
  {
    forall c: char ensures c in "0123456789" <==> '0' <= c <= '9' {
      DigitExactly(c);
    }
  }

  predicate Letter(c: char) {
    'a' <= c <= 'z' || 'A' <= c <= 'Z'
  }

  lemma DigitExactly(c: char)
    ensures c in "0123456789" <==> '0' <= c <= '9'
  {
  }

  /** A UUID is written as 8, 4, 4, 4 and 12 lower-case hex digits, joined by hyphens. */
  lemma UuidExactly(s: string)
    ensures IsUuidText(s) <==>
              |s| == 36 && s[8] == s[13] == s[18] == s[23] == '-'
              && forall i | 0 <= i < 36 && i != 8 && i != 13 && i != 18 && i != 23 :: s[i] in "0123456789abcdef"
  {
    forall c: char ensures c in "0123456789abcdef" <==> '0' <= c <= '9' || 'a' <= c <= 'f' {
      HexExactly(c);
    }
  }

  // ---------- which identity is selected ----------

  /** Normalising works character by character: letters become upper case, digits stay, the rest goes. */
  lemma CondenseCons(c: char, s: string)
    ensures Condense("") == ""
    ensures Condense([c] + s) ==
              (if 'a' <= c <= 'z' then [c - 'a' + 'A'] else if 'A' <= c <= 'Z' || '0' <= c <= '9' then [c] else "") + Condense(s)
  {
    assert ([c] + s)[0] == c && ([c] + s)[1..] == s;
  }

  predicate Usable(text: string) {
    0 < |Condense(text)| <= 255
  }

  /** The official key decides when there is one, else the external id, else number, series and issuer
      together; the identity is insufficient exactly when none of the three is given in full, and invalid
      exactly when the deciding text normalises to nothing or to more than 255 characters. */
  lemma SelectsStrongest(i: FiscalIdentity)
    ensures var r := Select(i);
            var full := i.number != "" && i.series != "" && i.issuer != "";
            && (r == Err(InsufficientIdentity) <==> i.officialKey == "" && i.externalId == "" && !full)
            && (i.officialKey != "" ==>
                  r == if Usable(i.officialKey) then Ok(Selection(OfficialKey, Condense(i.officialKey))) else Err(InvalidIdentity))
            && (i.officialKey == "" && i.externalId != "" ==>
                  r == if Usable(i.externalId) then Ok(Selection(ExternalId, Condense(i.externalId))) else Err(InvalidIdentity))
            && (i.officialKey == "" && i.externalId == "" && full ==>
                  if Usable(i.number) && Usable(i.series) && Usable(i.issuer) then
                    r == Ok(Selection(NumberSeriesIssuer, Condense(i.number) + "|" + Condense(i.series) + "|" + Condense(i.issuer)))
                  else r == Err(InvalidIdentity))
  {
    hide Condense;
    JoinThree(Condense(i.number), Condense(i.series), Condense(i.issuer));
  }

  lemma JoinThree(a: string, b: string, c: string)
    ensures Join([a, b, c]) == a + "|" + b + "|" + c
  {
    assert [b, c][1..] == [c] && Join([c]) == c;
    assert [a, b, c][1..] == [b, c] && Join([b, c]) == b + "|" + c;
    assert a + "|" + (b + "|" + c) == a + "|" + b + "|" + c;
  }
}
