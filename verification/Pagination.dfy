/** The merged keyset pagination of documents and quarantined units. Identifiers are ordered values; both
    tables are read in identifier order. */
module Pagination {
  import opened Options

  datatype Row = Row(id: int, outcome: string)

  type Filter = Row -> bool

  /** A query: which documents and which quarantined units the parameters select. */
  datatype Tables = Tables(documents: seq<Row>, units: seq<Row>, documentFilter: Filter, unitFilter: Filter)

  datatype Page = Page(rows: seq<Row>, total: nat, truncated: bool, next: Option<int>)

  /** Identifier order without repeats, as a primary key gives it. */
  predicate Ordered(s: seq<Row>) {
    forall i, j | 0 <= i < j < |s| :: s[i].id < s[j].id
  }

  predicate Disjoint(a: seq<Row>, b: seq<Row>) {
    forall i, j | 0 <= i < |a| && 0 <= j < |b| :: a[i].id != b[j].id
  }

  predicate Past(cursor: Option<int>, x: Row) {
    cursor.Some? ==> x.id > cursor.value
  }

  /** The selected rows past a cursor, in order. */
  function Query(s: seq<Row>, keep: Filter, cursor: Option<int>): (r: seq<Row>)
    ensures |r| <= |s|
  {
    if s == [] then []
    else
      var last := s[|s| - 1];
      Query(s[..|s| - 1], keep, cursor) + (if keep(last) && Past(cursor, last) then [last] else [])
  }

  function First(s: seq<Row>, n: nat): seq<Row> {
    if n <= |s| then s[..n] else s
  }

  predicate LessEq(a: Row, b: Row) {
    a.id < b.id || (a.id == b.id && TextLessEq(a.outcome, b.outcome))
  }

  predicate TextLessEq(a: string, b: string) {
    a == "" || (b != "" && (a[0] < b[0] || (a[0] == b[0] && TextLessEq(a[1..], b[1..]))))
  }

  /** Stable insertion by identifier, then outcome. */
  function Insert(s: seq<Row>, x: Row): (r: seq<Row>)
    ensures |r| == |s| + 1
  {
    if s == [] then [x]
    else if LessEq(s[|s| - 1], x) then s + [x]
    else Insert(s[..|s| - 1], x) + [s[|s| - 1]]
  }

  function Sort(s: seq<Row>): (r: seq<Row>)
    ensures |r| == |s|
  {
    if s == [] then [] else Insert(Sort(s[..|s| - 1]), s[|s| - 1])
  }

  function Documents(t: Tables, cursor: Option<int>): seq<Row> {
    Query(t.documents, t.documentFilter, cursor)
  }

  function Units(t: Tables, cursor: Option<int>): seq<Row> {
    Query(t.units, t.unitFilter, cursor)
  }

  /** The rows a page is cut from: one row more than the page from each table. */
  function Read(t: Tables, cursor: Option<int>, limit: nat): seq<Row> {
    Sort(First(Documents(t, cursor), limit + 1) + First(Units(t, cursor), limit + 1))
  }

  /** `list_document_status`; the total counts the selected documents, whatever the cursor. */
  function List(t: Tables, cursor: Option<int>, limit: nat): Page
    requires limit > 0
  {
    var rows := Read(t, cursor, limit);
    Page(First(rows, limit), |Documents(t, None)|, |rows| > limit, if |rows| > limit then Some(rows[limit - 1].id) else None)
  }

  /** Everything selected past a cursor: the reference the pages are judged by. */
  function Selection(t: Tables, cursor: Option<int>): seq<Row> {
    Sort(Documents(t, cursor) + Units(t, cursor))
  }

  predicate KeyOrdered(t: Tables) {
    Ordered(t.documents) && Ordered(t.units)
  }

  /** No selected unit shares the identifier of a selected document. */
  predicate NoneShared(t: Tables) {
    Disjoint(Documents(t, None), Units(t, None))
  }

  // ---------- order ----------

  lemma {:induction false} QueryMembers(s: seq<Row>, keep: Filter, cursor: Option<int>, x: Row)
    ensures x in Query(s, keep, cursor) <==> x in s && keep(x) && Past(cursor, x)
  {
    if s != [] {
      QueryMembers(s[..|s| - 1], keep, cursor, x);
      assert s == s[..|s| - 1] + [s[|s| - 1]];
    }
  }

  lemma {:induction false} QueryOrdered(s: seq<Row>, keep: Filter, cursor: Option<int>)
    requires Ordered(s)
    ensures Ordered(Query(s, keep, cursor))
  {
    if s != [] {
      var init, last := s[..|s| - 1], s[|s| - 1];
      QueryOrdered(init, keep, cursor);
      forall i | 0 <= i < |Query(init, keep, cursor)| ensures Query(init, keep, cursor)[i].id < last.id {
        QueryMembers(init, keep, cursor, Query(init, keep, cursor)[i]);
      }
    }
  }

  lemma {:induction false} InsertMembers(s: seq<Row>, x: Row, y: Row)
    ensures y in Insert(s, x) <==> y in s || y == x
  {
    if s != [] && !LessEq(s[|s| - 1], x) {
      InsertMembers(s[..|s| - 1], x, y);
      assert s == s[..|s| - 1] + [s[|s| - 1]];
    }
  }

  lemma {:induction false} SortMembers(s: seq<Row>, y: Row)
    ensures y in Sort(s) <==> y in s
  {
    if s != [] {
      SortMembers(s[..|s| - 1], y);
      InsertMembers(Sort(s[..|s| - 1]), s[|s| - 1], y);
      assert s == s[..|s| - 1] + [s[|s| - 1]];
    }
  }

  predicate Differs(s: seq<Row>, x: Row) {
    forall i | 0 <= i < |s| :: s[i].id != x.id
  }

  lemma {:induction false} InsertOrdered(s: seq<Row>, x: Row)
    requires Ordered(s) && Differs(s, x)
    ensures Ordered(Insert(s, x))
  {
    if s != [] && !LessEq(s[|s| - 1], x) {
      var init, last := s[..|s| - 1], s[|s| - 1];
      InsertOrdered(init, x);
      var r := Insert(init, x);
      forall i | 0 <= i < |r| ensures r[i].id < last.id {
        InsertMembers(init, x, r[i]);
      }
    }
  }

  predicate Distinct(s: seq<Row>) {
    forall i, j | 0 <= i < j < |s| :: s[i].id != s[j].id
  }

  lemma {:induction false} SortOrdered(s: seq<Row>)
    requires Distinct(s)
    ensures Ordered(Sort(s))
  {
    if s != [] {
      var init, last := s[..|s| - 1], s[|s| - 1];
      SortOrdered(init);
      forall i | 0 <= i < |Sort(init)| ensures Sort(init)[i].id != last.id {
        SortMembers(init, Sort(init)[i]);
      }
      InsertOrdered(Sort(init), last);
    }
  }

  /** The sort is a permutation. */
  lemma {:induction false} SortPermutes(s: seq<Row>)
    ensures multiset(Sort(s)) == multiset(s)
  {
    if s != [] {
      SortPermutes(s[..|s| - 1]);
      InsertPermutes(Sort(s[..|s| - 1]), s[|s| - 1]);
      assert s == s[..|s| - 1] + [s[|s| - 1]];
    }
  }

  lemma {:induction false} InsertPermutes(s: seq<Row>, x: Row)
    ensures multiset(Insert(s, x)) == multiset(s) + multiset{x}
  {
    if s != [] && !LessEq(s[|s| - 1], x) {
      InsertPermutes(s[..|s| - 1], x);
      assert s == s[..|s| - 1] + [s[|s| - 1]];
    }
  }

  // ---------- the order of rows that share an identifier ----------

  lemma {:induction false} TextTotal(a: string, b: string)
    ensures TextLessEq(a, b) || TextLessEq(b, a)
    ensures TextLessEq(a, b) && TextLessEq(b, a) ==> a == b
  {
    if a != "" && b != "" && a[0] == b[0] {
      TextTotal(a[1..], b[1..]);
      assert a == [a[0]] + a[1..] && b == [b[0]] + b[1..];
    }
  }

  lemma {:induction false} TextTransitive(a: string, b: string, c: string)
    requires TextLessEq(a, b) && TextLessEq(b, c)
    ensures TextLessEq(a, c)
  {
    if a != "" && a[0] == b[0] == c[0] {
      TextTransitive(a[1..], b[1..], c[1..]);
    }
  }

  predicate Sorted(s: seq<Row>) {
    forall i, j | 0 <= i < j < |s| :: LessEq(s[i], s[j])
  }

  lemma RowTransitive(a: Row, b: Row, c: Row)
    requires LessEq(a, b) && LessEq(b, c)
    ensures LessEq(a, c)
  {
    if a.id == b.id == c.id {
      TextTransitive(a.outcome, b.outcome, c.outcome);
    }
  }

  lemma {:induction false} InsertSorted(s: seq<Row>, x: Row)
    requires Sorted(s)
    ensures Sorted(Insert(s, x))
  {
    hide LessEq;
    if s == [] {
    } else if LessEq(s[|s| - 1], x) {
      forall i | 0 <= i < |s| ensures LessEq(s[i], x) {
        if i < |s| - 1 { RowTransitive(s[i], s[|s| - 1], x); }
      }
    } else {
      var init, last := s[..|s| - 1], s[|s| - 1];
      InsertSorted(init, x);
      var r := Insert(init, x);
      forall i | 0 <= i < |r| ensures LessEq(r[i], last) {
        InsertMembers(init, x, r[i]);
        RowTotal(x, last);
      }
    }
  }

  lemma RowTotal(a: Row, b: Row)
    ensures LessEq(a, b) || LessEq(b, a)
  {
    TextTotal(a.outcome, b.outcome);
  }

  /** Whatever rows are merged, the sort orders them by identifier, and by outcome text under one identifier. */
  lemma {:induction false} SortSorts(s: seq<Row>)
    ensures Sorted(Sort(s))
    ensures forall i, j | 0 <= i < j < |s| ::
              || Sort(s)[i].id < Sort(s)[j].id
              || (Sort(s)[i].id == Sort(s)[j].id && TextLessEq(Sort(s)[i].outcome, Sort(s)[j].outcome))
  {
    if s != [] {
      SortSorts(s[..|s| - 1]);
      InsertSorted(Sort(s[..|s| - 1]), s[|s| - 1]);
      assert forall i, j | 0 <= i < j < |s| :: LessEq(Sort(s)[i], Sort(s)[j]);
    }
  }

  lemma MergeOrdered(a: seq<Row>, b: seq<Row>)
    requires Ordered(a) && Ordered(b) && Disjoint(a, b)
    ensures Ordered(Sort(a + b)) && forall y :: y in Sort(a + b) <==> y in a || y in b
  {
    SortOrdered(a + b);
    forall y ensures y in Sort(a + b) <==> y in a || y in b {
      SortMembers(a + b, y);
    }
  }

  // ---------- ordered lists with the same rows ----------

  /** A row of two ordered lists, the first contained in the second, comes no later in the first. */
  lemma {:induction false} ComesEarlier(a: seq<Row>, b: seq<Row>, i: nat, j: nat)
    requires Ordered(a) && Ordered(b) && i < |a| && j < |b| && a[i] == b[j]
    requires forall x | x in a :: x in b
    ensures i <= j
  {
    if i > 0 {
      assert a[i - 1] in b;
      var k :| 0 <= k < |b| && b[k] == a[i - 1];
      assert a[i - 1].id < a[i].id;
      ComesEarlier(a, b, i - 1, k);
    }
  }

  /** An ordered part of an ordered list that holds its first n rows starts with them. */
  lemma {:induction false} SamePrefix(part: seq<Row>, all: seq<Row>, n: nat)
    requires Ordered(part) && Ordered(all) && n <= |all|
    requires forall x | x in part :: x in all
    requires forall i | 0 <= i < n :: all[i] in part
    ensures n <= |part| && part[..n] == all[..n]
  {
    if n > 0 {
      SamePrefix(part, all, n - 1);
      var k :| 0 <= k < |part| && part[k] == all[n - 1];
      ComesEarlier(part, all, k, n - 1);
      NextInPrefix(part, all, n - 1, k);
    }
  }

  lemma NextInPrefix(part: seq<Row>, all: seq<Row>, n: nat, k: nat)
    requires Ordered(all) && n < |all| && k < |part| && k <= n <= |part| && part[..n] == all[..n] && part[k] == all[n]
    ensures k == n && part[..n + 1] == all[..n + 1]
  {
    assert forall m | 0 <= m < n :: part[m] == part[..n][m] == all[..n][m] == all[m];
    assert k == n;
    assert part[..n + 1] == part[..n] + [part[n]];
    assert all[..n + 1] == all[..n] + [all[n]];
  }

  lemma SameRows(a: seq<Row>, b: seq<Row>)
    requires Ordered(a) && Ordered(b) && forall x :: x in a <==> x in b
    ensures a == b
  {
    forall i | 0 <= i < |a| ensures a[i] in b { assert a[i] in a; }
    forall i | 0 <= i < |b| ensures b[i] in a { assert b[i] in b; }
    SamePrefix(a, b, |b|);
    SamePrefix(b, a, |a|);
  }

  // ---------- one page ----------

  predicate Selected(t: Tables, cursor: Option<int>, x: Row) {
    ((x in t.documents && t.documentFilter(x)) || (x in t.units && t.unitFilter(x))) && Past(cursor, x)
  }

  lemma Parts(t: Tables, cursor: Option<int>)
    requires KeyOrdered(t) && NoneShared(t)
    ensures var (d, u) := (Documents(t, cursor), Units(t, cursor));
            && Ordered(d) && Ordered(u) && Disjoint(d, u)
            && Ordered(Selection(t, cursor)) && forall x :: x in Selection(t, cursor) <==> x in d || x in u
  {
    hide Query;
    var d, u := Documents(t, cursor), Units(t, cursor);
    QueryOrdered(t.documents, t.documentFilter, cursor);
    QueryOrdered(t.units, t.unitFilter, cursor);
    forall i, j | 0 <= i < |d| && 0 <= j < |u| ensures d[i].id != u[j].id {
      QueryMembers(t.documents, t.documentFilter, cursor, d[i]);
      QueryMembers(t.documents, t.documentFilter, None, d[i]);
      QueryMembers(t.units, t.unitFilter, cursor, u[j]);
      QueryMembers(t.units, t.unitFilter, None, u[j]);
      assert d[i] in Documents(t, None) && u[j] in Units(t, None);
    }
    MergeOrdered(d, u);
  }

  lemma SelectionMembers(t: Tables, cursor: Option<int>, x: Row)
    ensures x in Selection(t, cursor) <==> Selected(t, cursor, x)
  {
    hide Query, Sort;
    var d, u := Documents(t, cursor), Units(t, cursor);
    QueryMembers(t.documents, t.documentFilter, cursor, x);
    QueryMembers(t.units, t.unitFilter, cursor, x);
    SortMembers(d + u, x);
  }

  /** A row among the first n of the merge is among the first n of its own table. */
  lemma InFirst(part: seq<Row>, all: seq<Row>, n: nat, i: nat)
    requires Ordered(part) && Ordered(all) && forall x | x in part :: x in all
    requires i < n && i < |all| && all[i] in part
    ensures all[i] in First(part, n)
  {
    var k :| 0 <= k < |part| && part[k] == all[i];
    ComesEarlier(part, all, k, i);
    assert k < n ==> First(part, n)[k] == part[k];
  }

  lemma FirstOrdered(s: seq<Row>, n: nat)
    requires Ordered(s)
    ensures Ordered(First(s, n)) && forall x | x in First(s, n) :: x in s
  {
  }

  /** Reading limit + 1 rows of each table is enough: the page is the first `limit` rows of everything
      selected past the cursor, `truncated` says exactly whether rows remain, and the next cursor is the
      last row's identifier. */
  lemma PageIsExact(t: Tables, cursor: Option<int>, limit: nat)
    requires KeyOrdered(t) && NoneShared(t) && limit > 0
    ensures var all, page := Selection(t, cursor), List(t, cursor, limit);
            && page.rows == First(all, limit)
            && (page.truncated <==> |all| > limit)
            && (page.next.Some? <==> page.truncated)
            && (page.truncated ==> page.next == Some(all[limit - 1].id))
            && page.total == |Documents(t, None)|
  {
    hide Sort, Query, Ordered, Disjoint;
    Parts(t, cursor);
    EnoughRead(Documents(t, cursor), Units(t, cursor), Selection(t, cursor), limit);
  }

  /** The first rows of both parts, merged, start with the first rows of the whole merge. */
  lemma EnoughRead(d: seq<Row>, u: seq<Row>, all: seq<Row>, limit: nat)
    requires Ordered(d) && Ordered(u) && Disjoint(d, u) && Ordered(all) && forall x :: x in all <==> x in d || x in u
    ensures var rows := Sort(First(d, limit + 1) + First(u, limit + 1));
            var n := if |all| > limit then limit + 1 else |all|;
            n <= |rows| <= |all| && rows[..n] == all[..n]
  {
    hide Sort;
    var fd, fu := First(d, limit + 1), First(u, limit + 1);
    FirstOrdered(d, limit + 1);
    FirstOrdered(u, limit + 1);
    MergeOrdered(fd, fu);
    var rows := Sort(fd + fu);
    var n := if |all| > limit then limit + 1 else |all|;
    forall i | 0 <= i < n ensures all[i] in rows {
      assert all[i] in all;
      if all[i] in d { InFirst(d, all, limit + 1, i); } else { InFirst(u, all, limit + 1, i); }
    }
    SamePrefix(rows, all, n);
    NoLonger(rows, all);
  }

  lemma NoLonger(part: seq<Row>, all: seq<Row>)
    requires Ordered(part) && Ordered(all) && forall x | x in part :: x in all
    ensures |part| <= |all|
  {
    if part != [] {
      assert part[|part| - 1] in part;
      var k :| 0 <= k < |all| && all[k] == part[|part| - 1];
      ComesEarlier(part, all, |part| - 1, k);
    }
  }

  // ---------- following the cursor ----------

  /** Past the last row of a page, exactly the rest of the selection is left. */
  lemma RestPastCursor(t: Tables, cursor: Option<int>, n: nat)
    requires KeyOrdered(t) && NoneShared(t) && 0 < n <= |Selection(t, cursor)|
    ensures Selection(t, Some(Selection(t, cursor)[n - 1].id)) == Selection(t, cursor)[n..]
  {
    hide Selection;
    var all := Selection(t, cursor);
    var after := Some(all[n - 1].id);
    Parts(t, cursor);
    Parts(t, after);
    var rest := Selection(t, after);
    SelectionMembers(t, cursor, all[n - 1]);
    forall x ensures x in rest <==> x in all[n..] {
      SelectionMembers(t, cursor, x);
      SelectionMembers(t, after, x);
      InRest(all, n, x);
    }
    SameRows(rest, all[n..]);
  }

  lemma InRest(all: seq<Row>, n: nat, x: Row)
    requires Ordered(all) && 0 < n <= |all|
    ensures x in all[n..] <==> x in all && x.id > all[n - 1].id
  {
    if x in all && x.id > all[n - 1].id {
      var k :| 0 <= k < |all| && all[k] == x;
      assert all[n..][k - n] == x;
    }
  }

  // ---------- counting rows below an identifier ----------

  function Below(s: seq<Row>, x: int): nat {
    if s == [] then 0 else Below(s[..|s| - 1], x) + (if s[|s| - 1].id < x then 1 else 0)
  }

  predicate Rising(s: seq<Row>) {
    forall i, j | 0 <= i < j < |s| :: s[i].id <= s[j].id
  }

  lemma {:induction false} BelowConcat(a: seq<Row>, b: seq<Row>, x: int)
    ensures Below(a + b, x) == Below(a, x) + Below(b, x)
  {
    if b == [] {
      assert a + b == a;
    } else {
      assert (a + b)[..|a + b| - 1] == a + b[..|b| - 1];
      BelowConcat(a, b[..|b| - 1], x);
    }
  }

  lemma {:induction false} BelowInsert(s: seq<Row>, y: Row, x: int)
    ensures Below(Insert(s, y), x) == Below(s, x) + (if y.id < x then 1 else 0)
  {
    if s == [] || LessEq(s[|s| - 1], y) {
      assert (s + [y])[..|s|] == s;
    } else {
      BelowInsert(s[..|s| - 1], y, x);
      assert Insert(s, y)[..|s|] == Insert(s[..|s| - 1], y);
    }
  }

  lemma {:induction false} BelowSort(s: seq<Row>, x: int)
    ensures Below(Sort(s), x) == Below(s, x)
  {
    if s != [] {
      BelowSort(s[..|s| - 1], x);
      BelowInsert(Sort(s[..|s| - 1]), s[|s| - 1], x);
    }
  }

  lemma {:induction false} InsertRising(s: seq<Row>, y: Row)
    requires Rising(s)
    ensures Rising(Insert(s, y))
  {
    if s != [] && !LessEq(s[|s| - 1], y) {
      var init, last := s[..|s| - 1], s[|s| - 1];
      InsertRising(init, y);
      var r := Insert(init, y);
      forall i | 0 <= i < |r| ensures r[i].id <= last.id {
        InsertMembers(init, y, r[i]);
      }
    }
  }

  lemma {:induction false} SortRising(s: seq<Row>)
    ensures Rising(Sort(s))
  {
    if s != [] {
      SortRising(s[..|s| - 1]);
      InsertRising(Sort(s[..|s| - 1]), s[|s| - 1]);
    }
  }

  lemma {:induction false} BelowLength(s: seq<Row>, x: int)
    ensures Below(s, x) <= |s|
  {
    if s != [] {
      BelowLength(s[..|s| - 1], x);
    }
  }

  /** In a rising list the rows below an identifier are the first ones. */
  lemma {:induction false} Rank(s: seq<Row>, x: int, i: nat)
    requires Rising(s) && i < |s|
    ensures s[i].id < x <==> i < Below(s, x)
  {
    var init, last := s[..|s| - 1], s[|s| - 1];
    BelowLength(init, x);
    if i < |s| - 1 {
      Rank(init, x, i);
      assert s[i].id <= last.id;
      if last.id < x && i + 1 < |s| {
        AllBelow(init, x);
      }
    } else if last.id < x {
      AllBelow(init, x);
    }
  }

  lemma {:induction false} AllBelow(s: seq<Row>, x: int)
    requires forall i | 0 <= i < |s| :: s[i].id < x
    ensures Below(s, x) == |s|
  {
    if s != [] {
      AllBelow(s[..|s| - 1], x);
    }
  }

  lemma {:induction false} BelowPrefix(s: seq<Row>, x: int, n: nat)
    requires n <= |s|
    ensures Below(s[..n], x) <= Below(s, x)
    ensures Rising(s) && Below(s, x) <= n ==> Below(s[..n], x) == Below(s, x)
    decreases |s| - n
  {
    if n == |s| {
      assert s[..n] == s;
    } else {
      BelowPrefix(s, x, n + 1);
      assert s[..n + 1][..n] == s[..n];
      if Rising(s) { Rank(s, x, n); }
    }
  }

  lemma BelowFirst(s: seq<Row>, x: int, n: nat)
    ensures Below(First(s, n), x) <= Below(s, x)
    ensures Rising(s) && Below(s, x) <= n ==> Below(First(s, n), x) == Below(s, x)
  {
    if n <= |s| {
      BelowPrefix(s, x, n);
    }
  }

  /** Moving the cursor up to x drops exactly the rows up to x. */
  lemma {:induction false} QueryRest(s: seq<Row>, keep: Filter, cursor: Option<int>, x: int)
    requires cursor.Some? ==> cursor.value <= x
    ensures |Query(s, keep, Some(x))| + Below(Query(s, keep, cursor), x + 1) == |Query(s, keep, cursor)|
  {
    hide Below;
    if s == [] {
      BelowLength([], x + 1);
    } else {
      var init, last := s[..|s| - 1], s[|s| - 1];
      QueryRest(init, keep, cursor, x);
      var q, r := Query(init, keep, cursor), Query(init, keep, Some(x));
      assert q + [] == q && r + [] == r;
      BelowLast(q, last, x + 1);
    }
  }

  lemma BelowLast(s: seq<Row>, y: Row, x: int)
    ensures Below(s + [y], x) == Below(s, x) + (if y.id < x then 1 else 0)
  {
    assert (s + [y])[..|s|] == s;
  }

  // ---------- the walk, whatever the tables hold ----------

  function Remaining(t: Tables, cursor: Option<int>): nat {
    |Documents(t, cursor)| + |Units(t, cursor)|
  }

  lemma ReadBelow(t: Tables, cursor: Option<int>, limit: nat, x: int)
    ensures Below(Read(t, cursor, limit), x) <= Below(Documents(t, cursor), x) + Below(Units(t, cursor), x)
    ensures KeyOrdered(t) && Below(Documents(t, cursor), x) <= limit + 1 && Below(Units(t, cursor), x) <= limit + 1 ==>
              Below(Read(t, cursor, limit), x) == Below(Documents(t, cursor), x) + Below(Units(t, cursor), x)
  {
    hide Query, Sort, First, Below;
    var d, u := Documents(t, cursor), Units(t, cursor);
    BelowSort(First(d, limit + 1) + First(u, limit + 1), x);
    BelowConcat(First(d, limit + 1), First(u, limit + 1), x);
    BelowFirst(d, x, limit + 1);
    BelowFirst(u, x, limit + 1);
    if KeyOrdered(t) {
      QueryOrdered(t.documents, t.documentFilter, cursor);
      QueryOrdered(t.units, t.unitFilter, cursor);
    }
  }

  /** Following a page's cursor leaves at least a page fewer rows. */
  lemma Shrinks(t: Tables, cursor: Option<int>, limit: nat)
    requires limit > 0 && List(t, cursor, limit).next.Some?
    ensures Remaining(t, List(t, cursor, limit).next) + limit <= Remaining(t, cursor)
  {
    hide Query, Sort, Below;
    var rows := Read(t, cursor, limit);
    var x := rows[limit - 1].id;
    SortRising(First(Documents(t, cursor), limit + 1) + First(Units(t, cursor), limit + 1));
    Rank(rows, x + 1, limit - 1);
    ReadBelow(t, cursor, limit, x + 1);
    ReadPast(t, cursor, limit, rows[limit - 1]);
    QueryRest(t.documents, t.documentFilter, cursor, x);
    QueryRest(t.units, t.unitFilter, cursor, x);
  }

  lemma ReadPast(t: Tables, cursor: Option<int>, limit: nat, y: Row)
    requires y in Read(t, cursor, limit)
    ensures Past(cursor, y)
  {
    hide Query, Sort;
    SortMembers(First(Documents(t, cursor), limit + 1) + First(Units(t, cursor), limit + 1), y);
    QueryMembers(t.documents, t.documentFilter, cursor, y);
    QueryMembers(t.units, t.unitFilter, cursor, y);
  }

  /** The rows met by following `next` from a cursor until there is none. */
  function Walk(t: Tables, cursor: Option<int>, limit: nat): seq<Row>
    requires limit > 0
    decreases Remaining(t, cursor)
  {
    var page := List(t, cursor, limit);
    match page.next
    case None => page.rows
    case Some(id) =>
      Shrinks(t, cursor, limit);
      page.rows + Walk(t, Some(id), limit)
  }

  /** A walk meets no more rows than are left. */
  lemma {:induction false} WalkShort(t: Tables, cursor: Option<int>, limit: nat)
    requires limit > 0
    ensures |Walk(t, cursor, limit)| <= Remaining(t, cursor)
    decreases Remaining(t, cursor)
  {
    hide Query, Sort;
    if List(t, cursor, limit).next.Some? {
      Shrinks(t, cursor, limit);
      WalkShort(t, List(t, cursor, limit).next, limit);
    }
  }

  lemma {:induction false} WalkFrom(t: Tables, cursor: Option<int>, limit: nat)
    requires KeyOrdered(t) && NoneShared(t) && limit > 0
    ensures Walk(t, cursor, limit) == Selection(t, cursor)
    decreases Remaining(t, cursor)
  {
    hide List, Selection, Remaining;
    PageIsExact(t, cursor, limit);
    if |Selection(t, cursor)| > limit {
      Shrinks(t, cursor, limit);
      RestPastCursor(t, cursor, limit);
      WalkFrom(t, List(t, cursor, limit).next, limit);
    }
  }

  /** Following the cursor from the start terminates and visits every selected document and quarantined
      unit exactly once, in identifier order. */
  lemma WalkVisitsAll(t: Tables, limit: nat)
    requires KeyOrdered(t) && NoneShared(t) && limit > 0
    ensures var seen := Walk(t, None, limit);
            && Ordered(seen) && VisitsEach(t, limit)
            && forall x :: x in seen <==> Selected(t, None, x)
  {
    hide Walk;
    WalkFrom(t, None, limit);
    Parts(t, None);
    SortPermutes(Documents(t, None) + Units(t, None));
    forall x ensures x in Walk(t, None, limit) <==> Selected(t, None, x) {
      SelectionMembers(t, None, x);
    }
  }

  // ---------- exactly when the walk is complete ----------

  /** Pages of this size show every selected document and unit, each once. */
  ghost predicate VisitsEach(t: Tables, limit: nat) {
    limit > 0 ==> multiset(Walk(t, None, limit)) == multiset(Documents(t, None)) + multiset(Units(t, None))
  }

  /** The rank of a row in its own, strictly ordered table. */
  lemma OwnRank(s: seq<Row>, i: nat)
    requires Ordered(s) && i < |s|
    ensures Below(s, s[i].id) == i && Below(s, s[i].id + 1) == i + 1
  {
    var x := s[i].id;
    BelowLength(s, x);
    BelowLength(s, x + 1);
    Rank(s, x, i);
    Rank(s, x + 1, i);
    if i > 0 { Rank(s, x, i - 1); }
    if i + 1 < |s| { Rank(s, x + 1, i + 1); }
  }

  lemma WalkSplits(t: Tables, limit: nat)
    requires limit > 0 && List(t, None, limit).next.Some?
    ensures |Walk(t, None, limit)| <= limit + Remaining(t, List(t, None, limit).next)
  {
    Shrinks(t, None, limit);
    WalkShort(t, List(t, None, limit).next, limit);
  }

  /** When a unit shares a document's identifier, the page that ends between the two loses a row: its
      cursor is past both. */
  lemma SharedIdentifierIsLost(t: Tables, i: nat, j: nat)
    requires KeyOrdered(t) && i < |Documents(t, None)| && j < |Units(t, None)|
    requires Documents(t, None)[i].id == Units(t, None)[j].id
    ensures |Walk(t, None, i + j + 1)| < |Documents(t, None)| + |Units(t, None)|
  {
    hide Query, Sort, Below, Rising, Walk;
    var d, u, limit := Documents(t, None), Units(t, None), i + j + 1;
    var x, rows := d[i].id, Read(t, None, limit);
    QueryOrdered(t.documents, t.documentFilter, None);
    QueryOrdered(t.units, t.unitFilter, None);
    OwnRank(d, i);
    OwnRank(u, j);
    ReadBelow(t, None, limit, x);
    ReadBelow(t, None, limit, x + 1);
    BelowLength(rows, x + 1);
    SortRising(First(d, limit + 1) + First(u, limit + 1));
    Rank(rows, x, limit - 1);
    Rank(rows, x + 1, limit - 1);
    WalkSplits(t, limit);
    QueryRest(t.documents, t.documentFilter, None, x);
    QueryRest(t.units, t.unitFilter, None, x);
  }

  /** Every page size shows every selected row exactly once if and only if no selected unit shares the
      identifier of a selected document. */
  lemma CompleteExactly(t: Tables)
    requires KeyOrdered(t)
    ensures (forall limit :: VisitsEach(t, limit)) <==> NoneShared(t)
  {
    hide Walk, Documents, Units;
    if NoneShared(t) {
      forall limit ensures VisitsEach(t, limit) {
        if limit > 0 { WalkVisitsAll(t, limit); }
      }
    } else {
      var i, j :| 0 <= i < |Documents(t, None)| && 0 <= j < |Units(t, None)| && Documents(t, None)[i].id == Units(t, None)[j].id;
      SharedIdentifierIsLost(t, i, j);
      MissesRow(t, i + j + 1);
    }
  }

  lemma MissesRow(t: Tables, limit: nat)
    requires limit > 0 && |Walk(t, None, limit)| < |Documents(t, None)| + |Units(t, None)|
    ensures !VisitsEach(t, limit)
  {
    hide Walk, Documents, Units;
    assert |multiset(Documents(t, None)) + multiset(Units(t, None))| == |Documents(t, None)| + |Units(t, None)|;
    assert |multiset(Walk(t, None, limit))| == |Walk(t, None, limit)|;
  }

  // ---------- the listing with its in-place sort ----------

  /** `rows.sort` on a list built from the two queries. */
  method SortRows(rows: seq<Row>) returns (sorted: seq<Row>)
    ensures sorted == Sort(rows)
  {
    sorted := [];
    for i := 0 to |rows|
      invariant sorted == Sort(rows[..i])
    {
      assert rows[..i + 1][..i] == rows[..i];
      sorted := InsertRow(sorted, rows[i]);
    }
    assert rows[..|rows|] == rows;
  }

  method InsertRow(s: seq<Row>, x: Row) returns (r: seq<Row>)
    ensures r == Insert(s, x)
  {
    var k := |s|;
    assert s[..k] == s;
    while k > 0 && !LessEq(s[k - 1], x)
      invariant 0 <= k <= |s|
      invariant Insert(s, x) == Insert(s[..k], x) + s[k..]
    {
      assert s[..k][..k - 1] == s[..k - 1];
      assert [s[k - 1]] + s[k..] == s[k - 1..];
      k := k - 1;
    }
    r := s[..k] + [x] + s[k..];
  }

  method ListStatus(t: Tables, cursor: Option<int>, limit: nat) returns (page: Page)
    requires limit > 0
    ensures page == List(t, cursor, limit)
  {
    hide Sort, Query;
    var total := |Query(t.documents, t.documentFilter, None)|;
    var documents := First(Query(t.documents, t.documentFilter, cursor), limit + 1);
    var quarantined := First(Query(t.units, t.unitFilter, cursor), limit + 1);
    var rows := SortRows(documents + quarantined);
    page := Page(First(rows, limit), total, false, None);
    if |rows| > limit {
      page := page.(truncated := true, next := Some(page.rows[|page.rows| - 1].id));
    }
  }
}
