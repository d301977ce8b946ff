/**
  The settlement rows, and the boundary that a frozen exit review pins: the newest settlement revision per
  period and currency at a ledger index.
*/
module SettlementBoundaries {
  import opened Protocol
  import opened TextOrder

  /** A settlement row, with the pool amounts of its operator groups. */
  datatype Settled = Settled(
    settlementId: string, period: string, currencyCode: string, fractionDigits: int, revision: int,
    ledgerIndex: int, settlementHash: string, sourceFingerprint: string, allocationHash: string, acceptedAt: int,
    groupMinor: map<string, int>)

  /** The patterns that identifiers and digests of a settlement are checked against. */
  datatype Patterns = Patterns(settlementIds: iset<string>, digests: iset<string>)

  predicate IsCurrencyCode(code: string) {
    |code| == 3 && forall i :: 0 <= i < 3 ==> 'A' <= code[i] <= 'Z'
  }

  /** The constraints on one row. */
  predicate RowOk(p: Patterns, x: Settled) {
    && x.settlementId in p.settlementIds && IsCurrencyCode(x.currencyCode) && 0 <= x.fractionDigits <= 4
    && x.revision >= 1 && x.ledgerIndex >= 1
    && x.settlementHash in p.digests && x.sourceFingerprint in p.digests && x.allocationHash in p.digests
  }

  /** The unique constraints: IDs, hashes, and the revisions and fingerprints of a period and currency. */
  predicate NewRow(rows: seq<Settled>, x: Settled) {
    forall i :: 0 <= i < |rows| ==>
      && rows[i].settlementId != x.settlementId && rows[i].settlementHash != x.settlementHash
      && (SameGroup(rows[i], x) ==> rows[i].revision != x.revision && rows[i].sourceFingerprint != x.sourceFingerprint)
  }

  /** The rows by their IDs. */
  function ById(rows: seq<Settled>): map<string, Settled> {
    if rows == [] then map[]
    else
      var last := rows[|rows| - 1];
      ById(rows[..|rows| - 1])[last.settlementId := last]
  }

  ghost predicate IdsUnique(rows: seq<Settled>) {
    forall i, j :: 0 <= i < j < |rows| ==> rows[i].settlementId != rows[j].settlementId
  }

  lemma {:induction false} ByIdFinds(rows: seq<Settled>, k: nat)
    requires IdsUnique(rows) && k < |rows|
    ensures rows[k].settlementId in ById(rows) && ById(rows)[rows[k].settlementId] == rows[k]
  {
    if k < |rows| - 1 {
      ByIdFinds(rows[..|rows| - 1], k);
    }
  }

  lemma {:induction false} ByIdIn(rows: seq<Settled>, id: string) returns (k: nat)
    requires id in ById(rows)
    ensures k < |rows| && rows[k].settlementId == id && ById(rows)[id] == rows[k]
  {
    if rows[|rows| - 1].settlementId == id {
      k := |rows| - 1;
    } else {
      k := ByIdIn(rows[..|rows| - 1], id);
    }
  }

  /** A row keeps its place under its ID while rows are added. */
  lemma ByIdStays(rows: seq<Settled>, more: seq<Settled>, id: string)
    requires rows <= more && IdsUnique(more) && id in ById(rows)
    ensures id in ById(more) && ById(more)[id] == ById(rows)[id]
  {
    var k := ByIdIn(rows, id);
    assert more[k] == rows[k];
    ByIdFinds(more, k);
  }

  predicate SameGroup(a: Settled, b: Settled) {
    a.period == b.period && a.currencyCode == b.currencyCode
  }

  /** The order of the result: by period, then by currency. */
  predicate Before(a: Settled, b: Settled) {
    Less(a.period, b.period) || (a.period == b.period && Less(a.currencyCode, b.currencyCode))
  }

  predicate Newer(a: Settled, b: Settled) {
    a.revision > b.revision || (a.revision == b.revision && a.ledgerIndex > b.ledgerIndex)
  }

  lemma BeforeTransitive(a: Settled, b: Settled, c: Settled)
    requires Before(a, b) && Before(b, c)
    ensures Before(a, c)
  {
    if Less(a.period, b.period) && Less(b.period, c.period) {
      LessTransitive(a.period, b.period, c.period);
    } else if a.period == b.period == c.period {
      LessTransitive(a.currencyCode, b.currencyCode, c.currencyCode);
    }
  }

  lemma BeforeIrreflexive(a: Settled, b: Settled)
    requires SameGroup(a, b)
    ensures !Before(a, b)
  {
    LessIrreflexive(a.period);
    LessIrreflexive(a.currencyCode);
  }

  lemma BeforeTotal(a: Settled, b: Settled)
    requires !Before(a, b) && !SameGroup(a, b)
    ensures Before(b, a)
  {
    if !Less(b.period, a.period) {
      LessTotal(a.period, b.period);
      if !Less(b.currencyCode, a.currencyCode) {
        LessTotal(a.currencyCode, b.currencyCode);
      }
    }
  }

  ghost predicate Sorted(s: seq<Settled>) {
    forall i, j :: 0 <= i < j < |s| ==> Before(s[i], s[j])
  }

  /** `x` is the newest row of its group at or below the cut-off. */
  ghost predicate NewestAt(rows: seq<Settled>, through: int, x: Settled) {
    && x in rows && x.ledgerIndex <= through
    && forall y :: y in rows && y.ledgerIndex <= through && SameGroup(x, y) ==> !Newer(y, x)
  }

  /** The unique constraint on revisions: two rows of a group differ in their revision. */
  ghost predicate RevisionsUnique(rows: seq<Settled>) {
    forall x, y :: x in rows && y in rows && SameGroup(x, y) && x.revision == y.revision ==> x == y
  }

  /** Put a row in its place, or in the place of an older row of its group. */
  function Insert(s: seq<Settled>, x: Settled): seq<Settled> {
    if s == [] then [x]
    else if SameGroup(s[0], x) then [if Newer(x, s[0]) then x else s[0]] + s[1..]
    else if Before(x, s[0]) then [x] + s
    else [s[0]] + Insert(s[1..], x)
  }

  /** The first-ranked rows, in order. */
  function Ranked(rows: seq<Settled>, through: int): seq<Settled> {
    if rows == [] then []
    else
      var last, rest := rows[|rows| - 1], Ranked(rows[..|rows| - 1], through);
      if last.ledgerIndex <= through then Insert(rest, last) else rest
  }

  function BoundaryOf(x: Settled, order: int): SettlementBoundary {
    SettlementBoundary(order, x.settlementId, x.period, x.currencyCode, x.revision, x.ledgerIndex,
                       x.settlementHash, x.sourceFingerprint, x.allocationHash)
  }

  function Boundaries(rows: seq<Settled>, through: int): (b: seq<SettlementBoundary>)
    ensures |b| == |Ranked(rows, through)|
    ensures forall i :: 0 <= i < |b| ==> b[i] == BoundaryOf(Ranked(rows, through)[i], i)
  {
    var s := Ranked(rows, through);
    seq(|s|, i requires 0 <= i < |s| => BoundaryOf(s[i], i))
  }

  /** Who is in a list after an insertion: the other groups' rows, and one row of the inserted group. */
  lemma {:induction false} InsertMembers(s: seq<Settled>, x: Settled)
    requires Sorted(s)
    ensures forall y :: !SameGroup(y, x) ==> (y in Insert(s, x) <==> y in s)
    ensures forall y :: y in Insert(s, x) && SameGroup(y, x) ==> (y == x || y in s) && !Newer(x, y)
    ensures forall y :: y in s && SameGroup(y, x) ==>
              forall z :: z in Insert(s, x) && SameGroup(z, x) ==> z == y || Newer(z, y)
    ensures exists y :: y in Insert(s, x) && SameGroup(y, x)
  {
    if s == [] {
      assert x in Insert(s, x);
    } else {
      SortedTail(s);
      var r := Insert(s, x);
      if SameGroup(s[0], x) {
        forall y | y in s[1..]
          ensures !SameGroup(y, x)
        {
          HeadBefore(s, y);
          if SameGroup(y, x) { BeforeIrreflexive(s[0], y); }
        }
        assert r[0] in r;
        assert forall y :: y in r <==> y == r[0] || y in s[1..];
      } else if Before(x, s[0]) {
        forall y | y in s
          ensures !SameGroup(y, x)
        {
          if SameGroup(y, x) {
            if y != s[0] {
              HeadBefore(s, y);
              BeforeTransitive(x, s[0], y);
            }
            BeforeIrreflexive(x, y);
          }
        }
        assert r[0] in r;
      } else {
        InsertMembers(s[1..], x);
        assert forall y :: y in r <==> y == s[0] || y in Insert(s[1..], x);
        assert forall y :: y in s <==> y == s[0] || y in s[1..];
      }
    }
  }

  lemma SortedTail(s: seq<Settled>)
    requires Sorted(s) && s != []
    ensures Sorted(s[1..])
  {
  }

  lemma HeadBefore(s: seq<Settled>, y: Settled)
    requires Sorted(s) && s != [] && y in s[1..]
    ensures Before(s[0], y)
  {
    var i :| 0 <= i < |s| - 1 && s[1..][i] == y;
    assert s[i + 1] == y;
  }

  lemma SortedCons(x: Settled, s: seq<Settled>)
    requires Sorted(s) && forall y :: y in s ==> Before(x, y)
    ensures Sorted([x] + s)
  {
  }

  lemma {:induction false} InsertSorted(s: seq<Settled>, x: Settled)
    requires Sorted(s)
    ensures Sorted(Insert(s, x))
  {
    if s != [] {
      SortedTail(s);
      forall y | y in s[1..]
        ensures Before(s[0], y)
      {
        HeadBefore(s, y);
      }
      if SameGroup(s[0], x) {
        SortedCons(if Newer(x, s[0]) then x else s[0], s[1..]);
      } else if Before(x, s[0]) {
        forall y | y in s
          ensures Before(x, y)
        {
          if y != s[0] {
            BeforeTransitive(x, s[0], y);
          }
        }
        SortedCons(x, s);
      } else {
        BeforeTotal(x, s[0]);
        InsertSorted(s[1..], x);
        InsertMembers(s[1..], x);
        SortedCons(s[0], Insert(s[1..], x));
      }
    }
  }

  /** The list has a row of the group of `y` that is not older. */
  ghost predicate Dominated(s: seq<Settled>, y: Settled) {
    exists z :: z in s && SameGroup(z, y) && !Newer(y, z)
  }

  ghost predicate Ranks(rows: seq<Settled>, through: int, s: seq<Settled>) {
    && Sorted(s)
    && (forall x :: x in s ==> x in rows && x.ledgerIndex <= through)
    && (forall y :: y in rows && y.ledgerIndex <= through ==> Dominated(s, y))
  }

  lemma InsertDominates(s: seq<Settled>, x: Settled, y: Settled)
    requires Sorted(s) && (y == x || Dominated(s, y))
    ensures Dominated(Insert(s, x), y)
  {
    InsertMembers(s, x);
    if SameGroup(y, x) {
      var z :| z in Insert(s, x) && SameGroup(z, x);
      if y != x {
        var v :| v in s && SameGroup(v, y) && !Newer(y, v);
      }
    } else {
      var v :| v in s && SameGroup(v, y) && !Newer(y, v);
      assert v in Insert(s, x);
    }
  }

  lemma InsertFrom(s: seq<Settled>, x: Settled, y: Settled)
    requires Sorted(s) && y in Insert(s, x)
    ensures y == x || y in s
  {
    InsertMembers(s, x);
  }

  lemma {:induction false} RankedRanks(rows: seq<Settled>, through: int)
    ensures Ranks(rows, through, Ranked(rows, through))
  {
    if rows != [] {
      var n := |rows| - 1;
      var init, last := rows[..n], rows[n];
      var s, r := Ranked(init, through), Ranked(rows, through);
      assert rows == init + [last];
      RankedRanks(init, through);
      if last.ledgerIndex <= through {
        InsertSorted(s, last);
        forall x | x in r
          ensures x in rows && x.ledgerIndex <= through
        {
          InsertFrom(s, last, x);
        }
        forall y | y in rows && y.ledgerIndex <= through
          ensures Dominated(r, y)
        {
          InsertDominates(s, last, y);
        }
      }
    }
  }

  lemma OneOfGroup(s: seq<Settled>, x: Settled, y: Settled)
    requires Sorted(s) && x in s && y in s && SameGroup(x, y)
    ensures x == y
  {
    var i :| 0 <= i < |s| && s[i] == x;
    var j :| 0 <= j < |s| && s[j] == y;
    BeforeIrreflexive(x, y);
    BeforeIrreflexive(y, x);
  }

  /** The boundary holds exactly the newest revision of every period and currency, in order. */
  lemma RankedExactly(rows: seq<Settled>, through: int, x: Settled)
    requires RevisionsUnique(rows)
    ensures Sorted(Ranked(rows, through))
    ensures x in Ranked(rows, through) <==> NewestAt(rows, through, x)
  {
    var s := Ranked(rows, through);
    RankedRanks(rows, through);
    if x in s {
      forall y | y in rows && y.ledgerIndex <= through && SameGroup(x, y)
        ensures !Newer(y, x)
      {
        assert Dominated(s, y);
        var z :| z in s && SameGroup(z, y) && !Newer(y, z);
        OneOfGroup(s, x, z);
      }
    }
    if NewestAt(rows, through, x) {
      assert Dominated(s, x);
      var z :| z in s && SameGroup(z, x) && !Newer(x, z);
      assert z == x;
    }
  }

  /** A sorted list is determined by its elements: the boundary is the only list with its meaning. */
  lemma {:induction false} BoundaryUnique(s: seq<Settled>, t: seq<Settled>)
    requires Sorted(s) && Sorted(t) && forall x :: x in s <==> x in t
    ensures s == t
  {
    assert t != [] ==> t[0] in t;
    if s != [] {
      assert s[0] in t;
      if s[0] != t[0] {
        assert s[0] in t[1..] && t[0] in s[1..];
        HeadBefore(s, t[0]);
        HeadBefore(t, s[0]);
        BeforeTransitive(s[0], t[0], s[0]);
        BeforeIrreflexive(s[0], s[0]);
      }
      TailMembers(s);
      TailMembers(t);
      BoundaryUnique(s[1..], t[1..]);
    }
  }

  lemma TailMembers(s: seq<Settled>)
    requires Sorted(s) && s != []
    ensures Sorted(s[1..]) && forall x :: x in s[1..] <==> x in s && x != s[0]
  {
    forall x | x in s[1..]
      ensures x != s[0]
    {
      HeadBefore(s, x);
      BeforeIrreflexive(s[0], s[0]);
    }
  }

  /** Settlements at later ledger indexes leave the recomputed boundary identical. */
  lemma {:induction false} BoundaryStable(rows: seq<Settled>, later: seq<Settled>, through: int)
    requires forall i :: 0 <= i < |later| ==> later[i].ledgerIndex > through
    ensures Ranked(rows + later, through) == Ranked(rows, through)
    ensures Boundaries(rows + later, through) == Boundaries(rows, through)
    decreases |later|
  {
    if later == [] {
      assert rows + later == rows;
    } else {
      var n := |later| - 1;
      assert (rows + later)[..|rows| + n] == rows + later[..n];
      BoundaryStable(rows, later[..n], through);
    }
    assert Boundaries(rows + later, through) == Boundaries(rows, through);
  }

  /** A boundary entry is the ranked row at its position, which is one of the rows. */
  lemma BoundaryRow(rows: seq<Settled>, through: int, i: nat)
    requires i < |Boundaries(rows, through)|
    ensures exists k :: 0 <= k < |rows| && rows[k].ledgerIndex <= through
                        && Boundaries(rows, through)[i] == BoundaryOf(rows[k], i)
  {
    RankedRanks(rows, through);
    var x := Ranked(rows, through)[i];
    assert x in rows;
  }

  /** At the cut-off, no row of this period and currency has a higher revision. */
  ghost predicate NoneNewer(rows: seq<Settled>, through: int, x: Settled) {
    forall j :: 0 <= j < |rows| && rows[j].ledgerIndex <= through && rows[j].period == x.period
                && rows[j].currencyCode == x.currencyCode ==>
      rows[j].revision <= x.revision
  }

  predicate Copies(b: SettlementBoundary, x: Settled) {
    && b.settlementId == x.settlementId && b.period == x.period && b.currencyCode == x.currencyCode
    && b.revision == x.revision && b.ledgerIndex == x.ledgerIndex && b.settlementHash == x.settlementHash
    && b.sourceFingerprint == x.sourceFingerprint && b.allocationHash == x.allocationHash
  }

  /** The row is that of a settlement, at the cut-off the newest revision of its period and currency. */
  ghost predicate RowReads(rows: seq<Settled>, through: int, b: SettlementBoundary) {
    exists k :: 0 <= k < |rows| && rows[k].ledgerIndex <= through && NoneNewer(rows, through, rows[k])
                && Copies(b, rows[k])
  }

  predicate IsFor(b: SettlementBoundary, period: string, currency: string) {
    b.period == period && b.currencyCode == currency
  }

  ghost predicate ListsFor(b: seq<SettlementBoundary>, period: string, currency: string) {
    exists i :: 0 <= i < |b| && IsFor(b[i], period, currency)
  }

  /**
    The list has one row, the newest, for each period and currency that has a settlement at the cut-off, in the
    order of periods and then of currencies, and numbered from 0.
  */
  ghost predicate ReadsBoundary(rows: seq<Settled>, through: int, b: seq<SettlementBoundary>) {
    && (forall i :: 0 <= i < |b| ==> b[i].boundaryOrder == i && RowReads(rows, through, b[i]))
    && (forall i, j :: 0 <= i < j < |b| ==>
          || Less(b[i].period, b[j].period)
          || (b[i].period == b[j].period && Less(b[i].currencyCode, b[j].currencyCode)))
    && forall k :: 0 <= k < |rows| && rows[k].ledgerIndex <= through ==>
         ListsFor(b, rows[k].period, rows[k].currencyCode)
  }

  lemma BoundaryReads(rows: seq<Settled>, through: int)
    requires RevisionsUnique(rows)
    ensures ReadsBoundary(rows, through, Boundaries(rows, through))
  {
    hide Ranked, RowReads, ListsFor, RevisionsUnique;
    var b := Boundaries(rows, through);
    RankedInOrder(rows, through);
    forall i | 0 <= i < |b|
      ensures RowReads(rows, through, b[i])
    {
      RankedReads(rows, through, i);
    }
    forall k | 0 <= k < |rows| && rows[k].ledgerIndex <= through
      ensures ListsFor(b, rows[k].period, rows[k].currencyCode)
    {
      RankedLists(rows, through, k);
    }
  }

  lemma RankedReads(rows: seq<Settled>, through: int, i: nat)
    requires RevisionsUnique(rows) && i < |Ranked(rows, through)|
    ensures RowReads(rows, through, BoundaryOf(Ranked(rows, through)[i], i))
  {
    hide Sorted, Ranked;
    var x := Ranked(rows, through)[i];
    RankedExactly(rows, through, x);
    var k :| 0 <= k < |rows| && rows[k] == x;
    forall j | 0 <= j < |rows| && rows[j].ledgerIndex <= through && SameGroup(x, rows[j])
      ensures rows[j].revision <= x.revision
    {
      assert rows[j] in rows;
    }
  }

  lemma RankedLists(rows: seq<Settled>, through: int, k: nat)
    requires k < |rows| && rows[k].ledgerIndex <= through
    ensures ListsFor(Boundaries(rows, through), rows[k].period, rows[k].currencyCode)
  {
    hide Sorted, Ranked;
    var s := Ranked(rows, through);
    RankedRanks(rows, through);
    assert Dominated(s, rows[k]);
    var z :| z in s && SameGroup(z, rows[k]) && !Newer(rows[k], z);
    var i :| 0 <= i < |s| && s[i] == z;
    assert IsFor(Boundaries(rows, through)[i], rows[k].period, rows[k].currencyCode);
  }

  lemma RankedInOrder(rows: seq<Settled>, through: int)
    ensures var s := Ranked(rows, through);
            forall i, j :: 0 <= i < j < |s| ==> Before(s[i], s[j])
  {
    RankedRanks(rows, through);
  }

  /** The largest ledger index of a boundary list, or 0. */
  function LastIndex(b: seq<SettlementBoundary>): (last: int)
    ensures last >= 0
  {
    if b == [] then 0
    else
      var rest, last := LastIndex(b[..|b| - 1]), b[|b| - 1].ledgerIndex;
      if last > rest then last else rest
  }

  /** Read the ranked rows into the boundary list, with the largest ledger index among them. */
  method SettlementsAtBoundary(rows: seq<Settled>, through: int)
    returns (boundaries: seq<SettlementBoundary>, last: int)
    ensures boundaries == Boundaries(rows, through) && last == LastIndex(boundaries)
    ensures forall i :: 0 <= i < |boundaries| ==> boundaries[i].ledgerIndex <= last
    ensures last == 0 || exists i :: 0 <= i < |boundaries| && boundaries[i].ledgerIndex == last
  {
    var ranked := Ranked(rows, through);
    boundaries, last := [], 0;
    while |boundaries| < |ranked|
      invariant |boundaries| <= |ranked| && last == LastIndex(boundaries)
      invariant forall i :: 0 <= i < |boundaries| ==> boundaries[i] == BoundaryOf(ranked[i], i)
      invariant forall i :: 0 <= i < |boundaries| ==> boundaries[i].ledgerIndex <= last
      invariant last == 0 || exists i :: 0 <= i < |boundaries| && boundaries[i].ledgerIndex == last
    {
      var boundary := BoundaryOf(ranked[|boundaries|], |boundaries|);
      assert (boundaries + [boundary])[..|boundaries|] == boundaries;
      boundaries := boundaries + [boundary];
      if boundary.ledgerIndex > last {
        last := boundary.ledgerIndex;
        assert boundaries[|boundaries| - 1].ledgerIndex == last;
      }
    }
  }
}
