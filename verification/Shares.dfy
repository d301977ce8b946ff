/**
  Exact shares of the founder and of the operators, and the split of a whole amount by largest remainders.
*/
module Shares {
  import opened Basics
  import opened TextOrder

  const FOUNDER_UNITS: int := 100_000
  const WEIGHT_MONTHS: int := 6
  const FOUNDER_SCALED: int := FOUNDER_UNITS * WEIGHT_MONTHS
  const MAX_INT64: int := 0x7fff_ffff_ffff_ffff
  const TWO_64: int := 0x1_0000_0000_0000_0000

  /** An integer wrapped around to 64 bits. */
  function Wrap(x: int): int {
    var w := x % TWO_64;
    if w > MAX_INT64 then w - TWO_64 else w
  }

  /** The founder's part of the measured weight, and at least a tenth. */
  function FounderShare(measuredWeight: int): real
    requires 0 <= measuredWeight <= MAX_INT64
  {
    var share := FOUNDER_SCALED as real / Wrap(FOUNDER_SCALED + measuredWeight) as real;
    if share < 0.1 then 0.1 else share
  }

  datatype View = FounderView | ClaimedView | OtherView

  /** One row of the leaderboard; `eligible` says that its claim is claimed or approved. */
  datatype Row = Row(eligible: bool, weight: int)

  function LeaderboardShare(view: View, row: Row, measuredWeight: int, claimedWeight: int): real
    requires 0 <= measuredWeight <= MAX_INT64
  {
    var founder := FounderShare(measuredWeight);
    if view == FounderView then founder
    else if view != ClaimedView || !row.eligible || claimedWeight <= 0 || row.weight <= 0 then 0.0
    else (1.0 - founder) * (row.weight as real / claimedWeight as real)
  }

  /** The weight of the rows whose claims are eligible. */
  function EligibleWeight(rows: seq<Row>): int {
    if rows == [] then 0
    else EligibleWeight(rows[1..]) + if rows[0].eligible && rows[0].weight > 0 then rows[0].weight else 0
  }

  function OperatorShares(rows: seq<Row>, measuredWeight: int, claimedWeight: int): real
    requires 0 <= measuredWeight <= MAX_INT64
  {
    if rows == [] then 0.0
    else LeaderboardShare(ClaimedView, rows[0], measuredWeight, claimedWeight)
         + OperatorShares(rows[1..], measuredWeight, claimedWeight)
  }

  lemma ScaleCompare(x: real, y: real, p: real)
    requires p > 0.0
    ensures x > y <==> x * p > y * p
    ensures x == y <==> x * p == y * p
  {
  }

  lemma QuotientTenth(a: int, b: int)
    requires a > 0 && b > 0
    ensures a as real / b as real < 0.1 <==> 10 * a < b
  {
    var q := a as real / b as real;
    assert q * b as real == a as real;
    ScaleCompare(0.1, q, b as real);
  }

  lemma NegativeQuotient(a: int, b: int)
    requires a > 0 && b < 0
    ensures a as real / b as real < 0.0
  {
    var q := a as real / b as real;
    assert q * b as real == a as real;
    if q >= 0.0 {
      ProductSign(q, b as real);
    }
  }

  lemma ProductSign(x: real, y: real)
    requires x >= 0.0 && y <= 0.0
    ensures x * y <= 0.0
  {
  }

  /** The wrapped sum gives the same share as the exact one: past nine times the units the floor decides. */
  lemma FounderShareExact(measuredWeight: int)
    requires 0 <= measuredWeight <= MAX_INT64
    ensures FounderShare(measuredWeight)
            == if measuredWeight > 5_400_000 then 0.1
               else 600_000.0 / (600_000 + measuredWeight) as real
    ensures 0.1 <= FounderShare(measuredWeight) <= 1.0
  {
    var sum := Wrap(FOUNDER_SCALED + measuredWeight);
    if FOUNDER_SCALED + measuredWeight <= MAX_INT64 {
      assert sum == FOUNDER_SCALED + measuredWeight;
      QuotientTenth(FOUNDER_SCALED, sum);
      QuotientAtMostOne(FOUNDER_SCALED, sum);
    } else {
      assert sum == FOUNDER_SCALED + measuredWeight - TWO_64;
      NegativeQuotient(FOUNDER_SCALED, sum);
    }
  }

  lemma QuotientAtMostOne(a: int, b: int)
    requires 0 < a <= b
    ensures a as real / b as real <= 1.0
  {
    var q := a as real / b as real;
    assert q * b as real == a as real;
    ScaleCompare(q, 1.0, b as real);
  }

  lemma LargerFactor(p: real, x: real, y: real)
    requires p >= 0.0 && x <= y
    ensures p * x <= p * y
  {
  }

  lemma QuotientAntitone(a: int, b: int, c: int)
    requires 0 < a && 0 < b <= c
    ensures a as real / c as real <= a as real / b as real
  {
    var p, q := a as real / b as real, a as real / c as real;
    assert p * b as real == a as real && q * c as real == a as real;
    ScaleCompare(0.0, p, b as real);
    LargerFactor(p, b as real, c as real);
    ScaleCompare(q, p, c as real);
  }

  /** The founder's share never rises as measured weight grows. */
  lemma FounderShareFalls(w: int, v: int)
    requires 0 <= w <= v <= MAX_INT64
    ensures FounderShare(v) <= FounderShare(w)
  {
    FounderShareExact(w);
    FounderShareExact(v);
    QuotientAntitone(FOUNDER_SCALED, FOUNDER_SCALED + w, FOUNDER_SCALED + v);
  }

  lemma Distribute(p: real, a: int, b: int, c: int)
    requires c > 0
    ensures p * (a as real / c as real) + p * (b as real / c as real) == p * ((a + b) as real / c as real)
  {
    var x, y, z := a as real / c as real, b as real / c as real, (a + b) as real / c as real;
    assert x + y == z;
    assert p * x + p * y == p * (x + y);
  }

  /** What the operators get together, in proportion to the part of the claimed weight that is eligible. */
  lemma {:induction false} OperatorSharesSum(rows: seq<Row>, measuredWeight: int, claimedWeight: int)
    requires 0 <= measuredWeight <= MAX_INT64 && claimedWeight > 0
    ensures OperatorShares(rows, measuredWeight, claimedWeight)
            == (1.0 - FounderShare(measuredWeight)) * (EligibleWeight(rows) as real / claimedWeight as real)
  {
    if rows != [] {
      var rest := EligibleWeight(rows[1..]);
      OperatorSharesSum(rows[1..], measuredWeight, claimedWeight);
      Distribute(1.0 - FounderShare(measuredWeight), EligibleWeight(rows) - rest, rest, claimedWeight);
    }
  }

  /**
    Whatever else is listed, the shares sum to exactly 1 if the eligible weights sum to the claimed total; so
    no row without an eligible claim or a positive weight has a part.
  */
  lemma SharesSumToOne(rows: seq<Row>, measuredWeight: int, claimedWeight: int)
    requires 0 <= measuredWeight <= MAX_INT64 && EligibleWeight(rows) == claimedWeight > 0
    ensures FounderShare(measuredWeight) + OperatorShares(rows, measuredWeight, claimedWeight) == 1.0
  {
    OperatorSharesSum(rows, measuredWeight, claimedWeight);
    SelfQuotient(1.0 - FounderShare(measuredWeight), claimedWeight);
  }

  lemma SelfQuotient(p: real, c: int)
    requires c > 0
    ensures p * (c as real / c as real) == p
  {
    var q := c as real / c as real;
    assert q * c as real == c as real;
    ScaleCompare(q, 1.0, c as real);
    TimesOne(p, q);
  }

  /** Two operators' shares are in proportion to their weights. */
  lemma SharesProportional(a: Row, b: Row, measuredWeight: int, claimedWeight: int)
    requires 0 <= measuredWeight <= MAX_INT64 && claimedWeight > 0
    requires a.eligible && b.eligible && a.weight > 0 && b.weight > 0
    ensures LeaderboardShare(ClaimedView, a, measuredWeight, claimedWeight) * b.weight as real
            == LeaderboardShare(ClaimedView, b, measuredWeight, claimedWeight) * a.weight as real
  {
    var p, c := 1.0 - FounderShare(measuredWeight), claimedWeight as real;
    CrossProportion(p, a.weight as real, b.weight as real, c);
  }

  lemma CrossProportion(p: real, x: real, y: real, c: real)
    requires c > 0.0
    ensures p * (x / c) * y == p * (y / c) * x
  {
    assert (x / c) * y == (y / c) * x by {
      var u, v := x / c, y / c;
      assert u * c == x && v * c == y;
      assert u * y == u * (v * c) == v * (u * c);
    }
  }

  // ---------------------------------------------------------------- largest remainders

  datatype Ratio = Ratio(id: string, num: int, den: int)

  datatype Remainder = Remainder(index: nat, num: int, den: int, id: string)

  datatype Result<+T> = Ok(value: T) | Inconsistent | Overflow

  predicate RatioOk(r: Ratio) { 0 <= r.num && 0 < r.den }

  function Value(r: Ratio): real
    requires RatioOk(r)
  {
    r.num as real / r.den as real
  }

  ghost predicate RatiosOk(ratios: seq<Ratio>) { forall i :: 0 <= i < |ratios| ==> RatioOk(ratios[i]) }

  function RatioSum(ratios: seq<Ratio>): real
    requires RatiosOk(ratios)
  {
    if ratios == [] then 0.0 else RatioSum(ratios[..|ratios| - 1]) + Value(ratios[|ratios| - 1])
  }

  function Sum(values: seq<int>): int {
    if values == [] then 0 else Sum(values[..|values| - 1]) + values[|values| - 1]
  }

  /** The whole part of a ratio of the total. */
  function Floor(r: Ratio, total: int): int
    requires RatioOk(r)
  {
    total * r.num / r.den
  }

  function RemainderOf(r: Ratio, total: int, index: nat): Remainder
    requires RatioOk(r)
  {
    Remainder(index, total * r.num % r.den, r.den, r.id)
  }

  predicate Proper(m: Remainder) { 0 <= m.num < m.den }

  function Fraction(m: Remainder): real
    requires Proper(m)
  {
    m.num as real / m.den as real
  }

  /** The order of the remainders: the larger fraction first, compared by cross products, then the smaller ID. */
  predicate Ahead(a: Remainder, b: Remainder) {
    a.num * b.den > b.num * a.den || (a.num * b.den == b.num * a.den && Less(a.id, b.id))
  }

  lemma CrossIsFraction(a: Remainder, b: Remainder)
    requires Proper(a) && Proper(b)
    ensures a.num * b.den > b.num * a.den <==> Fraction(a) > Fraction(b)
    ensures a.num * b.den == b.num * a.den <==> Fraction(a) == Fraction(b)
  {
    var x, y, c, d := Fraction(a), Fraction(b), a.den as real, b.den as real;
    assert x * c == a.num as real && y * d == b.num as real;
    ProductOfReals(a.num, b.den, x, c, d);
    ProductOfReals(b.num, a.den, y, d, c);
    PositiveFactor(c, d);
    ScaleCompare(x, y, c * d);
  }

  lemma ProductOfReals(n: int, e: int, x: real, c: real, d: real)
    requires x * c == n as real && e as real == d
    ensures (n * e) as real == x * (c * d)
  {
    assert (n * e) as real == n as real * e as real;
    assert (x * c) * d == x * (c * d);
  }

  lemma PositiveFactor(c: real, d: real)
    requires c > 0.0 && d > 0.0
    ensures c * d > 0.0 && c * d == d * c
  {
  }

  /** The sum of the fractions that the floors leave. */
  function FractionSum(ratios: seq<Ratio>, total: int): real
    requires RatiosOk(ratios)
  {
    if ratios == [] then 0.0
    else
      var n := |ratios| - 1;
      FractionProper(ratios[n], total, n);
      FractionSum(ratios[..n], total) + Fraction(RemainderOf(ratios[n], total, n))
  }

  lemma FractionProper(r: Ratio, total: int, index: nat)
    requires RatioOk(r)
    ensures Proper(RemainderOf(r, total, index))
  {
  }

  function Floors(ratios: seq<Ratio>, total: int): (v: seq<int>)
    requires RatiosOk(ratios)
    ensures |v| == |ratios| && forall i :: 0 <= i < |v| ==> v[i] == Floor(ratios[i], total)
  {
    seq(|ratios|, i requires 0 <= i < |ratios| => Floor(ratios[i], total))
  }

  /** A ratio of the total is its floor and the fraction that is left. */
  lemma FloorAndFraction(r: Ratio, total: int, index: nat)
    requires RatioOk(r)
    ensures Proper(RemainderOf(r, total, index))
    ensures Floor(r, total) as real + Fraction(RemainderOf(r, total, index)) == total as real * Value(r)
  {
    var n, d := total * r.num, r.den;
    DivideExactly(n, d);
    assert total as real * (r.num as real / d as real) == (total as real * r.num as real) / d as real;
    assert (total * r.num) as real == total as real * r.num as real;
  }

  lemma DivideExactly(n: int, d: int)
    requires d > 0
    ensures (n / d) as real + (n % d) as real / d as real == n as real / d as real
  {
    assert n == d * (n / d) + n % d;
    var q, m := (n / d) as real, (n % d) as real;
    assert n as real == d as real * q + m;
    assert (d as real * q + m) / d as real == q + m / d as real;
  }

  lemma {:induction false} FloorsAndFractions(ratios: seq<Ratio>, total: int)
    requires RatiosOk(ratios)
    ensures Sum(Floors(ratios, total)) as real + FractionSum(ratios, total) == total as real * RatioSum(ratios)
  {
    if ratios != [] {
      var n := |ratios| - 1;
      FloorsAndFractions(ratios[..n], total);
      FloorAndFraction(ratios[n], total, n);
      assert Floors(ratios, total)[..n] == Floors(ratios[..n], total);
      SplitFactor(total as real, RatioSum(ratios[..n]), Value(ratios[n]));
    }
  }

  lemma SplitFactor(t: real, x: real, y: real)
    ensures t * (x + y) == t * x + t * y
  {
  }

  lemma {:induction false} FractionsBelowCount(ratios: seq<Ratio>, total: int)
    requires RatiosOk(ratios)
    ensures 0.0 <= FractionSum(ratios, total)
    ensures ratios != [] ==> FractionSum(ratios, total) < |ratios| as real
  {
    if ratios != [] {
      var n := |ratios| - 1;
      FractionProper(ratios[n], total, n);
      FractionsBelowCount(ratios[..n], total);
      UnitFraction(RemainderOf(ratios[n], total, n));
    }
  }

  lemma UnitFraction(m: Remainder)
    requires Proper(m)
    ensures 0.0 <= Fraction(m) < 1.0
  {
    assert Fraction(m) * m.den as real == m.num as real;
    ScaleCompare(1.0, Fraction(m), m.den as real);
    ScaleCompare(0.0, Fraction(m), m.den as real);
  }

  lemma TimesOne(t: real, x: real)
    requires x == 1.0
    ensures t * x == t
  {
  }

  lemma WholeGap(a: int, b: int, f: real, n: int)
    requires a as real + f == b as real && 0.0 <= f < n as real
    ensures 0 <= b - a < n
  {
    assert (b - a) as real == f;
  }

  lemma NotEmpty(ratios: seq<Ratio>)
    requires RatiosOk(ratios) && RatioSum(ratios) == 1.0
    ensures ratios != []
  {
  }

  lemma FloorsAndFractionsOfOne(ratios: seq<Ratio>, total: int)
    requires RatiosOk(ratios) && RatioSum(ratios) == 1.0
    ensures Sum(Floors(ratios, total)) as real + FractionSum(ratios, total) == total as real
  {
    FloorsAndFractions(ratios, total);
    TimesOne(total as real, RatioSum(ratios));
  }

  /** With ratios that sum to 1, fewer units are left than there are ratios, and none is missing. */
  lemma LeftIsSmall(ratios: seq<Ratio>, total: int)
    requires RatiosOk(ratios) && RatioSum(ratios) == 1.0
    ensures 0 <= total - Sum(Floors(ratios, total)) < |ratios|
  {
    NotEmpty(ratios);
    FloorsAndFractionsOfOne(ratios, total);
    FractionsBelowCount(ratios, total);
    WholeGap(Sum(Floors(ratios, total)), total, FractionSum(ratios, total), |ratios|);
  }

  // ---------------------------------------------------------------- sorting remainders

  datatype Rank = Rank(fraction: real, id: string)

  function RankOf(m: Remainder): Rank
    requires Proper(m)
  {
    Rank(Fraction(m), m.id)
  }

  /** The larger fraction comes first, then the smaller ID. */
  predicate RankAhead(a: Rank, b: Rank) {
    a.fraction > b.fraction || (a.fraction == b.fraction && Less(a.id, b.id))
  }

  lemma AheadIsRank(a: Remainder, b: Remainder)
    requires Proper(a) && Proper(b)
    ensures Ahead(a, b) <==> RankAhead(RankOf(a), RankOf(b))
  {
    CrossIsFraction(a, b);
  }

  lemma RankAsymmetric(a: Rank, b: Rank)
    requires RankAhead(a, b)
    ensures !RankAhead(b, a)
  {
    if Less(a.id, b.id) {
      LessAsymmetric(a.id, b.id);
    }
  }

  /** If `x` is ahead of `a`, and `b` is not, then `x` is ahead of `b`. */
  lemma RankChain(x: Rank, a: Rank, b: Rank)
    requires RankAhead(x, a) && !RankAhead(b, a)
    ensures RankAhead(x, b)
  {
    if x.fraction == a.fraction == b.fraction && a.id != b.id {
      if !Less(a.id, b.id) {
        LessTotal(a.id, b.id);
      }
      LessTransitive(x.id, a.id, b.id);
    }
  }

  ghost predicate InOrder(s: seq<Remainder>) {
    && (forall i :: 0 <= i < |s| ==> Proper(s[i]))
    && (forall i, j :: 0 <= i < j < |s| ==> !RankAhead(RankOf(s[j]), RankOf(s[i])))
  }

  method InsertRemainder(s: seq<Remainder>, x: Remainder) returns (r: seq<Remainder>)
    requires InOrder(s) && Proper(x)
    ensures multiset(r) == multiset(s) + multiset{x} && InOrder(r)
  {
    hide RankAhead, Ahead, Proper, RankOf, InOrder;
    var k := |s|;
    OrderProper(s);
    while k > 0 && Ahead(x, s[k - 1])
      invariant 0 <= k <= |s| && forall i :: k <= i < |s| ==> RankAhead(RankOf(x), RankOf(s[i]))
    {
      AheadIsRank(x, s[k - 1]);
      k := k - 1;
    }
    r := s[..k] + [x] + s[k..];
    if k > 0 {
      AheadIsRank(x, s[k - 1]);
    }
    InsertedInOrder(s, x, k);
    InsertedElements(s, x, k);
  }

  lemma OrderProper(s: seq<Remainder>)
    requires InOrder(s)
    ensures forall i :: 0 <= i < |s| ==> Proper(s[i])
  {
  }

  lemma InsertedElements<T>(s: seq<T>, x: T, k: nat)
    requires k <= |s|
    ensures multiset(s[..k] + [x] + s[k..]) == multiset(s) + multiset{x}
  {
    assert s == s[..k] + s[k..];
  }

  lemma InsertedInOrder(s: seq<Remainder>, x: Remainder, k: nat)
    requires InOrder(s) && Proper(x) && k <= |s|
    requires k > 0 ==> !RankAhead(RankOf(x), RankOf(s[k - 1]))
    requires forall i :: k <= i < |s| ==> RankAhead(RankOf(x), RankOf(s[i]))
    ensures InOrder(s[..k] + [x] + s[k..])
  {
    forall i | 0 <= i < k
      ensures !RankAhead(RankOf(x), RankOf(s[i]))
    {
      if i < k - 1 && RankAhead(RankOf(x), RankOf(s[i])) {
        RankChain(RankOf(x), RankOf(s[i]), RankOf(s[k - 1]));
      }
    }
    forall i | k <= i < |s|
      ensures !RankAhead(RankOf(s[i]), RankOf(x))
    {
      RankAsymmetric(RankOf(x), RankOf(s[i]));
    }
  }

  method SortRemainders(ms: seq<Remainder>) returns (s: seq<Remainder>)
    requires forall i :: 0 <= i < |ms| ==> Proper(ms[i])
    ensures multiset(s) == multiset(ms) && InOrder(s)
  {
    s := [];
    var i := 0;
    while i < |ms|
      invariant 0 <= i <= |ms| && multiset(s) == multiset(ms[..i]) && InOrder(s)
    {
      assert ms[..i + 1] == ms[..i] + [ms[i]];
      s := InsertRemainder(s, ms[i]);
      i := i + 1;
    }
    assert ms[..i] == ms;
  }

  // ---------------------------------------------------------------- the split

  ghost predicate Indexed(ms: seq<Remainder>) { forall i :: 0 <= i < |ms| ==> ms[i].index == i }

  lemma MemberOf(s: seq<Remainder>, ms: seq<Remainder>, k: nat)
    requires multiset(s) == multiset(ms) && Indexed(ms) && k < |s|
    ensures s[k].index < |ms| && s[k] == ms[s[k].index]
  {
    assert s[k] in multiset(s);
    assert s[k] in ms;
  }

  lemma {:induction false} CountOnce(ms: seq<Remainder>, x: Remainder)
    requires forall i, j :: 0 <= i < j < |ms| ==> ms[i] != ms[j]
    ensures multiset(ms)[x] <= 1
  {
    if ms != [] {
      CountOnce(ms[1..], x);
      assert ms == [ms[0]] + ms[1..];
      if x == ms[0] {
        assert x !in ms[1..];
      }
    }
  }

  /** A sorted list of indexed remainders names each index once. */
  lemma DistinctIndexes(s: seq<Remainder>, ms: seq<Remainder>, j: nat, k: nat)
    requires multiset(s) == multiset(ms) && Indexed(ms) && j < k < |s|
    ensures s[j].index != s[k].index
  {
    MemberOf(s, ms, j);
    MemberOf(s, ms, k);
    if s[j].index == s[k].index {
      CountTwo(s, j, k);
      CountOnce(ms, s[j]);
    }
  }

  function RankAt(ratios: seq<Ratio>, total: int, i: nat): Rank
    requires i < |ratios| && RatioOk(ratios[i])
  {
    FractionProper(ratios[i], total, i);
    RankOf(RemainderOf(ratios[i], total, i))
  }

  /** The indexes of exactly the parts that are rounded up: `left` of them, and none before one that is ahead. */
  ghost predicate RoundsUp(ratios: seq<Ratio>, total: int, left: int, up: set<nat>)
    requires RatiosOk(ratios)
  {
    && |up| == left && (forall i :: i in up ==> i < |ratios|)
    && (forall i, j :: 0 <= i < |ratios| && 0 <= j < |ratios| && i !in up && j in up ==>
          !RankAhead(RankAt(ratios, total, i), RankAt(ratios, total, j)))
  }

  /** Each part is its floor, or one more if it is rounded up. */
  ghost predicate PartsAre(ratios: seq<Ratio>, total: int, up: set<nat>, values: seq<int>)
    requires RatiosOk(ratios)
  {
    && |values| == |ratios|
    && forall i :: 0 <= i < |values| ==>
         values[i] == if i in up then Wrap(Floor(ratios[i], total) + 1) else Floor(ratios[i], total)
  }

  /** What is left after the floors, as the 64-bit sum and difference have it. */
  function Left(ratios: seq<Ratio>, total: int): int
    requires RatiosOk(ratios)
  {
    Wrap(total - Wrap(Sum(Floors(ratios, total))))
  }

  ghost predicate FloorsFit(ratios: seq<Ratio>, total: int)
    requires RatiosOk(ratios)
  {
    forall i :: 0 <= i < |ratios| ==> Floor(ratios[i], total) <= MAX_INT64
  }

  /** The units that the floors leave. */
  function Units(ratios: seq<Ratio>, total: int): int
    requires RatiosOk(ratios)
  {
    total - Sum(Floors(ratios, total))
  }

  ghost predicate OneMore(ratios: seq<Ratio>, total: int, up: set<nat>, values: seq<int>)
    requires RatiosOk(ratios) && |values| == |ratios|
  {
    forall i :: 0 <= i < |values| ==> values[i] == Floor(ratios[i], total) + if i in up then 1 else 0
  }

  /**
    A fair split: the parts make up the total, each is its floor or one more, and no ratio is rounded up
    before one that is ahead of it.
  */
  ghost predicate Fair(ratios: seq<Ratio>, total: int, values: seq<int>)
    requires RatiosOk(ratios)
  {
    && |values| == |ratios| && Sum(values) == total
    && exists up :: RoundsUp(ratios, total, Units(ratios, total), up) && OneMore(ratios, total, up, values)
  }

  function Remainders(ratios: seq<Ratio>, total: int): (ms: seq<Remainder>)
    requires RatiosOk(ratios)
    ensures |ms| == |ratios| && forall i :: 0 <= i < |ms| ==> ms[i] == RemainderOf(ratios[i], total, i)
  {
    seq(|ratios|, i requires 0 <= i < |ratios| => RemainderOf(ratios[i], total, i))
  }

  /** `up` holds the indexes of the first `n` remainders. */
  ghost predicate FirstOf(s: seq<Remainder>, n: nat, up: set<nat>)
    requires n <= |s|
  {
    && |up| == n && (forall k :: 0 <= k < n ==> s[k].index in up)
    && forall i :: i in up ==> exists k :: 0 <= k < n && s[k].index == i
  }

  lemma FirstNext(s: seq<Remainder>, ms: seq<Remainder>, n: nat, up: set<nat>)
    requires n < |s| && FirstOf(s, n, up) && multiset(s) == multiset(ms) && Indexed(ms)
    ensures s[n].index !in up && s[n].index < |ms| && FirstOf(s, n + 1, up + {s[n].index})
  {
    MemberOf(s, ms, n);
    forall k | 0 <= k < n
      ensures s[k].index != s[n].index
    {
      DistinctIndexes(s, ms, k, n);
    }
    forall i | i in up + {s[n].index}
      ensures exists k :: 0 <= k < n + 1 && s[k].index == i
    {
      if i in up {
        var k :| 0 <= k < n && s[k].index == i;
        assert s[k].index == i;
      } else {
        assert s[n].index == i;
      }
    }
  }

  /** The first of the sorted remainders are the ones to round up. */
  lemma FirstRoundsUp(ratios: seq<Ratio>, total: int, s: seq<Remainder>, n: nat, up: set<nat>)
    requires RatiosOk(ratios) && n <= |s| && FirstOf(s, n, up)
    requires multiset(s) == multiset(Remainders(ratios, total)) && InOrder(s)
    ensures RoundsUp(ratios, total, n, up)
  {
    var ms := Remainders(ratios, total);
    forall i | i in up
      ensures i < |ratios|
    {
      var k :| 0 <= k < n && s[k].index == i;
      MemberOf(s, ms, k);
    }
    forall i, j | 0 <= i < |ratios| && 0 <= j < |ratios| && i !in up && j in up
      ensures !RankAhead(RankAt(ratios, total, i), RankAt(ratios, total, j))
    {
      var b :| 0 <= b < n && s[b].index == j;
      assert ms[i] in multiset(s);
      var a :| 0 <= a < |s| && s[a] == ms[i];
      assert a >= n;
      MemberOf(s, ms, b);
      assert s[b] == ms[j];
    }
  }

  lemma WrapAdds(x: int, y: int)
    ensures Wrap(Wrap(x) + y) == Wrap(x + y)
  {
  }

  /** The whole parts of the first `i` ratios, their remainders, and the 64-bit sum of the parts. */
  ghost predicate FloorsUpTo(ratios: seq<Ratio>, total: int, i: nat, values: seq<int>, remainders: seq<Remainder>,
                             given: int)
    requires RatiosOk(ratios) && i <= |ratios|
  {
    && values == Floors(ratios, total)[..i] && remainders == Remainders(ratios, total)[..i]
    && given == Wrap(Sum(values)) && forall k :: 0 <= k < i ==> Floor(ratios[k], total) <= MAX_INT64
  }

  lemma FloorsNext(ratios: seq<Ratio>, total: int, i: nat, values: seq<int>, remainders: seq<Remainder>, given: int)
    requires RatiosOk(ratios) && i < |ratios| && FloorsUpTo(ratios, total, i, values, remainders, given)
    requires Floor(ratios[i], total) <= MAX_INT64
    ensures FloorsUpTo(ratios, total, i + 1, values + [Floor(ratios[i], total)],
                       remainders + [RemainderOf(ratios[i], total, i)], Wrap(given + Floor(ratios[i], total)))
  {
    hide Floor, Wrap, RemainderOf;
    SumAppend(values, Floor(ratios[i], total));
    WrapAdds(Sum(values), Floor(ratios[i], total));
    PrefixNext(Floors(ratios, total), i);
    PrefixNext(Remainders(ratios, total), i);
  }

  lemma FloorsDone(ratios: seq<Ratio>, total: int, values: seq<int>, remainders: seq<Remainder>, given: int)
    requires RatiosOk(ratios) && FloorsUpTo(ratios, total, |ratios|, values, remainders, given)
    ensures FloorsFit(ratios, total) && values == Floors(ratios, total) && remainders == Remainders(ratios, total)
    ensures given == Wrap(Sum(values))
  {
    hide Floor, Wrap, RemainderOf;
    PrefixAll(Floors(ratios, total));
    PrefixAll(Remainders(ratios, total));
  }

  /** The whole parts, their 64-bit sum and the remainders, or an overflow. */
  method FloorsOf(ratios: seq<Ratio>, total: int) returns (r: Result<seq<int>>, remainders: seq<Remainder>, given: int)
    requires RatiosOk(ratios) && 0 <= total <= MAX_INT64
    ensures if FloorsFit(ratios, total) then
              r == Ok(Floors(ratios, total)) && remainders == Remainders(ratios, total) && given == Wrap(Sum(r.value))
            else r == Overflow
  {
    hide Floor, Wrap, RemainderOf, Floors, Remainders, Sum, FloorsUpTo;
    var values: seq<int>, i := [], 0;
    remainders, given := [], 0;
    FloorsNone(ratios, total);
    while i < |ratios|
      invariant 0 <= i <= |ratios| && FloorsUpTo(ratios, total, i, values, remainders, given)
    {
      var quotient := Floor(ratios[i], total);
      if quotient > MAX_INT64 {
        return Overflow, remainders, given;
      }
      FloorsNext(ratios, total, i, values, remainders, given);
      values := values + [quotient];
      remainders := remainders + [RemainderOf(ratios[i], total, i)];
      given := Wrap(given + quotient);
      i := i + 1;
    }
    FloorsDone(ratios, total, values, remainders, given);
    r := Ok(values);
  }

  lemma FloorsNone(ratios: seq<Ratio>, total: int)
    requires RatiosOk(ratios)
    ensures FloorsUpTo(ratios, total, 0, [], [], 0)
  {
  }

  lemma RemaindersProper(ratios: seq<Ratio>, total: int)
    requires RatiosOk(ratios)
    ensures forall i :: 0 <= i < |ratios| ==> Proper(Remainders(ratios, total)[i])
  {
    forall i | 0 <= i < |ratios|
      ensures Proper(Remainders(ratios, total)[i])
    {
      FractionProper(ratios[i], total, i);
    }
  }

  /** What the split of any ratios answers. */
  ghost predicate SplitsAs(ratios: seq<Ratio>, total: int, r: Result<seq<int>>)
    requires RatiosOk(ratios)
  {
    if total < 0 then r == Inconsistent
    else if !FloorsFit(ratios, total) then r == Overflow
    else if !(0 <= Left(ratios, total) <= |ratios|) then r == Inconsistent
    else r.Ok? && exists up :: RoundsUp(ratios, total, Left(ratios, total), up) && PartsAre(ratios, total, up, r.value)
  }

  /**
    Split a 64-bit amount by ratios: whole parts first, and the units left over to the largest fractions.  The
    answer is an error if a part is too large, or if what is left is not between none and one unit a ratio.
  */
  method LargestRemainder(ratios: seq<Ratio>, total: int) returns (r: Result<seq<int>>)
    requires RatiosOk(ratios) && total <= MAX_INT64
    ensures SplitsAs(ratios, total, r)
  {
    if total < 0 {
      return Inconsistent;
    }
    var floors, remainders, given := FloorsOf(ratios, total);
    if floors.Overflow? {
      return Overflow;
    }
    var left := Wrap(total - given);
    if left < 0 || left > |ratios| {
      return Inconsistent;
    }
    RemaindersProper(ratios, total);
    var sorted := SortRemainders(remainders);
    SameLength(sorted, remainders);
    var values := RaiseFirst(ratios, total, sorted, floors.value, left);
    return Ok(values);
  }

  /** One unit more for each of the first `left` remainders. */
  method RaiseFirst(ghost ratios: seq<Ratio>, ghost total: int, sorted: seq<Remainder>, floors: seq<int>, left: nat)
    returns (values: seq<int>)
    requires RatiosOk(ratios) && floors == Floors(ratios, total) && left <= |sorted|
    requires multiset(sorted) == multiset(Remainders(ratios, total)) && InOrder(sorted)
    ensures exists up :: RoundsUp(ratios, total, left, up) && PartsAre(ratios, total, up, values)
  {
    hide FirstOf, PartsAre, RoundsUp, InOrder;
    values := floors;
    NoneRaised(ratios, total, sorted);
    var n := 0;
    ghost var up: set<nat> := {};
    while n < left
      invariant 0 <= n <= left && FirstOf(sorted, n, up) && PartsAre(ratios, total, up, values)
    {
      OneRaised(ratios, total, sorted, n, up, values);
      var x := sorted[n].index;
      values := values[x := Wrap(values[x] + 1)];
      up := up + {x};
      n := n + 1;
    }
    FirstRoundsUp(ratios, total, sorted, n, up);
  }

  lemma NoneRaised(ratios: seq<Ratio>, total: int, s: seq<Remainder>)
    requires RatiosOk(ratios)
    ensures FirstOf(s, 0, {}) && PartsAre(ratios, total, {}, Floors(ratios, total))
  {
  }

  /** The next of the sorted remainders gets its unit. */
  lemma OneRaised(ratios: seq<Ratio>, total: int, s: seq<Remainder>, n: nat, up: set<nat>, values: seq<int>)
    requires RatiosOk(ratios) && n < |s| && FirstOf(s, n, up) && PartsAre(ratios, total, up, values)
    requires multiset(s) == multiset(Remainders(ratios, total))
    ensures s[n].index < |values| && FirstOf(s, n + 1, up + {s[n].index})
    ensures PartsAre(ratios, total, up + {s[n].index}, values[s[n].index := Wrap(values[s[n].index] + 1)])
  {
    hide Floor, Wrap, FirstOf;
    RemaindersIndexed(ratios, total);
    FirstNext(s, Remainders(ratios, total), n, up);
  }

  lemma RemaindersIndexed(ratios: seq<Ratio>, total: int)
    requires RatiosOk(ratios)
    ensures Indexed(Remainders(ratios, total))
  {
  }

  // ---------------------------------------------------------------- ratios that sum to 1

  lemma {:induction false} SumOfParts(floors: seq<int>, values: seq<int>, up: set<nat>)
    requires |values| == |floors| && forall i :: i in up ==> i < |floors|
    requires forall i :: 0 <= i < |values| ==> values[i] == floors[i] + if i in up then 1 else 0
    ensures Sum(values) == Sum(floors) + |up|
  {
    if values == [] {
      assert up == {};
    } else {
      var n := |values| - 1;
      var rest := up - {n};
      SumOfParts(floors[..n], values[..n], rest);
      assert n in up ==> up == rest + {n};
      assert n !in up ==> up == rest;
    }
  }

  lemma FloorNonNegative(r: Ratio, total: int)
    requires RatioOk(r) && total >= 0
    ensures Floor(r, total) >= 0
  {
    ProductNonNegative(total, r.num);
  }

  lemma {:induction false} FloorsNonNegative(ratios: seq<Ratio>, total: int)
    requires RatiosOk(ratios) && total >= 0
    ensures Sum(Floors(ratios, total)) >= 0
    ensures forall i :: 0 <= i < |ratios| ==> 0 <= Floor(ratios[i], total) <= Sum(Floors(ratios, total))
  {
    hide Floor;
    if ratios != [] {
      var n := |ratios| - 1;
      FloorsNonNegative(ratios[..n], total);
      assert Floors(ratios, total)[..n] == Floors(ratios[..n], total);
      FloorNonNegative(ratios[n], total);
    }
  }

  lemma ProductNonNegative(x: int, y: int)
    requires x >= 0 && y >= 0
    ensures x * y >= 0
  {
  }

  /**
    By ratios that sum to 1, every amount is split, and fairly: nothing is lost or made, no part misses its
    exact share by a unit or more, and the units left over go to the largest fractions first.
  */
  lemma WholeSplitIsFair(ratios: seq<Ratio>, total: int, r: Result<seq<int>>)
    requires RatiosOk(ratios) && RatioSum(ratios) == 1.0 && 0 <= total <= MAX_INT64
    requires SplitsAs(ratios, total, r)
    ensures r.Ok? && Fair(ratios, total, r.value)
  {
    WholeLeft(ratios, total);
    var up :| RoundsUp(ratios, total, Left(ratios, total), up) && PartsAre(ratios, total, up, r.value);
    NoneWraps(ratios, total, up, r.value);
    SumOfParts(Floors(ratios, total), r.value, up);
  }

  /** Nothing wraps around: every floor fits, and at most one unit a ratio is left. */
  lemma WholeLeft(ratios: seq<Ratio>, total: int)
    requires RatiosOk(ratios) && RatioSum(ratios) == 1.0 && 0 <= total <= MAX_INT64
    ensures FloorsFit(ratios, total) && Left(ratios, total) == Units(ratios, total)
    ensures 0 <= Units(ratios, total) <= |ratios|
  {
    hide Floor, Wrap, Sum, RatioSum;
    LeftIsSmall(ratios, total);
    FloorsNonNegative(ratios, total);
    var sum := Sum(Floors(ratios, total));
    WrapSmall(sum);
    WrapSmall(total - sum);
    assert forall i :: 0 <= i < |ratios| ==> Floor(ratios[i], total) <= sum;
  }

  lemma NoneWraps(ratios: seq<Ratio>, total: int, up: set<nat>, values: seq<int>)
    requires RatiosOk(ratios) && 0 <= total <= MAX_INT64 && PartsAre(ratios, total, up, values)
    requires |up| == Units(ratios, total)
    ensures OneMore(ratios, total, up, values)
  {
    FloorsNonNegative(ratios, total);
    forall i | 0 <= i < |values| && i in up
      ensures Wrap(Floor(ratios[i], total) + 1) == Floor(ratios[i], total) + 1
    {
      assert |up| >= 1 by {
        assert up != {};
      }
      WrapSmall(Floor(ratios[i], total) + 1);
    }
  }

  lemma WrapSmall(x: int)
    requires 0 <= x <= MAX_INT64
    ensures Wrap(x) == x
  {
  }

  lemma SumAppend(v: seq<int>, x: int)
    ensures Sum(v + [x]) == Sum(v) + x
  {
    assert (v + [x])[..|v|] == v;
  }

  /** The floor and what is left of it, as the one way to divide. */
  lemma FloorDivides(r: Ratio, total: int, index: nat)
    requires RatioOk(r)
    ensures var m := RemainderOf(r, total, index).num; total * r.num == Floor(r, total) * r.den + m && 0 <= m < r.den
  {
  }

  /** What is left of a ratio that keeps its floor, and of one that gets one unit more. */
  lemma PartLeaves(r: Ratio, total: int, index: nat, up: bool, value: int)
    requires RatioOk(r) && value == Floor(r, total) + if up then 1 else 0
    ensures var m := RemainderOf(r, total, index).num;
            && m == total * r.num - (value - if up then 1 else 0) * r.den && 0 <= m < r.den
            && (up <==> value * r.den > total * r.num)
            && total * r.num - r.den < value * r.den <= total * r.num + r.den
  {
    hide Floor, RemainderOf;
    FloorDivides(r, total, index);
    assert (Floor(r, total) + 1) * r.den == Floor(r, total) * r.den + r.den;
  }

  /**
    What a fair split means for the amounts: they make up the total; no one misses its exact share by more
    than a unit; and if one gets less than a unit more than its share and another does not, the unit went to
    the larger fraction, or between equal ones to the smaller ID.
  */
  lemma FairMeans(ratios: seq<Ratio>, total: int, values: seq<int>)
    requires RatiosOk(ratios) && Fair(ratios, total, values)
    ensures Sum(values) == total && |values| == |ratios|
    ensures forall i :: 0 <= i < |values| ==>
              total * ratios[i].num - ratios[i].den < values[i] * ratios[i].den <= total * ratios[i].num + ratios[i].den
    ensures forall i, j :: 0 <= i < |values| && 0 <= j < |values|
                           && values[i] * ratios[i].den <= total * ratios[i].num
                           && values[j] * ratios[j].den > total * ratios[j].num ==>
              UnitGoesRight(ratios[i], ratios[j], total, values[i], values[j])
  {
    hide Floor, RemainderOf, Sum;
    var up :| RoundsUp(ratios, total, Units(ratios, total), up) && OneMore(ratios, total, up, values);
    forall i | 0 <= i < |values|
      ensures total * ratios[i].num - ratios[i].den < values[i] * ratios[i].den
              <= total * ratios[i].num + ratios[i].den
      ensures i in up <==> values[i] * ratios[i].den > total * ratios[i].num
    {
      PartLeaves(ratios[i], total, i, i in up, values[i]);
    }
    forall i, j | 0 <= i < |values| && 0 <= j < |values| && i !in up && j in up
      ensures UnitGoesRight(ratios[i], ratios[j], total, values[i], values[j])
    {
      RankMeans(ratios, total, values, up, i, j);
    }
  }

  /** Of what the floors leave, `b` has the larger fraction, or an equal one and `a` no smaller ID. */
  predicate UnitGoesRight(a: Ratio, b: Ratio, total: int, x: int, y: int) {
    var m, n := total * a.num - x * a.den, total * b.num - (y - 1) * b.den;
    m * b.den < n * a.den || (m * b.den == n * a.den && !Less(a.id, b.id))
  }

  lemma RankMeans(ratios: seq<Ratio>, total: int, values: seq<int>, up: set<nat>, i: nat, j: nat)
    requires RatiosOk(ratios) && |values| == |ratios| && OneMore(ratios, total, up, values)
    requires i < |ratios| && j < |ratios| && i !in up && j in up
    requires !RankAhead(RankAt(ratios, total, i), RankAt(ratios, total, j))
    ensures UnitGoesRight(ratios[i], ratios[j], total, values[i], values[j])
  {
    hide Floor, RemainderOf, RankAhead, UnitGoesRight, Proper;
    RemainderParts(ratios[i], total, i);
    RemainderParts(ratios[j], total, j);
    AheadIsRank(RemainderOf(ratios[i], total, i), RemainderOf(ratios[j], total, j));
    PartLeaves(ratios[i], total, i, false, values[i]);
    PartLeaves(ratios[j], total, j, true, values[j]);
    NotAheadMeans(RemainderOf(ratios[i], total, i), RemainderOf(ratios[j], total, j), ratios[i], ratios[j], total,
                  values[i], values[j]);
  }

  lemma NotAheadMeans(m: Remainder, n: Remainder, a: Ratio, b: Ratio, total: int, x: int, y: int)
    requires m.den == a.den && m.id == a.id && n.den == b.den && n.id == b.id && !Ahead(m, n)
    requires m.num == total * a.num - x * a.den && n.num == total * b.num - (y - 1) * b.den
    ensures UnitGoesRight(a, b, total, x, y)
  {
    var p, q := total * a.num - x * a.den, total * b.num - (y - 1) * b.den;
    assert m.num == p && n.num == q;
  }

  lemma RemainderParts(r: Ratio, total: int, index: nat)
    requires RatioOk(r)
    ensures RemainderOf(r, total, index).den == r.den && RemainderOf(r, total, index).id == r.id
    ensures Proper(RemainderOf(r, total, index))
  {
  }
}
