/**
  The money of a final exit allocation: sources copied from the frozen settlement boundary, one
  conserved amount per currency, and the validator that recomputes both.
*/
module AllocationRows {
  import opened Basics
  import opened Protocol
  import opened TextOrder
  import opened SettlementBoundaries

  /** The largest integer that JSON numbers carry exactly: 2^53 - 1. */
  const MAX_SAFE_MINOR: int := 9_007_199_254_740_991

  predicate IsSafe(minor: int) { 0 <= minor <= MAX_SAFE_MINOR }

  /** The settlement rows by their IDs. */
  type Settlements = map<string, Settled>

  datatype Error = SourceMissing | NotConserved

  datatype Result<+T> = Ok(value: T) | Err(error: Error)

  datatype Rows = Rows(sources: seq<SettlementSource>, currencies: seq<CurrencyAllocation>)

  // ---------------------------------------------------------------- sources and their sums

  function SourceFor(f: Settled, groupId: string, b: SettlementBoundary): SettlementSource {
    SettlementSource(
      b.boundaryOrder, b.settlementId, f.period, f.currencyCode, f.fractionDigits, f.revision, f.ledgerIndex,
      f.settlementHash, f.sourceFingerprint, f.allocationHash,
      if groupId in f.groupMinor then f.groupMinor[groupId] else 0)
  }

  /** The row still is what the boundary froze, and its amount is safe. */
  predicate Matches(s: SettlementSource, b: SettlementBoundary) {
    && s.period == b.period && s.currencyCode == b.currencyCode && s.revision == b.revision
    && s.ledgerIndex == b.ledgerIndex && s.settlementHash == b.settlementHash
    && s.sourceFingerprint == b.sourceFingerprint && s.settlementAllocationHash == b.allocationHash
    && IsSafe(s.distributableMinor)
  }

  /** What the sources of one currency distribute. */
  function Sum(sources: seq<SettlementSource>, code: string): int {
    if sources == [] then 0
    else
      var last := sources[|sources| - 1];
      Sum(sources[..|sources| - 1], code) + if last.currencyCode == code then last.distributableMinor else 0
  }

  /** The fraction digits of the last source of a currency. */
  function Fraction(sources: seq<SettlementSource>, code: string): Option<int> {
    if sources == [] then None
    else
      var last := sources[|sources| - 1];
      if last.currencyCode == code then Some(last.fractionDigits) else Fraction(sources[..|sources| - 1], code)
  }

  ghost predicate FractionsAgree(sources: seq<SettlementSource>) {
    forall i, j :: 0 <= i < j < |sources| && sources[i].currencyCode == sources[j].currencyCode ==>
      sources[i].fractionDigits == sources[j].fractionDigits
  }

  /** The amounts are safe, alone and in every running total. */
  ghost predicate TotalsSafe(sources: seq<SettlementSource>) {
    && (forall i :: 0 <= i < |sources| ==> IsSafe(sources[i].distributableMinor))
    && (forall n, code :: 0 <= n <= |sources| ==> Sum(sources[..n], code) <= MAX_SAFE_MINOR)
  }

  /**
    The currency list is conserved: strictly sorted codes, exactly those of the sources, and for each
    the whole sum goes to the one beneficiary.
  */
  ghost predicate Conserved(sources: seq<SettlementSource>, currencies: seq<CurrencyAllocation>,
                            beneficiaryType: BeneficiaryType, beneficiaryId: string) {
    && StrictlySorted(Codes(currencies))
    && (forall code :: code in Codes(currencies) <==> Fraction(sources, code).Some?)
    && (forall i :: 0 <= i < |currencies| ==>
          currencies[i] == AllocationFor(sources, currencies[i].currencyCode, i, beneficiaryType, beneficiaryId))
  }

  function AllocationFor(sources: seq<SettlementSource>, code: string, order: int, beneficiaryType: BeneficiaryType,
                         beneficiaryId: string): CurrencyAllocation {
    var digits := Fraction(sources, code);
    CurrencyAllocation(order, code, if digits.None? then 0 else digits.value, Sum(sources, code), Sum(sources, code),
                       beneficiaryType, beneficiaryId)
  }

  function Codes(currencies: seq<CurrencyAllocation>): (r: seq<string>)
    ensures |r| == |currencies| && forall i :: 0 <= i < |r| ==> r[i] == currencies[i].currencyCode
  {
    seq(|currencies|, i requires 0 <= i < |currencies| => currencies[i].currencyCode)
  }

  /** No other list is conserved for the same sources and beneficiary. */
  lemma ConservedUnique(sources: seq<SettlementSource>, a: seq<CurrencyAllocation>, b: seq<CurrencyAllocation>,
                        beneficiaryType: BeneficiaryType, beneficiaryId: string)
    requires Conserved(sources, a, beneficiaryType, beneficiaryId)
    requires Conserved(sources, b, beneficiaryType, beneficiaryId)
    ensures a == b
  {
    SortedUnique(Codes(a), Codes(b));
    assert |Codes(a)| == |Codes(b)|;
    forall i | 0 <= i < |a|
      ensures a[i] == b[i]
    {
      assert Codes(a)[i] == Codes(b)[i];
    }
  }

  function Distributable(sources: seq<SettlementSource>): int {
    if sources == [] then 0
    else Distributable(sources[..|sources| - 1]) + sources[|sources| - 1].distributableMinor
  }

  function Allocated(currencies: seq<CurrencyAllocation>): int {
    if currencies == [] then 0 else currencies[0].allocatedMinor + Allocated(currencies[1..])
  }

  function SumOver(sources: seq<SettlementSource>, codes: seq<string>): int {
    if codes == [] then 0 else Sum(sources, codes[0]) + SumOver(sources, codes[1..])
  }

  /** One more source adds its amount once, to its own currency. */
  lemma {:induction false} SumOverNext(sources: seq<SettlementSource>, codes: seq<string>)
    requires sources != [] && StrictlySorted(codes)
    ensures var init, last := sources[..|sources| - 1], sources[|sources| - 1];
            SumOver(sources, codes)
            == SumOver(init, codes) + if last.currencyCode in codes then last.distributableMinor else 0
  {
    if codes != [] {
      SumOverNext(sources, codes[1..]);
      TailMember(codes, sources[|sources| - 1].currencyCode);
      assert codes[0] in codes;
    }
  }

  lemma {:induction false} SumOverAll(sources: seq<SettlementSource>, codes: seq<string>)
    requires StrictlySorted(codes) && forall i :: 0 <= i < |sources| ==> sources[i].currencyCode in codes
    ensures SumOver(sources, codes) == Distributable(sources)
  {
    if sources == [] {
      SumOverNone(codes);
    } else {
      SumOverNext(sources, codes);
      SumOverAll(sources[..|sources| - 1], codes);
    }
  }

  lemma {:induction false} SumOverNone(codes: seq<string>)
    ensures SumOver([], codes) == 0
  {
    if codes != [] {
      SumOverNone(codes[1..]);
    }
  }

  lemma {:induction false} AllocatedIsSum(sources: seq<SettlementSource>, currencies: seq<CurrencyAllocation>)
    requires forall i :: 0 <= i < |currencies| ==>
               currencies[i].allocatedMinor == Sum(sources, currencies[i].currencyCode)
    ensures Allocated(currencies) == SumOver(sources, Codes(currencies))
  {
    if currencies != [] {
      AllocatedIsSum(sources, currencies[1..]);
      assert Codes(currencies)[1..] == Codes(currencies[1..]);
    }
  }

  /** Nothing is lost and nothing is made: all currencies together allocate what all sources distribute. */
  lemma ConservedInTotal(sources: seq<SettlementSource>, currencies: seq<CurrencyAllocation>,
                         beneficiaryType: BeneficiaryType, beneficiaryId: string)
    requires Conserved(sources, currencies, beneficiaryType, beneficiaryId)
    ensures Allocated(currencies) == Distributable(sources)
  {
    AllocatedIsSum(sources, currencies);
    forall i | 0 <= i < |sources|
      ensures sources[i].currencyCode in Codes(currencies)
    {
      FractionIsSome(sources, sources[i].currencyCode);
    }
    SumOverAll(sources, Codes(currencies));
  }

  // ---------------------------------------------------------------- running totals

  datatype Total = Total(fractionDigits: int, minor: int)

  /** The map of running totals is the sum and the fraction digits of each currency seen. */
  ghost predicate Totalled(sources: seq<SettlementSource>, totals: map<string, Total>) {
    forall code {:trigger Fraction(sources, code)} ::
      match Fraction(sources, code)
      case None => code !in totals
      case Some(digits) => code in totals && totals[code] == Total(digits, Sum(sources, code))
  }

  /** What was checked of the sources so far. */
  ghost predicate Checked(sources: seq<SettlementSource>) {
    FractionsAgree(sources) && TotalsSafe(sources)
  }

  lemma {:induction false} FractionIsSome(sources: seq<SettlementSource>, code: string)
    ensures Fraction(sources, code).Some? <==> exists i :: 0 <= i < |sources| && sources[i].currencyCode == code
    ensures Fraction(sources, code).Some? ==>
              exists i :: 0 <= i < |sources| && sources[i].currencyCode == code
                          && Fraction(sources, code) == Some(sources[i].fractionDigits)
  {
    if sources != [] {
      FractionIsSome(sources[..|sources| - 1], code);
    }
  }

  lemma {:induction false} SumWithout(sources: seq<SettlementSource>, code: string)
    requires Fraction(sources, code).None?
    ensures Sum(sources, code) == 0
  {
    if sources != [] {
      SumWithout(sources[..|sources| - 1], code);
    }
  }

  /** A source may be added exactly if its fraction digits agree and its currency's total stays safe. */
  lemma CheckedNext(sources: seq<SettlementSource>, s: SettlementSource)
    requires Checked(sources) && IsSafe(s.distributableMinor)
    ensures Checked(sources + [s])
            <==> && (Fraction(sources, s.currencyCode).Some? ==>
                       Fraction(sources, s.currencyCode) == Some(s.fractionDigits))
                 && Sum(sources, s.currencyCode) <= MAX_SAFE_MINOR - s.distributableMinor
  {
    var all, code := sources + [s], s.currencyCode;
    FractionIsSome(sources, code);
    assert all[..|sources|] == sources && all[..|all|] == all;
    if Checked(all) {
      assert Sum(all[..|all|], code) <= MAX_SAFE_MINOR;
      if Fraction(sources, code).Some? {
        var i :| 0 <= i < |sources| && sources[i].currencyCode == code
                 && Fraction(sources, code) == Some(sources[i].fractionDigits);
        assert all[i].fractionDigits == all[|sources|].fractionDigits;
      }
    } else {
      CheckedNextTotals(sources, s);
      CheckedNextFractions(sources, s);
    }
  }

  lemma CheckedNextTotals(sources: seq<SettlementSource>, s: SettlementSource)
    requires TotalsSafe(sources) && IsSafe(s.distributableMinor)
    ensures Sum(sources, s.currencyCode) <= MAX_SAFE_MINOR - s.distributableMinor ==> TotalsSafe(sources + [s])
  {
    var all := sources + [s];
    if Sum(sources, s.currencyCode) <= MAX_SAFE_MINOR - s.distributableMinor {
      forall n, code | 0 <= n <= |all|
        ensures Sum(all[..n], code) <= MAX_SAFE_MINOR
      {
        assert sources[..|sources|] == sources;
        if n <= |sources| {
          assert all[..n] == sources[..n];
        } else {
          assert all[..n] == all && all[..|sources|] == sources;
          assert Sum(sources[..|sources|], code) <= MAX_SAFE_MINOR;
        }
      }
    }
  }

  lemma CheckedNextFractions(sources: seq<SettlementSource>, s: SettlementSource)
    requires FractionsAgree(sources)
    ensures (Fraction(sources, s.currencyCode).Some? ==> Fraction(sources, s.currencyCode) == Some(s.fractionDigits))
            ==> FractionsAgree(sources + [s])
  {
    var all, code := sources + [s], s.currencyCode;
    FractionIsSome(sources, code);
    if Fraction(sources, code).Some? {
      var i :| 0 <= i < |sources| && sources[i].currencyCode == code
               && Fraction(sources, code) == Some(sources[i].fractionDigits);
    }
  }

  lemma TotalledNext(sources: seq<SettlementSource>, totals: map<string, Total>, s: SettlementSource)
    requires Totalled(sources, totals)
    ensures var total := Total(s.fractionDigits, Sum(sources, s.currencyCode) + s.distributableMinor);
            Totalled(sources + [s], totals[s.currencyCode := total])
  {
    assert (sources + [s])[..|sources|] == sources;
    forall code
      ensures Fraction(sources + [s], code)
              == if code == s.currencyCode then Some(s.fractionDigits) else Fraction(sources, code)
    {
    }
  }

  function Minor(totals: map<string, Total>, code: string): int {
    if code in totals then totals[code].minor else 0
  }

  lemma TotalledMinor(sources: seq<SettlementSource>, totals: map<string, Total>, code: string)
    requires Totalled(sources, totals)
    ensures Minor(totals, code) == Sum(sources, code)
    ensures code in totals ==> Fraction(sources, code) == Some(totals[code].fractionDigits)
    ensures code !in totals ==> Fraction(sources, code).None?
  {
    if Fraction(sources, code).None? {
      SumWithout(sources, code);
    }
  }

  // ---------------------------------------------------------------- what a derivation gives

  /** Every boundary still names a settlement that matches it. */
  ghost predicate Readable(t: Settlements, groupId: string, boundaries: seq<SettlementBoundary>) {
    forall i :: 0 <= i < |boundaries| ==>
      && boundaries[i].settlementId in t
      && Matches(SourceFor(t[boundaries[i].settlementId], groupId, boundaries[i]), boundaries[i])
  }

  function Copied(t: Settlements, groupId: string, boundaries: seq<SettlementBoundary>): (s: seq<SettlementSource>)
    requires forall i :: 0 <= i < |boundaries| ==> boundaries[i].settlementId in t
    ensures |s| == |boundaries|
    ensures forall i :: 0 <= i < |s| ==> s[i] == SourceFor(t[boundaries[i].settlementId], groupId, boundaries[i])
  {
    seq(|boundaries|, i requires 0 <= i < |boundaries| =>
      SourceFor(t[boundaries[i].settlementId], groupId, boundaries[i]))
  }

  function SourceCodes(sources: seq<SettlementSource>): seq<string> {
    if sources == [] then []
    else InsertText(SourceCodes(sources[..|sources| - 1]), sources[|sources| - 1].currencyCode)
  }

  function CurrenciesFor(sources: seq<SettlementSource>, beneficiaryType: BeneficiaryType, beneficiaryId: string):
    (c: seq<CurrencyAllocation>)
    ensures |c| == |SourceCodes(sources)|
    ensures forall i :: 0 <= i < |c| ==>
              c[i] == AllocationFor(sources, SourceCodes(sources)[i], i, beneficiaryType, beneficiaryId)
  {
    var codes := SourceCodes(sources);
    seq(|codes|, i requires 0 <= i < |codes| => AllocationFor(sources, codes[i], i, beneficiaryType, beneficiaryId))
  }

  ghost predicate Derivable(t: Settlements, groupId: string, boundaries: seq<SettlementBoundary>) {
    Readable(t, groupId, boundaries) && Checked(Copied(t, groupId, boundaries))
  }

  ghost function Derived(t: Settlements, groupId: string, boundaries: seq<SettlementBoundary>,
                         beneficiaryType: BeneficiaryType, beneficiaryId: string): Option<Rows> {
    if Derivable(t, groupId, boundaries) then
      var sources := Copied(t, groupId, boundaries);
      Some(Rows(sources, CurrenciesFor(sources, beneficiaryType, beneficiaryId)))
    else None
  }

  /** What was derived is derived again while settlement rows are only added. */
  lemma DerivedStays(t: Settlements, u: Settlements, groupId: string, boundaries: seq<SettlementBoundary>,
                     beneficiaryType: BeneficiaryType, beneficiaryId: string)
    requires Derived(t, groupId, boundaries, beneficiaryType, beneficiaryId).Some?
    requires forall id :: id in t ==> id in u && u[id] == t[id]
    ensures Derived(u, groupId, boundaries, beneficiaryType, beneficiaryId)
            == Derived(t, groupId, boundaries, beneficiaryType, beneficiaryId)
  {
    assert Copied(u, groupId, boundaries) == Copied(t, groupId, boundaries);
  }

  lemma {:induction false} SourceCodesExact(sources: seq<SettlementSource>)
    ensures StrictlySorted(SourceCodes(sources))
    ensures forall code :: code in SourceCodes(sources) <==> Fraction(sources, code).Some?
  {
    if sources != [] {
      var init, last := sources[..|sources| - 1], sources[|sources| - 1];
      SourceCodesExact(init);
      InsertTextSorted(SourceCodes(init), last.currencyCode);
      InsertTextMembers(SourceCodes(init), last.currencyCode);
    }
  }

  lemma CurrenciesConserved(sources: seq<SettlementSource>, beneficiaryType: BeneficiaryType, beneficiaryId: string)
    ensures Conserved(sources, CurrenciesFor(sources, beneficiaryType, beneficiaryId), beneficiaryType, beneficiaryId)
  {
    SourceCodesExact(sources);
    assert Codes(CurrenciesFor(sources, beneficiaryType, beneficiaryId)) == SourceCodes(sources);
  }

  lemma CheckedPrefix(sources: seq<SettlementSource>, n: nat)
    requires Checked(sources) && n <= |sources|
    ensures Checked(sources[..n])
  {
    forall k, code | 0 <= k <= n
      ensures Sum(sources[..n][..k], code) <= MAX_SAFE_MINOR
    {
      assert sources[..n][..k] == sources[..k];
    }
  }

  // ---------------------------------------------------------------- deriving and validating

  /** The second half of a derivation: the totals in the order of their codes. */
  method CurrenciesOf(ghost sources: seq<SettlementSource>, totals: map<string, Total>,
                      beneficiaryType: BeneficiaryType, beneficiaryId: string)
    returns (currencies: seq<CurrencyAllocation>)
    requires Totalled(sources, totals)
    ensures Conserved(sources, currencies, beneficiaryType, beneficiaryId)
  {
    var codes := SortTexts(totals.Keys);
    currencies := [];
    while |currencies| < |codes|
      invariant |currencies| <= |codes|
      invariant forall i :: 0 <= i < |currencies| ==>
                  currencies[i] == AllocationFor(sources, codes[i], i, beneficiaryType, beneficiaryId)
    {
      var code := codes[|currencies|];
      assert code in codes;
      TotalledMinor(sources, totals, code);
      var value := totals[code];
      currencies := currencies + [CurrencyAllocation(|currencies|, code, value.fractionDigits, value.minor, value.minor,
                                                     beneficiaryType, beneficiaryId)];
    }
    assert Codes(currencies) == codes;
    forall code
      ensures code in codes <==> Fraction(sources, code).Some?
    {
      TotalledMinor(sources, totals, code);
    }
  }

  /** The derivation has read the first `i` boundaries. */
  ghost predicate Progress(t: Settlements, groupId: string, boundaries: seq<SettlementBoundary>, i: nat,
                           sources: seq<SettlementSource>, totals: map<string, Total>)
  {
    && i <= |boundaries| && Readable(t, groupId, boundaries[..i]) && sources == Copied(t, groupId, boundaries[..i])
    && Checked(sources) && Totalled(sources, totals)
  }

  /** The currency's fraction digits agree and its total stays safe. */
  predicate Fits(totals: map<string, Total>, s: SettlementSource) {
    && (s.currencyCode in totals ==> totals[s.currencyCode].fractionDigits == s.fractionDigits)
    && Minor(totals, s.currencyCode) <= MAX_SAFE_MINOR - s.distributableMinor
  }

  function Added(totals: map<string, Total>, s: SettlementSource): map<string, Total> {
    totals[s.currencyCode := Total(s.fractionDigits, Minor(totals, s.currencyCode) + s.distributableMinor)]
  }

  lemma FitsIff(sources: seq<SettlementSource>, totals: map<string, Total>, s: SettlementSource)
    requires Checked(sources) && Totalled(sources, totals) && IsSafe(s.distributableMinor)
    ensures Fits(totals, s) <==> Checked(sources + [s])
    ensures Totalled(sources + [s], Added(totals, s))
  {
    CheckedNext(sources, s);
    TotalledMinor(sources, totals, s.currencyCode);
    TotalledNext(sources, totals, s);
  }

  /** One more boundary: its source is taken if it fits, and otherwise nothing can be derived. */
  lemma DeriveNext(t: Settlements, groupId: string, boundaries: seq<SettlementBoundary>, i: nat,
                   sources: seq<SettlementSource>, totals: map<string, Total>, s: SettlementSource)
    requires i < |boundaries| && Progress(t, groupId, boundaries, i, sources, totals)
    requires boundaries[i].settlementId in t
    requires s == SourceFor(t[boundaries[i].settlementId], groupId, boundaries[i]) && Matches(s, boundaries[i])
    ensures if Fits(totals, s) then Progress(t, groupId, boundaries, i + 1, sources + [s], Added(totals, s))
            else !Derivable(t, groupId, boundaries)
  {
    FitsIff(sources, totals, s);
    assert boundaries[..i + 1] == boundaries[..i] + [boundaries[i]];
    if Derivable(t, groupId, boundaries) {
      CheckedPrefix(Copied(t, groupId, boundaries), i + 1);
      assert Copied(t, groupId, boundaries)[..i + 1] == sources + [s];
    }
  }

  lemma DeriveDone(t: Settlements, groupId: string, boundaries: seq<SettlementBoundary>,
                   sources: seq<SettlementSource>, totals: map<string, Total>, currencies: seq<CurrencyAllocation>,
                   beneficiaryType: BeneficiaryType, beneficiaryId: string)
    requires Progress(t, groupId, boundaries, |boundaries|, sources, totals)
    requires Conserved(sources, currencies, beneficiaryType, beneficiaryId)
    ensures Derived(t, groupId, boundaries, beneficiaryType, beneficiaryId) == Some(Rows(sources, currencies))
  {
    assert boundaries[..|boundaries|] == boundaries;
    CurrenciesConserved(sources, beneficiaryType, beneficiaryId);
    ConservedUnique(sources, currencies, CurrenciesFor(sources, beneficiaryType, beneficiaryId), beneficiaryType,
                    beneficiaryId);
  }

  /** Copy the frozen sources and total them; any source that moved or overflows stops it. */
  method DeriveRows(t: Settlements, groupId: string, boundaries: seq<SettlementBoundary>,
                    beneficiaryType: BeneficiaryType, beneficiaryId: string) returns (r: Result<Rows>)
    ensures match Derived(t, groupId, boundaries, beneficiaryType, beneficiaryId)
            case Some(rows) => r == Ok(rows)
            case None => r.Err?
    ensures r.Ok? ==> Conserved(r.value.sources, r.value.currencies, beneficiaryType, beneficiaryId)
  {
    var sources: seq<SettlementSource>, totals: map<string, Total>, i := [], map[], 0;
    while i < |boundaries|
      invariant 0 <= i <= |boundaries|
      invariant Progress(t, groupId, boundaries, i, sources, totals)
    {
      var b := boundaries[i];
      if b.settlementId !in t {
        return Err(SourceMissing);
      }
      var source := SourceFor(t[b.settlementId], groupId, b);
      if !Matches(source, b) {
        return Err(NotConserved);
      }
      DeriveNext(t, groupId, boundaries, i, sources, totals, source);
      if !Fits(totals, source) {
        return Err(NotConserved);
      }
      totals := Added(totals, source);
      sources := sources + [source];
      i := i + 1;
    }
    var currencies := CurrenciesOf(sources, totals, beneficiaryType, beneficiaryId);
    DeriveDone(t, groupId, boundaries, sources, totals, currencies, beneficiaryType, beneficiaryId);
    return Ok(Rows(sources, currencies));
  }

  predicate SourceWellFormed(p: Patterns, s: SettlementSource, index: int) {
    && s.boundaryOrder == index && s.settlementId in p.settlementIds && IsCurrencyCode(s.currencyCode)
    && 0 <= s.fractionDigits <= 9 && s.revision >= 1 && s.ledgerIndex >= 1
    && s.settlementHash in p.digests && s.sourceFingerprint in p.digests && s.settlementAllocationHash in p.digests
    && IsSafe(s.distributableMinor)
  }

  ghost predicate SourcesWellFormed(p: Patterns, sources: seq<SettlementSource>) {
    forall i :: 0 <= i < |sources| ==> SourceWellFormed(p, sources[i], i)
  }

  lemma {:induction false} SumSafe(sources: seq<SettlementSource>, code: string)
    requires Checked(sources)
    ensures IsSafe(Sum(sources, code))
  {
    assert sources[..|sources|] == sources;
    if sources != [] {
      CheckedPrefix(sources, |sources| - 1);
      SumSafe(sources[..|sources| - 1], code);
    }
  }

  /** The sources again, as the validator totals them. */
  method TotalSources(p: Patterns, sources: seq<SettlementSource>) returns (ok: bool, totals: map<string, Total>)
    ensures ok <==> SourcesWellFormed(p, sources) && Checked(sources)
    ensures ok ==> Totalled(sources, totals)
  {
    totals := map[];
    var i := 0;
    while i < |sources|
      invariant 0 <= i <= |sources|
      invariant SourcesWellFormed(p, sources[..i]) && Checked(sources[..i]) && Totalled(sources[..i], totals)
    {
      var source := sources[i];
      if !SourceWellFormed(p, source, i) {
        return false, totals;
      }
      FitsIff(sources[..i], totals, source);
      SourceNext(sources, i);
      if !Fits(totals, source) {
        return false, totals;
      }
      totals := Added(totals, source);
      i := i + 1;
    }
    assert sources[..i] == sources;
    return true, totals;
  }

  lemma SourceNext(sources: seq<SettlementSource>, i: nat)
    requires i < |sources|
    ensures sources[..i + 1] == sources[..i] + [sources[i]]
    ensures Checked(sources) ==> Checked(sources[..i + 1])
  {
    if Checked(sources) {
      CheckedPrefix(sources, i + 1);
    }
  }

  /** Entry `i` of a currency list is in its place and carries its currency's whole total. */
  predicate CurrencyChecked(totals: map<string, Total>, currencies: seq<CurrencyAllocation>, i: nat,
                            beneficiaryType: BeneficiaryType, beneficiaryId: string)
    requires i < |currencies|
  {
    var c := currencies[i];
    && c.currencyCode in totals && c.allocationOrder == i
    && (i > 0 ==> Less(currencies[i - 1].currencyCode, c.currencyCode))
    && c.fractionDigits == totals[c.currencyCode].fractionDigits
    && c.distributableMinor == totals[c.currencyCode].minor && c.allocatedMinor == totals[c.currencyCode].minor
    && c.beneficiaryType == beneficiaryType && c.beneficiaryId == beneficiaryId && IsSafe(c.allocatedMinor)
  }

  lemma ConservedEntry(sources: seq<SettlementSource>, totals: map<string, Total>, currencies: seq<CurrencyAllocation>,
                       beneficiaryType: BeneficiaryType, beneficiaryId: string, i: nat)
    requires Checked(sources) && Totalled(sources, totals) && i < |currencies|
    requires Conserved(sources, currencies, beneficiaryType, beneficiaryId)
    ensures CurrencyChecked(totals, currencies, i, beneficiaryType, beneficiaryId)
  {
    var code := currencies[i].currencyCode;
    assert Codes(currencies)[i] == code;
    TotalledMinor(sources, totals, code);
    SumSafe(sources, code);
    if i > 0 {
      assert Less(Codes(currencies)[i - 1], Codes(currencies)[i]);
    }
  }

  lemma ConservedCount(sources: seq<SettlementSource>, totals: map<string, Total>, currencies: seq<CurrencyAllocation>,
                       beneficiaryType: BeneficiaryType, beneficiaryId: string)
    requires Totalled(sources, totals) && Conserved(sources, currencies, beneficiaryType, beneficiaryId)
    ensures |totals| == |currencies|
  {
    forall code
      ensures code in totals.Keys <==> code in Codes(currencies)
    {
      TotalledMinor(sources, totals, code);
    }
    SortedCount(Codes(currencies), totals.Keys);
    assert |totals.Keys| == |totals|;
  }

  lemma CheckedEntry(sources: seq<SettlementSource>, totals: map<string, Total>, currencies: seq<CurrencyAllocation>,
                     beneficiaryType: BeneficiaryType, beneficiaryId: string, i: nat)
    requires Totalled(sources, totals) && i < |currencies|
    requires CurrencyChecked(totals, currencies, i, beneficiaryType, beneficiaryId)
    ensures currencies[i] == AllocationFor(sources, currencies[i].currencyCode, i, beneficiaryType, beneficiaryId)
  {
    TotalledMinor(sources, totals, currencies[i].currencyCode);
  }

  lemma CheckedConserved(sources: seq<SettlementSource>, totals: map<string, Total>,
                         currencies: seq<CurrencyAllocation>,
                         beneficiaryType: BeneficiaryType, beneficiaryId: string)
    requires Totalled(sources, totals) && |totals| == |currencies| && StrictlySorted(Codes(currencies))
    requires forall i :: 0 <= i < |currencies| ==>
               CurrencyChecked(totals, currencies, i, beneficiaryType, beneficiaryId)
    ensures Conserved(sources, currencies, beneficiaryType, beneficiaryId)
  {
    forall i | 0 <= i < |currencies|
      ensures currencies[i] == AllocationFor(sources, currencies[i].currencyCode, i, beneficiaryType, beneficiaryId)
    {
      CheckedEntry(sources, totals, currencies, beneficiaryType, beneficiaryId, i);
    }
    assert |totals.Keys| == |totals|;
    forall code | code in Codes(currencies)
      ensures code in totals.Keys
    {
      var i :| 0 <= i < |currencies| && Codes(currencies)[i] == code;
      assert CurrencyChecked(totals, currencies, i, beneficiaryType, beneficiaryId);
    }
    SortedFills(Codes(currencies), totals.Keys);
    forall code
      ensures code in Codes(currencies) <==> Fraction(sources, code).Some?
    {
      TotalledMinor(sources, totals, code);
    }
  }

  /** The independent validator accepts exactly the conserved lists of well-formed, safe sources. */
  method ValidConservation(p: Patterns, rows: Rows, beneficiaryType: BeneficiaryType, beneficiaryId: string)
    returns (ok: bool)
    ensures ok <==> && SourcesWellFormed(p, rows.sources) && Checked(rows.sources)
                    && Conserved(rows.sources, rows.currencies, beneficiaryType, beneficiaryId)
  {
    var sources, currencies := rows.sources, rows.currencies;
    var sourcesOk, totals := TotalSources(p, sources);
    if !sourcesOk {
      return false;
    }
    if |totals| != |currencies| {
      if Conserved(sources, currencies, beneficiaryType, beneficiaryId) {
        ConservedCount(sources, totals, currencies, beneficiaryType, beneficiaryId);
      }
      return false;
    }
    var i := 0;
    while i < |currencies|
      invariant 0 <= i <= |currencies| && StrictlySorted(Codes(currencies[..i]))
      invariant forall k :: 0 <= k < i ==> CurrencyChecked(totals, currencies, k, beneficiaryType, beneficiaryId)
    {
      if !CurrencyChecked(totals, currencies, i, beneficiaryType, beneficiaryId) {
        if Conserved(sources, currencies, beneficiaryType, beneficiaryId) {
          ConservedEntry(sources, totals, currencies, beneficiaryType, beneficiaryId, i);
        }
        return false;
      }
      CodesNext(currencies, i);
      SortedAppend(Codes(currencies[..i]), currencies[i].currencyCode);
      i := i + 1;
    }
    assert currencies[..i] == currencies;
    CheckedConserved(sources, totals, currencies, beneficiaryType, beneficiaryId);
    return true;
  }

  lemma CodesNext(currencies: seq<CurrencyAllocation>, i: nat)
    requires i < |currencies|
    ensures Codes(currencies[..i + 1]) == Codes(currencies[..i]) + [currencies[i].currencyCode]
  {
  }

  /** What a derivation gives is accepted for well-formed sources, and is the only list that is. */
  lemma DerivedAccepted(p: Patterns, t: Settlements, groupId: string, boundaries: seq<SettlementBoundary>,
                        beneficiaryType: BeneficiaryType, beneficiaryId: string, currencies: seq<CurrencyAllocation>)
    requires Derived(t, groupId, boundaries, beneficiaryType, beneficiaryId).Some?
    ensures var rows := Derived(t, groupId, boundaries, beneficiaryType, beneficiaryId).value;
            Checked(rows.sources)
            && (Conserved(rows.sources, currencies, beneficiaryType, beneficiaryId) <==> currencies == rows.currencies)
  {
    var rows := Derived(t, groupId, boundaries, beneficiaryType, beneficiaryId).value;
    CurrenciesConserved(rows.sources, beneficiaryType, beneficiaryId);
    if Conserved(rows.sources, currencies, beneficiaryType, beneficiaryId) {
      ConservedUnique(rows.sources, currencies, rows.currencies, beneficiaryType, beneficiaryId);
    }
  }
}
