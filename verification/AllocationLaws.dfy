/**
  The ownership decision and the money of an allocation, said of the rows themselves: which transfers decide,
  and what the frozen settlements then distribute.
*/
module AllocationLaws {
  import opened Basics
  import opened Protocol
  import opened TransferAnswers
  import A = AllocationRows
  import SB = SettlementBoundaries
  import O = OwnershipTransfers
  import R = ExitReview
  import TO = TextOrder
  import opened ExitAllocation

  // ---------------------------------------------------------------- the decision

  predicate OnClaim(r: O.Record, x: R.Record) {
    r.targetDeploymentId == x.content.targetDeploymentId && r.claimActionId == x.content.claimActionId
  }

  /** A transfer of the claim other than the selected one, if there is one, awaits a decision, or is completed. */
  ghost predicate Contends(log: O.Log, x: R.Record, selected: string) {
    exists id :: id in log.records && (selected == "" || id != selected) && OnClaim(log.records[id], x)
                 && Counts(O.History(log.events, id))
  }

  predicate Counts(h: seq<(O.Action, O.Status)>) { Awaits(h) || h == COMPLETED }

  /** Event `k` completed the selected transfer of the review, which led from the review's group. */
  ghost predicate CompletedAt(log: O.Log, x: R.Record, id: string, hash: string, k: nat) {
    && id in log.records && O.History(log.events, id) == COMPLETED && LastOf(log.events, id, k)
    && log.events[k].eventHash == hash && log.records[id].exitReviewId == x.content.reviewId
    && OnClaim(log.records[id], x) && log.records[id].sourceGroupId == x.content.groupId
  }

  /**
    The decision that a request gets: the target group of a completed transfer, or without a transfer the
    beneficiary that the contract names; in either case no other transfer of the claim is open or done.
  */
  ghost predicate DecisionIs(w: World, log: O.Log, x: R.Record, mode: DecisionMode, id: string, hash: string,
                             requested: string, d: Decision)
  {
    && !Contends(log, x, id)
    && match mode
       case CompletedTransfer =>
         && id != "" && requested == "" && hash in w.r.patterns.digests
         && exists k :: 0 <= k && CompletedAt(log, x, id, hash, k)
                        && d == Decision(OperatorGroup, log.records[id].targetGroupId, k + 1, hash)
       case NoTransfer =>
         && id == "" && requested != "" && hash == ZERO_HASH
         && d == Decision(ContractBeneficiary, requested, 0, ZERO_HASH)
  }

  lemma StandsCounts(log: O.Log, id: string)
    requires O.Ok(log) && id in log.records
    ensures O.StandsAs(log.events, id, {O.Prepared, O.Approved, O.Completed}) <==> Counts(O.History(log.events, id))
  {
    hide O.Ok;
    HistoryOf(log, id);
    O.HistoryEnds(log.events, id);
  }

  lemma ContestedMeans(log: O.Log, x: R.Record, selected: string)
    requires O.Ok(log)
    ensures Contested(log, x, selected) <==> Contends(log, x, selected)
  {
    hide O.Ok;
    forall id | id in log.records
      ensures O.StandsAs(log.events, id, {O.Prepared, O.Approved, O.Completed}) <==> Counts(O.History(log.events, id))
    {
      StandsCounts(log, id);
    }
  }

  /** A transfer is completed for a review exactly if its history is complete and its last event has the hash. */
  lemma CompletedMeans(log: O.Log, id: string, x: R.Record, hash: string) returns (k: nat)
    requires O.Ok(log)
    ensures CompletedFor(log, id, x, hash) <==> exists j :: 0 <= j && CompletedAt(log, x, id, hash, j)
    ensures CompletedFor(log, id, x, hash) ==>
              && CompletedAt(log, x, id, hash, k) && O.MembershipOf(log.memberships, id).Some?
              && O.MembershipOf(log.memberships, id).value.eventIndex == k + 1
  {
    hide O.EventsOrdered, O.OneOpen, O.DaysOrdered, O.RecordsKept, O.RowsKept, O.CompletedIsLast, O.HistoriesLegal,
         O.History;
    k := LastMeans(log.events, id);
    if id in log.records {
      HistoryOf(log, id);
      O.HistoryEnds(log.events, id);
      assert O.CompletionKept(log, id);
      IndexedAt(log, k);
      assert CompletedFor(log, id, x, hash) ==> CompletedAt(log, x, id, hash, k);
    }
  }

  lemma IndexedAt(log: O.Log, k: nat)
    requires O.Ok(log)
    ensures k < |log.events| ==> log.events[k].eventIndex == k + 1
  {
  }

  /** What a request for an ownership decision gets. */
  lemma DecideMeans(w: World, log: O.Log, x: R.Record, mode: DecisionMode, id: string, hash: string,
                    requested: string, d: Decision)
    requires O.Ok(log)
    ensures Decide(w, log, x, mode, id, hash, requested) == Some(d)
            <==> DecisionIs(w, log, x, mode, id, hash, requested, d)
  {
    hide O.Ok, CompletedFor, CompletedAt, Contested, Contends;
    ContestedMeans(log, x, id);
    var k := CompletedMeans(log, id, x, hash);
    if mode == CompletedTransfer && CompletedFor(log, id, x, hash) {
      CompletedParts(log, id, x, hash, k);
    }
  }

  lemma CompletedParts(log: O.Log, id: string, x: R.Record, hash: string, k: nat)
    requires CompletedFor(log, id, x, hash) && CompletedAt(log, x, id, hash, k)
    ensures O.MembershipOf(log.memberships, id).value.eventHash == hash
    ensures forall j :: 0 <= j && CompletedAt(log, x, id, hash, j) ==> j == k
  {
  }

  // ---------------------------------------------------------------- the money

  /** The boundary is of this settlement and says what it says. */
  predicate Freezes(b: SettlementBoundary, x: SB.Settled) {
    && b.settlementId == x.settlementId && b.period == x.period && b.currencyCode == x.currencyCode
    && b.revision == x.revision && b.ledgerIndex == x.ledgerIndex && b.settlementHash == x.settlementHash
    && b.sourceFingerprint == x.sourceFingerprint && b.allocationHash == x.allocationHash
  }

  /** The source copies the settlement of its boundary, and distributes the group's amount of it. */
  predicate Draws(s: SettlementSource, b: SettlementBoundary, x: SB.Settled, group: string) {
    && s.boundaryOrder == b.boundaryOrder && s.settlementId == x.settlementId && s.period == x.period
    && s.currencyCode == x.currencyCode && s.fractionDigits == x.fractionDigits && s.revision == x.revision
    && s.ledgerIndex == x.ledgerIndex && s.settlementHash == x.settlementHash
    && s.sourceFingerprint == x.sourceFingerprint && s.settlementAllocationHash == x.allocationHash
    && s.distributableMinor == (if group in x.groupMinor then x.groupMinor[group] else 0)
    && 0 <= s.distributableMinor <= 9_007_199_254_740_991
  }

  ghost predicate DrawsFrom(rows: seq<SB.Settled>, group: string, b: SettlementBoundary, s: SettlementSource) {
    exists k :: 0 <= k < |rows| && Freezes(b, rows[k]) && Draws(s, b, rows[k], group)
  }

  ghost predicate SourcesRead(rows: seq<SB.Settled>, group: string, boundaries: seq<SettlementBoundary>,
                              sources: seq<SettlementSource>)
  {
    && |sources| == |boundaries|
    && (forall i :: 0 <= i < |sources| ==> DrawsFrom(rows, group, boundaries[i], sources[i]))
    && (forall i, j :: 0 <= i < j < |sources| && sources[i].currencyCode == sources[j].currencyCode ==>
          sources[i].fractionDigits == sources[j].fractionDigits)
    && SumsSafe(sources)
  }

  /** The row gives its currency's whole sum, as what is distributable and as what is allocated, to the beneficiary. */
  ghost predicate CurrencyReads(sources: seq<SettlementSource>, c: CurrencyAllocation, order: int,
                                beneficiaryType: BeneficiaryType, beneficiaryId: string)
  {
    && c.allocationOrder == order && c.distributableMinor == A.Sum(sources, c.currencyCode)
    && c.allocatedMinor == A.Sum(sources, c.currencyCode)
    && c.beneficiaryType == beneficiaryType && c.beneficiaryId == beneficiaryId
    && exists i :: 0 <= i < |sources| && sources[i].currencyCode == c.currencyCode
                   && sources[i].fractionDigits == c.fractionDigits
  }

  ghost predicate HasCurrency(currencies: seq<CurrencyAllocation>, code: string) {
    exists i :: 0 <= i < |currencies| && currencies[i].currencyCode == code
  }

  ghost predicate CurrenciesRead(sources: seq<SettlementSource>, currencies: seq<CurrencyAllocation>,
                                 beneficiaryType: BeneficiaryType, beneficiaryId: string)
  {
    && (forall i :: 0 <= i < |currencies| ==> CurrencyReads(sources, currencies[i], i, beneficiaryType, beneficiaryId))
    && (forall i, j :: 0 <= i < j < |currencies| ==> TO.Less(currencies[i].currencyCode, currencies[j].currencyCode))
    && forall i :: 0 <= i < |sources| ==> HasCurrency(currencies, sources[i].currencyCode)
  }

  /** What an allocation of the group's frozen settlements to this beneficiary consists of. */
  ghost predicate RowsAre(rows: seq<SB.Settled>, group: string, boundaries: seq<SettlementBoundary>,
                          beneficiaryType: BeneficiaryType, beneficiaryId: string, x: A.Rows)
  {
    && SourcesRead(rows, group, boundaries, x.sources)
    && CurrenciesRead(x.sources, x.currencies, beneficiaryType, beneficiaryId)
  }

  lemma {:induction false} SumsRise(sources: seq<SettlementSource>, n: nat, code: string)
    requires n <= |sources| && forall i :: 0 <= i < |sources| ==> sources[i].distributableMinor >= 0
    ensures A.Sum(sources[..n], code) <= A.Sum(sources, code)
  {
    if n == |sources| {
      assert sources[..n] == sources;
    } else {
      SumsRise(sources[..|sources| - 1], n, code);
      assert sources[..|sources| - 1][..n] == sources[..n];
    }
  }

  /** No currency's sum is beyond what JSON numbers carry exactly. */
  ghost predicate SumsSafe(sources: seq<SettlementSource>) {
    forall code :: A.Sum(sources, code) <= 9_007_199_254_740_991
  }

  /** Running totals are safe exactly if the sums are. */
  lemma TotalsMean(sources: seq<SettlementSource>)
    requires forall i :: 0 <= i < |sources| ==> A.IsSafe(sources[i].distributableMinor)
    ensures A.TotalsSafe(sources) <==> SumsSafe(sources)
  {
    if A.TotalsSafe(sources) {
      forall code
        ensures A.Sum(sources, code) <= 9_007_199_254_740_991
      {
        assert sources[..|sources|] == sources;
        assert A.Sum(sources[..|sources|], code) <= A.MAX_SAFE_MINOR;
      }
    } else {
      var n, code :| 0 <= n <= |sources| && A.Sum(sources[..n], code) > A.MAX_SAFE_MINOR;
      SumsRise(sources, n, code);
    }
  }

  lemma SourceMeans(rows: seq<SB.Settled>, group: string, b: SettlementBoundary, s: SettlementSource)
    requires SB.IdsUnique(rows)
    ensures DrawsFrom(rows, group, b, s)
            <==> && b.settlementId in SB.ById(rows) && s == A.SourceFor(SB.ById(rows)[b.settlementId], group, b)
                 && A.Matches(s, b)
  {
    if b.settlementId in SB.ById(rows) {
      var k := SB.ByIdIn(rows, b.settlementId);
      if DrawsFrom(rows, group, b, s) {
        var j :| 0 <= j < |rows| && Freezes(b, rows[j]) && Draws(s, b, rows[j], group);
        SB.ByIdFinds(rows, j);
      }
      if s == A.SourceFor(rows[k], group, b) && A.Matches(s, b) {
        assert Freezes(b, rows[k]) && Draws(s, b, rows[k], group);
      }
    } else if DrawsFrom(rows, group, b, s) {
      var j :| 0 <= j < |rows| && Freezes(b, rows[j]) && Draws(s, b, rows[j], group);
      SB.ByIdFinds(rows, j);
    }
  }

  lemma CurrencyMeans(sources: seq<SettlementSource>, c: CurrencyAllocation, order: int,
                      beneficiaryType: BeneficiaryType, beneficiaryId: string)
    requires A.FractionsAgree(sources)
    ensures CurrencyReads(sources, c, order, beneficiaryType, beneficiaryId)
            <==> && A.Fraction(sources, c.currencyCode).Some?
                 && c == A.AllocationFor(sources, c.currencyCode, order, beneficiaryType, beneficiaryId)
  {
    A.FractionIsSome(sources, c.currencyCode);
    forall i, j | 0 <= i < |sources| && 0 <= j < |sources| && sources[i].currencyCode == sources[j].currencyCode
      ensures sources[i].fractionDigits == sources[j].fractionDigits
    {
      assert i < j || j < i || i == j;
    }
  }

  lemma CodeListed(currencies: seq<CurrencyAllocation>, code: string)
    ensures code in A.Codes(currencies) <==> HasCurrency(currencies, code)
  {
    if HasCurrency(currencies, code) {
      var i :| 0 <= i < |currencies| && currencies[i].currencyCode == code;
      assert A.Codes(currencies)[i] == code;
    }
  }

  lemma ConservedReads(sources: seq<SettlementSource>, currencies: seq<CurrencyAllocation>,
                       beneficiaryType: BeneficiaryType, beneficiaryId: string)
    requires A.FractionsAgree(sources) && A.Conserved(sources, currencies, beneficiaryType, beneficiaryId)
    ensures CurrenciesRead(sources, currencies, beneficiaryType, beneficiaryId)
  {
    hide CurrencyReads, A.FractionsAgree, HasCurrency, A.Fraction, A.Sum;
    var codes := A.Codes(currencies);
    forall i | 0 <= i < |currencies|
      ensures CurrencyReads(sources, currencies[i], i, beneficiaryType, beneficiaryId)
    {
      assert codes[i] == currencies[i].currencyCode;
      CurrencyMeans(sources, currencies[i], i, beneficiaryType, beneficiaryId);
    }
    forall i | 0 <= i < |sources|
      ensures HasCurrency(currencies, sources[i].currencyCode)
    {
      A.FractionIsSome(sources, sources[i].currencyCode);
      CodeListed(currencies, sources[i].currencyCode);
    }
    forall i, j | 0 <= i < j < |currencies|
      ensures TO.Less(currencies[i].currencyCode, currencies[j].currencyCode)
    {
      assert TO.Less(codes[i], codes[j]);
    }
  }

  lemma ReadsConserved(sources: seq<SettlementSource>, currencies: seq<CurrencyAllocation>,
                       beneficiaryType: BeneficiaryType, beneficiaryId: string)
    requires A.FractionsAgree(sources) && CurrenciesRead(sources, currencies, beneficiaryType, beneficiaryId)
    ensures A.Conserved(sources, currencies, beneficiaryType, beneficiaryId)
  {
    hide CurrencyReads, A.FractionsAgree, HasCurrency, A.Fraction, A.Sum;
    forall i | 0 <= i < |currencies|
      ensures A.Fraction(sources, currencies[i].currencyCode).Some?
      ensures currencies[i] == A.AllocationFor(sources, currencies[i].currencyCode, i, beneficiaryType, beneficiaryId)
    {
      CurrencyMeans(sources, currencies[i], i, beneficiaryType, beneficiaryId);
    }
    forall code
      ensures code in A.Codes(currencies) <==> A.Fraction(sources, code).Some?
    {
      A.FractionIsSome(sources, code);
      CodeListed(currencies, code);
    }
  }

  /** Conservation, said of a currency list row by row. */
  lemma ConservedMeans(sources: seq<SettlementSource>, currencies: seq<CurrencyAllocation>,
                       beneficiaryType: BeneficiaryType, beneficiaryId: string)
    requires A.FractionsAgree(sources)
    ensures A.Conserved(sources, currencies, beneficiaryType, beneficiaryId)
            <==> CurrenciesRead(sources, currencies, beneficiaryType, beneficiaryId)
  {
    hide A.Conserved, CurrenciesRead, A.FractionsAgree;
    if A.Conserved(sources, currencies, beneficiaryType, beneficiaryId) {
      ConservedReads(sources, currencies, beneficiaryType, beneficiaryId);
    }
    if CurrenciesRead(sources, currencies, beneficiaryType, beneficiaryId) {
      ReadsConserved(sources, currencies, beneficiaryType, beneficiaryId);
    }
  }

  lemma SourcesMean(rows: seq<SB.Settled>, group: string, boundaries: seq<SettlementBoundary>,
                    sources: seq<SettlementSource>)
    requires SB.IdsUnique(rows)
    ensures SourcesRead(rows, group, boundaries, sources)
            <==> A.Derivable(SB.ById(rows), group, boundaries) && sources == A.Copied(SB.ById(rows), group, boundaries)
  {
    hide A.TotalsSafe, SumsSafe, SB.IdsUnique, DrawsFrom;
    if |sources| == |boundaries| {
      forall i | 0 <= i < |sources|
        ensures DrawsFrom(rows, group, boundaries[i], sources[i])
                <==> && boundaries[i].settlementId in SB.ById(rows)
                     && sources[i] == A.SourceFor(SB.ById(rows)[boundaries[i].settlementId], group, boundaries[i])
                     && A.Matches(sources[i], boundaries[i])
      {
        SourceMeans(rows, group, boundaries[i], sources[i]);
      }
      if forall i :: 0 <= i < |sources| ==> DrawsFrom(rows, group, boundaries[i], sources[i]) {
        TotalsMean(sources);
        assert A.Readable(SB.ById(rows), group, boundaries);
        assert sources == A.Copied(SB.ById(rows), group, boundaries);
      } else if A.Readable(SB.ById(rows), group, boundaries) && sources == A.Copied(SB.ById(rows), group, boundaries) {
        assert false;
      }
    }
  }

  /** What a derivation gives: the group's amounts of the frozen settlements, or nothing. */
  lemma DerivedMeans(rows: seq<SB.Settled>, group: string, boundaries: seq<SettlementBoundary>,
                     beneficiaryType: BeneficiaryType, beneficiaryId: string, x: A.Rows)
    requires SB.IdsUnique(rows)
    ensures A.Derived(SB.ById(rows), group, boundaries, beneficiaryType, beneficiaryId) == Some(x)
            <==> RowsAre(rows, group, boundaries, beneficiaryType, beneficiaryId, x)
  {
    hide SourcesRead, A.Conserved, CurrenciesRead, SB.IdsUnique, A.TotalsSafe;
    SourcesMean(rows, group, boundaries, x.sources);
    if A.Derivable(SB.ById(rows), group, boundaries) {
      var sources := A.Copied(SB.ById(rows), group, boundaries);
      ConservedMeans(sources, x.currencies, beneficiaryType, beneficiaryId);
      A.CurrenciesConserved(sources, beneficiaryType, beneficiaryId);
      if A.Conserved(sources, x.currencies, beneficiaryType, beneficiaryId) {
        A.ConservedUnique(sources, x.currencies, A.CurrenciesFor(sources, beneficiaryType, beneficiaryId),
                          beneficiaryType, beneficiaryId);
      }
    }
  }
}
