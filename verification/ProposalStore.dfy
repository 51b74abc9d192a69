/** The proposal tables as fields, and the three calls as the statements they run. A failed call is rolled back. */
module ProposalStore {
  import opened ProposalLaws
  import opened ProposalLifecycle
  import opened Sums
  import opened Texts

  class Store {
    var proposals: seq<Proposal>
    var backtests: seq<Backtest>
    var cases: seq<CaseRow>
    var rules: seq<Rule>
    var versions: seq<Version>
    var acceptances: seq<Acceptance>
    var ratifications: seq<Ratification>

    function View(): Tables
      reads this
    {
      Tables(proposals, backtests, cases, rules, versions, acceptances, ratifications)
    }

    constructor ()
      ensures View() == EMPTY
    {
      proposals, backtests, cases, rules, versions, acceptances, ratifications := [], [], [], [], [], [], [];
    }

    /** The inner loop: one row per case, in key order. */
    method InsertEvidence(account: Id, backtest: Id, evidence: seq<Evidence>) returns (ok: bool)
      modifies `cases
      ensures match InsertCases(old(cases), account, backtest, evidence)
              case None => !ok
              case Some(more) => ok && cases == more
    {
      for n := 0 to |evidence|
        invariant InsertCases(old(cases), account, backtest, evidence[..n]) == Some(cases)
      {
        assert evidence[..n + 1][..n] == evidence[..n];
        var (more, r) := InsertCase(cases, CaseRowOf(account, backtest, evidence[n]));
        if r == None {
          ConflictStays(old(cases), account, backtest, evidence, n + 1);
          return false;
        }
        cases := more;
      }
      assert evidence[..|evidence|] == evidence;
      ok := true;
    }

    method BacktestProposal(e: Engine, account: Id, actor: Id, proposal: Id, supplied: seq<Case>)
      returns (r: Reply<Inserted>)
      requires proposal < |proposals|
      modifies `backtests, `cases
      ensures (View(), r) == BacktestOne(e, old(View()), account, actor, proposal, supplied)
    {
      hide InsertBacktest;
      hide EvidenceOf;
      hide BacktestRow;
      hide CorpusError;
      var p := proposals[proposal];
      if e.astHash(p.ast) != p.astHash { return Failed(ProposalChanged); }
      if CorpusError(p, supplied) != None { return Failed(CorpusError(p, supplied).value); }
      var savedBacktests, savedCases := backtests, cases;
      var row := BacktestRow(e, View(), account, actor, proposal, supplied);
      var (more, inserted) := InsertBacktest(backtests, row);
      if inserted == None { return Failed(PartialConflict); }
      backtests := more;
      var ok := InsertEvidence(account, inserted.value.id, EvidenceOf(e, p, supplied));
      if !ok {
        backtests, cases := savedBacktests, savedCases;
        return Failed(PartialConflict);
      }
      r := Done(inserted.value);
    }

    /** The loop over the proposals of the contract version. */
    method Backtest(e: Engine, account: Id, contractVersion: Id, actor: Id, supplied: seq<(Id, seq<Case>)>)
      returns (r: Reply<seq<Inserted>>)
      modifies `backtests, `cases
      ensures (View(), r) == BacktestProposals(e, old(View()), account, contractVersion, actor, supplied)
      ensures Invariant(e, old(View())) ==> Invariant(e, View())
    {
      ghost var before := View();
      if Invariant(e, before) { BacktestKeeps(e, before, account, contractVersion, actor, supplied); }
      hide Invariant;
      hide BacktestOne;
      var error := BacktestError(View(), account, contractVersion, supplied);
      if error != None { return Failed(error.value); }
      hide BacktestError;
      var ids := ProposalsOf(proposals, account, contractVersion);
      var savedBacktests, savedCases := backtests, cases;
      var done: seq<Inserted> := [];
      for n := 0 to |ids|
        invariant proposals == before.proposals && View() == before.(backtests := backtests, cases := cases)
        invariant (forall i | i in ids[..n] :: i < |before.proposals|)
            && BacktestEach(e, before, account, actor, ids[..n], supplied) == (View(), Done(done))
      {
        assert ids[n] in ids;
        ghost var upTo := ids[..n + 1];
        assert upTo[..n] == ids[..n] && forall i | i in upTo :: i in ids;
        var one := BacktestProposal(e, account, actor, ids[n], SuppliedFor(supplied, ids[n]));
        if one.Failed? {
          FailureStays(e, before, account, actor, ids, supplied, n + 1, one.error);
          backtests, cases := savedBacktests, savedCases;
          return Failed(one.error);
        }
        done := done + [one.value];
      }
      assert ids[..|ids|] == ids;
      r := Done(done);
    }

    method AcceptProposal(e: Engine, account: Id, proposal: Id, backtest: Id, actor: Id, rationale: Text,
                          clause: Option<Id>) returns (r: Reply<Accepted>)
      modifies `rules, `versions, `acceptances
      ensures (View(), r) == Accept(old(View()), account, proposal, backtest, actor, rationale, clause)
      ensures Invariant(e, old(View())) ==> Invariant(e, View())
    {
      ghost var before := View();
      if Invariant(e, before) { AcceptKeeps(e, before, account, proposal, backtest, actor, rationale, clause); }
      hide Invariant;
      hide InsertShadow;
      hide InsertAcceptance;
      hide RuleFor;
      if !(proposal < |proposals| && proposals[proposal].account == account) { return Failed(ProposalNotFound); }
      if !PassingBacktest(View(), account, backtest, proposal) { return Failed(PassingBacktestRequired); }
      hide PassingBacktest;
      var savedRules, savedVersions := rules, versions;
      var (moreRules, rule) := RuleFor(rules, proposal, proposals[proposal].ruleType);
      rules := moreRules;
      if rules[rule].ruleType != proposals[proposal].ruleType {
        rules := savedRules;
        return Failed(RuleConflict);
      }
      var (moreVersions, shadow) := InsertShadow(versions,
                                                 ShadowRow(View(), account, proposal, backtest, actor, rule, clause));
      if shadow == None {
        rules := savedRules;
        return Failed(AcceptanceConflict);
      }
      versions := moreVersions;
      var row := Acceptance(account, proposal, backtest, shadow.value.id, actor, rationale);
      var (moreAcceptances, inserted) := InsertAcceptance(acceptances, row);
      if inserted == None {
        rules, versions := savedRules, savedVersions;
        return Failed(AcceptanceConflict);
      }
      if inserted.value.created && exists a | a in acceptances :: a.account == account && a.shadow == row.shadow {
        rules, versions := savedRules, savedVersions;
        return Failed(UniqueViolation);
      }
      acceptances := moreAcceptances;
      r := Done(Accepted(inserted.value.id, shadow.value.id, inserted.value.created));
    }

    method RatifyProposal(e: Engine, account: Id, acceptance: Id, actor: Id, rationale: Text)
      returns (r: Reply<RatifiedAs>)
      modifies `versions, `ratifications
      ensures (View(), r) == Ratify(old(View()), account, acceptance, actor, rationale)
      ensures Invariant(e, old(View())) ==> Invariant(e, View())
    {
      ghost var before := View();
      if Invariant(e, before) { RatifyKeeps(e, before, account, acceptance, actor, rationale); }
      hide Invariant;
      hide InsertActive;
      hide InsertRatification;
      if !Ratifiable(View(), account, acceptance) { return Failed(AcceptanceNotFound); }
      var a := acceptances[acceptance];
      var savedVersions := versions;
      var (moreVersions, active) := InsertActive(versions, ActiveRow(View(), a, actor, rationale));
      if active == None { return Failed(RatificationConflict); }
      if active.value.created && exists v | v in versions :: v.proposal == a.proposal && v.lifecycle == Active {
        return Failed(UniqueViolation);
      }
      versions := moreVersions;
      var row := Ratification(account, acceptance, a.proposal, a.backtest, a.shadow, active.value.id, actor, rationale);
      var (moreRatifications, inserted) := InsertRatification(ratifications, row);
      if inserted == None {
        versions := savedVersions;
        return Failed(RatificationConflict);
      }
      if inserted.value.created && exists x | x in ratifications :: x.account == account && x.active == row.active {
        versions := savedVersions;
        return Failed(UniqueViolation);
      }
      ratifications := moreRatifications;
      r := Done(RatifiedAs(inserted.value.id, active.value.id, inserted.value.created));
    }
  }

  lemma {:induction false} ConflictStays(cases: seq<CaseRow>, account: Id, backtest: Id, evidence: seq<Evidence>,
                                         n: nat)
    requires n <= |evidence| && InsertCases(cases, account, backtest, evidence[..n]) == None
    ensures InsertCases(cases, account, backtest, evidence) == None
    decreases |evidence| - n
  {
    if n < |evidence| {
      assert evidence[..n + 1][..n] == evidence[..n];
      ConflictStays(cases, account, backtest, evidence, n + 1);
    } else {
      assert evidence[..n] == evidence;
    }
  }

  lemma {:induction false} FailureStays(e: Engine, t: Tables, account: Id, actor: Id, ids: seq<Id>,
                                        supplied: seq<(Id, seq<Case>)>, n: nat, error: Error)
    requires n <= |ids| && forall i | i in ids :: i < |t.proposals|
    requires (forall i | i in ids[..n] :: i < |t.proposals|)
        && BacktestEach(e, t, account, actor, ids[..n], supplied).1 == Failed(error)
    ensures BacktestEach(e, t, account, actor, ids, supplied).1 == Failed(error)
    decreases |ids| - n
  {
    if n < |ids| {
      var upTo := ids[..n + 1];
      assert upTo[..n] == ids[..n] && forall i | i in upTo :: i in ids;
      FailureStays(e, t, account, actor, ids, supplied, n + 1, error);
    } else {
      assert ids[..n] == ids;
    }
  }
}
