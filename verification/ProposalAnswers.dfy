/** What accepting and ratifying a proposal answers. */
module ProposalAnswers {
  import opened ProposalLaws
  import opened ProposalLifecycle
  import opened ProposedCriteria
  import Sorting
  import opened Sums
  import opened Texts

  // In any state a run reaches: exactly when each call goes through, what it writes, and why it is refused otherwise.
  // Two refusals, a rule of another type and a violated unique index, never happen.

  predicate OwnProposal(t: Tables, account: Id, proposal: Id) {
    proposal < |t.proposals| && t.proposals[proposal].account == account
  }

  /** A passed backtest of this very proposal. */
  predicate PassedFor(t: Tables, account: Id, backtest: Id, proposal: Id)
    requires proposal < |t.proposals|
  {
    && backtest < |t.backtests|
    && var b, p := t.backtests[backtest], t.proposals[proposal];
       && b.account == account && b.proposal == proposal && b.passed
       && b.proposalHash == p.proposalHash && b.astHash == p.astHash
  }

  /** The SHADOW version an acceptance makes. */
  function ShadowOf(t: Tables, a: Acceptance, rule: Id, clause: Option<Id>): Version
    requires a.proposal < |t.proposals|
  {
    var p := t.proposals[a.proposal];
    Version(rule, AiDocs, Shadow, p.ast, p.astHash, p.expectedInputs,
            Provenance(a.account, a.proposal, p.proposalHash, a.backtest, p.contractVersion, a.acceptedBy), clause,
            None, a.proposal, a.backtest, None)
  }

  // ---- what every run keeps besides ----------------------------------------------------------

  /** A rule is of the type of its proposal. */
  predicate RuleTraced(t: Tables, r: Rule) { r.slug < |t.proposals| && r.ruleType == t.proposals[r.slug].ruleType }

  predicate OneRule(rules: seq<Rule>) { forall i, j | 0 <= i < j < |rules| :: rules[i].slug != rules[j].slug }

  /** An acceptance rests on a passed backtest, and its version is the one made from it. */
  predicate AcceptanceTraced(t: Tables, a: Acceptance) {
    && a.proposal < |t.proposals| && PassedFor(t, a.account, a.backtest, a.proposal)
    && a.shadow < |t.versions|
    && t.versions[a.shadow] == ShadowOf(t, a, t.versions[a.shadow].rule, t.versions[a.shadow].clause)
  }

  ghost predicate Traced(t: Tables) {
    && (forall r | r in t.rules :: RuleTraced(t, r)) && OneRule(t.rules)
    && forall a | a in t.acceptances :: AcceptanceTraced(t, a)
  }

  lemma TracedGrows(t: Tables, u: Tables)
    requires Traced(t) && Grows(t, u) && u.rules == t.rules && u.acceptances == t.acceptances
    ensures Traced(u)
  {
    forall r | r in u.rules ensures RuleTraced(u, r) { assert RuleTraced(t, r); }
    forall a | a in u.acceptances ensures AcceptanceTraced(u, a) { assert AcceptanceTraced(t, a); }
  }

  // ---- acceptance ----------------------------------------------------------------------------

  predicate AcceptedBefore(t: Tables, proposal: Id) { exists a :: a in t.acceptances && a.proposal == proposal }

  lemma RuleMeaning(t: Tables, proposal: Id)
    requires Traced(t) && proposal < |t.proposals|
    ensures var p := t.proposals[proposal]; var (rules, rule) := RuleFor(t.rules, proposal, p.ruleType);
      && rules[rule] == Rule(proposal, p.ruleType)
      && (rules == t.rules || (rules == t.rules + [Rule(proposal, p.ruleType)]
                               && forall r | r in t.rules :: r.slug != proposal))
      && forall k: nat | k < |t.rules| && t.rules[k].slug == proposal :: rules == t.rules && rule == k
  {
    FirstMeaning(t.rules, (r: Rule) => r.slug == proposal);
    var i := First(t.rules, (r: Rule) => r.slug == proposal);
    if i >= 0 { assert t.rules[i] in t.rules; assert RuleTraced(t, t.rules[i]); }
    forall k: nat | k < |t.rules| && t.rules[k].slug == proposal ensures i == k {
      assert t.rules[k] in t.rules;
    }
  }

  /** While a proposal is not accepted it has no SHADOW version; once it is, that of its acceptance and no other. */
  lemma ShadowMeaning(e: Engine, t: Tables, proposal: Id)
    requires Invariant(e, t)
    ensures !AcceptedBefore(t, proposal) ==>
              forall v | v in t.versions && v.proposal == proposal :: v.lifecycle != Shadow
    ensures forall a | a in t.acceptances && a.proposal == proposal ::
              && a.shadow < |t.versions|
              && forall k: nat | k < |t.versions| && t.versions[k].proposal == proposal
                                 && t.versions[k].lifecycle == Shadow :: k == a.shadow
  {
    forall k: nat | k < |t.versions| && t.versions[k].proposal == proposal && t.versions[k].lifecycle == Shadow
      ensures AcceptedBefore(t, proposal)
    {
      var a := AcceptanceThere(t, k);
    }
    forall a | a in t.acceptances && a.proposal == proposal
      ensures a.shadow < |t.versions|
      ensures forall k: nat | k < |t.versions| && t.versions[k].proposal == proposal
                              && t.versions[k].lifecycle == Shadow :: k == a.shadow
    {
      assert AcceptanceSound(t, a);
      assert OneEach(t.versions);
    }
  }

  lemma InsertedNew<T>(table: seq<T>, row: T, conflicts: T -> bool, same: T -> bool)
    requires forall x | x in table :: !conflicts(x)
    ensures ProposalLifecycle.Insert(table, row, conflicts, same) == (table + [row], Some(Inserted(|table|, true)))
  {
    FirstMeaning(table, conflicts);
    FirstMeaning(table, same);
    var i := First(table, conflicts);
    if i >= 0 { InTable(table, i); assert false; }
  }

  lemma InTable<T>(table: seq<T>, i: int)
    requires 0 <= i < |table|
    ensures table[i] in table
  {
  }

  lemma InsertedThere<T>(table: seq<T>, row: T, conflicts: T -> bool, same: T -> bool, k: nat)
    requires k < |table| && conflicts(table[k])
    requires forall j: nat | j < |table| && same(table[j]) :: j == k
    ensures ProposalLifecycle.Insert(table, row, conflicts, same)
         == (table, if same(table[k]) then Some(Inserted(k, false)) else None)
  {
    FirstMeaning(table, conflicts);
    FirstMeaning(table, same);
    InTable(table, k);
  }

  /** A first acceptance: rule, SHADOW version and acceptance, the rule unless it is there. */
  predicate AcceptedNow(t: Tables, u: Tables, a: Acceptance, clause: Option<Id>) {
    && OwnProposal(t, a.account, a.proposal) && a.shadow == |t.versions|
    && var rule := Rule(a.proposal, t.proposals[a.proposal].ruleType);
       && (u.rules == t.rules || u.rules == t.rules + [rule])
       && |u.versions| == |t.versions| + 1
       && var v := u.versions[|t.versions|];
          && v.rule < |u.rules| && u.rules[v.rule] == rule && v == ShadowOf(t, a, v.rule, clause)
          && u == t.(rules := u.rules, versions := t.versions + [v], acceptances := t.acceptances + [a])
  }

  lemma FirstAcceptance(e: Engine, t: Tables, account: Id, proposal: Id, backtest: Id, actor: Id, rationale: Text,
                        clause: Option<Id>)
    requires Invariant(e, t) && Traced(t)
    requires OwnProposal(t, account, proposal) && PassedFor(t, account, backtest, proposal)
        && !AcceptedBefore(t, proposal)
    ensures var (u, r) := Accept(t, account, proposal, backtest, actor, rationale, clause);
      && r == Done(Accepted(|t.acceptances|, |t.versions|, true))
      && AcceptedNow(t, u, Acceptance(account, proposal, backtest, |t.versions|, actor, rationale), clause)
  {
    RuleMeaning(t, proposal);
    ShadowMeaning(e, t, proposal);
    NoShadowYet(e, t);
    var (rules, rule) := RuleFor(t.rules, proposal, t.proposals[proposal].ruleType);
    var row := ShadowRow(t, account, proposal, backtest, actor, rule, clause);
    hide Invariant;
    hide Traced;
    hide RuleFor;
    InsertedNew(t.versions, row, (v: Version) => v.proposal == row.proposal && v.lifecycle == Shadow,
                (v: Version) => v.proposal == row.proposal && v.rule == row.rule && v.lifecycle == Shadow
                    && v.astHash == row.astHash
                                && v.backtest == row.backtest && v.provenance == row.provenance);
    var a := Acceptance(account, proposal, backtest, |t.versions|, actor, rationale);
    InsertedNew(t.acceptances, a, (x: Acceptance) => x.account == a.account && x.proposal == a.proposal,
                (x: Acceptance) => x == a);
    assert InsertShadow(t.versions, row) == (t.versions + [row], Some(Inserted(|t.versions|, true)));
    assert InsertAcceptance(t.acceptances, a) == (t.acceptances + [a], Some(Inserted(|t.acceptances|, true)));
    hide InsertShadow;
    hide InsertAcceptance;
    hide ProposalLifecycle.Insert;
  }

  lemma NoShadowYet(e: Engine, t: Tables)
    requires Invariant(e, t)
    ensures forall a | a in t.acceptances :: a.shadow < |t.versions|
  {
    forall a | a in t.acceptances ensures a.shadow < |t.versions| { assert AcceptanceSound(t, a); }
  }

  predicate SameEvidence(a: Acceptance, backtest: Id, actor: Id, rationale: Text) {
    a.backtest == backtest && a.acceptedBy == actor && a.rationale == rationale
  }

  lemma VersionOf(e: Engine, t: Tables, a: Acceptance)
    requires Invariant(e, t) && Traced(t) && a in t.acceptances
    ensures a.proposal < |t.proposals| && a.account == t.proposals[a.proposal].account && a.shadow < |t.versions|
    ensures var v := t.versions[a.shadow];
      && v == ShadowOf(t, a, v.rule, v.clause) && v.rule < |t.rules| && t.rules[v.rule].slug == a.proposal
  {
    assert AcceptanceTraced(t, a) && AcceptanceSound(t, a);
    assert VersionSound(t, t.versions[a.shadow]);
  }

  /** The SHADOW version of an accepted proposal is found exactly by the same backtest and actor. */
  lemma ShadowThere(e: Engine, t: Tables, a: Acceptance, backtest: Id, actor: Id, clause: Option<Id>)
    requires Invariant(e, t) && Traced(t) && a in t.acceptances
    ensures a.proposal < |t.proposals|
    ensures var (rules, rule) := RuleFor(t.rules, a.proposal, t.proposals[a.proposal].ruleType);
            var row := ShadowRow(t, a.account, a.proposal, backtest, actor, rule, clause);
      && rules == t.rules && rules[rule].ruleType == t.proposals[a.proposal].ruleType
      && InsertShadow(t.versions, row)
         == (t.versions, if a.backtest == backtest && a.acceptedBy == actor then Some(Inserted(a.shadow, false))
                         else None)
  {
    VersionOf(e, t, a);
    RuleMeaning(t, a.proposal);
    ShadowMeaning(e, t, a.proposal);
    hide Invariant;
    hide Traced;
    var (rules, rule) := RuleFor(t.rules, a.proposal, t.proposals[a.proposal].ruleType);
    hide RuleFor;
    var row := ShadowRow(t, a.account, a.proposal, backtest, actor, rule, clause);
    assert t.versions[a.shadow].rule == rule;
    InsertedThere(t.versions, row, (v: Version) => v.proposal == row.proposal && v.lifecycle == Shadow,
                  (v: Version) => v.proposal == row.proposal && v.rule == row.rule && v.lifecycle == Shadow
                      && v.astHash == row.astHash
                                  && v.backtest == row.backtest && v.provenance == row.provenance, a.shadow);
    hide ProposalLifecycle.Insert;
  }

  lemma AcceptanceAt(e: Engine, t: Tables, a: Acceptance, row: Acceptance) returns (k: nat)
    requires Invariant(e, t) && a in t.acceptances && row.proposal == a.proposal && row.account == a.account
    ensures k < |t.acceptances| && t.acceptances[k] == a
    ensures InsertAcceptance(t.acceptances, row)
         == (t.acceptances, if row == a then Some(Inserted(k, false)) else None)
  {
    k :| 0 <= k < |t.acceptances| && t.acceptances[k] == a;
    assert OneAcceptance(t.acceptances);
    hide Invariant;
    InsertedThere(t.acceptances, row, (x: Acceptance) => x.account == row.account && x.proposal == row.proposal,
                  (x: Acceptance) => x == row, k);
    hide ProposalLifecycle.Insert;
  }

  lemma LaterAcceptance(e: Engine, t: Tables, account: Id, backtest: Id, actor: Id, rationale: Text,
                        clause: Option<Id>, a: Acceptance)
    returns (k: nat)
    requires Invariant(e, t) && Traced(t) && a in t.acceptances
    requires OwnProposal(t, account, a.proposal) && PassedFor(t, account, backtest, a.proposal)
    ensures k < |t.acceptances| && t.acceptances[k] == a
    ensures Accept(t, account, a.proposal, backtest, actor, rationale, clause)
         == (t, if SameEvidence(a, backtest, actor, rationale) then Done(Accepted(k, a.shadow, false))
                else Failed(AcceptanceConflict))
  {
    VersionOf(e, t, a);
    ShadowThere(e, t, a, backtest, actor, clause);
    var row := Acceptance(account, a.proposal, backtest, a.shadow, actor, rationale);
    k := AcceptanceAt(e, t, a, row);
    hide Invariant;
    hide Traced;
    hide RuleFor;
    hide ShadowRow;
    hide InsertShadow;
    hide InsertAcceptance;
  }

  /** An acceptance goes through exactly for a proposal of the tenant with a passed backtest of it, if it is not
      accepted yet, or was accepted on the same backtest by the same person for the same reason. The first time a SHADOW
      version and its acceptance are written; from then on they are found; and anything else is refused and changes
      nothing. */
  lemma AcceptAnswer(e: Engine, t: Tables, account: Id, proposal: Id, backtest: Id, actor: Id, rationale: Text,
                     clause: Option<Id>)
    requires Invariant(e, t) && Traced(t)
    ensures var (u, r) := Accept(t, account, proposal, backtest, actor, rationale, clause);
      if !OwnProposal(t, account, proposal) then u == t && r == Failed(ProposalNotFound)
      else if !PassedFor(t, account, backtest, proposal) then u == t && r == Failed(PassingBacktestRequired)
      else if !AcceptedBefore(t, proposal)
      then && r == Done(Accepted(|t.acceptances|, |t.versions|, true))
           && AcceptedNow(t, u, Acceptance(account, proposal, backtest, |t.versions|, actor, rationale), clause)
      else
        && u == t
        && forall a | a in t.acceptances && a.proposal == proposal ::
             if SameEvidence(a, backtest, actor, rationale)
             then r.Done? && !r.value.created && r.value.shadow == a.shadow
                  && r.value.acceptance < |t.acceptances| && t.acceptances[r.value.acceptance] == a
             else r == Failed(AcceptanceConflict)
  {
    hide Invariant;
    hide Traced;
    hide RuleFor;
    hide InsertShadow;
    hide InsertAcceptance;
    hide AcceptedNow;
    hide SameEvidence;
    if OwnProposal(t, account, proposal) && PassedFor(t, account, backtest, proposal) {
      if !AcceptedBefore(t, proposal) {
        FirstAcceptance(e, t, account, proposal, backtest, actor, rationale, clause);
      } else {
        var a :| a in t.acceptances && a.proposal == proposal;
        var k := LaterAcceptance(e, t, account, backtest, actor, rationale, clause, a);
        forall b | b in t.acceptances && b.proposal == proposal
          ensures Accept(t, account, proposal, backtest, actor, rationale, clause).0 == t
          ensures var r := Accept(t, account, proposal, backtest, actor, rationale, clause).1;
                  if SameEvidence(b, backtest, actor, rationale)
                  then r.Done? && !r.value.created && r.value.shadow == b.shadow
                       && r.value.acceptance < |t.acceptances| && t.acceptances[r.value.acceptance] == b
                  else r == Failed(AcceptanceConflict)
        {
          var l := LaterAcceptance(e, t, account, backtest, actor, rationale, clause, b);
        }
        hide Accept;
      }
    }
  }

  // ---- every run keeps the trace -------------------------------------------------------------

  lemma AcceptTraced(e: Engine, t: Tables, account: Id, proposal: Id, backtest: Id, actor: Id, rationale: Text,
                     clause: Option<Id>)
    requires Invariant(e, t) && Traced(t)
    ensures Traced(Accept(t, account, proposal, backtest, actor, rationale, clause).0)
  {
    AcceptAnswer(e, t, account, proposal, backtest, actor, rationale, clause);
    var u := Accept(t, account, proposal, backtest, actor, rationale, clause).0;
    hide Invariant;
    hide Accept;
    if OwnProposal(t, account, proposal) && PassedFor(t, account, backtest, proposal) && !AcceptedBefore(t, proposal) {
      hide Traced;
      RuleMeaning(t, proposal);
      NewTraced(t, u, Acceptance(account, proposal, backtest, |t.versions|, actor, rationale), clause);
    }
  }

  lemma NewTraced(t: Tables, u: Tables, a: Acceptance, clause: Option<Id>)
    requires Traced(t) && AcceptedNow(t, u, a, clause) && PassedFor(t, a.account, a.backtest, a.proposal)
    requires u.rules == t.rules || forall r | r in t.rules :: r.slug != a.proposal
    ensures Traced(u)
  {
    forall r | r in u.rules ensures RuleTraced(u, r) { if r in t.rules { assert RuleTraced(t, r); } }
    forall x | x in u.acceptances ensures AcceptanceTraced(u, x) {
      if x in t.acceptances { assert AcceptanceTraced(t, x); }
    }
  }

  lemma {:induction false} BacktestsOnly(e: Engine, t: Tables, account: Id, actor: Id, ids: seq<Id>,
                                         supplied: seq<(Id, seq<Case>)>)
    requires forall i | i in ids :: i < |t.proposals|
    ensures var u := BacktestEach(e, t, account, actor, ids, supplied).0;
            u == t.(backtests := u.backtests, cases := u.cases)
    decreases |ids|
  {
    if ids != [] {
      var n := |ids| - 1;
      assert ids[n] in ids && forall i | i in ids[..n] :: i in ids;
      BacktestsOnly(e, t, account, actor, ids[..n], supplied);
      hide CorpusError;
      hide EvidenceOf;
      hide InsertBacktest;
      hide InsertCases;
      hide SuppliedFor;
    }
  }

  lemma StepTraced(e: Engine, t: Tables, op: Op)
    requires Invariant(e, t) && Traced(t)
    ensures Traced(After(e, t, op))
  {
    StepKeeps(e, t, op);
    hide Invariant;
    match op
    case RunAccept(account, proposal, backtest, actor, rationale, clause) =>
      AcceptTraced(e, t, account, proposal, backtest, actor, rationale, clause);
    case RunBacktest(account, version, actor, supplied) =>
      BacktestsOnly(e, t, account, actor, ProposalsOf(t.proposals, account, version), supplied);
      hide BacktestEach;
      hide Traced;
      TracedGrows(t, After(e, t, op));
    case RunRatify(account, acceptance, actor, rationale) =>
      hide InsertActive;
      hide InsertRatification;
      hide Traced;
      TracedGrows(t, After(e, t, op));
    case Persist(_) =>
      hide Traced;
      TracedGrows(t, After(e, t, op));
  }

  lemma {:induction false} RunTraced(e: Engine, states: seq<Tables>, ops: seq<Op>, i: nat)
    requires Run(e, states, ops) && i < |states|
    ensures Traced(states[i])
    decreases i
  {
    hide Invariant;
    if i > 0 {
      var j := i - 1;
      RunTraced(e, states, ops, j);
      RunKeeps(e, states, ops, j);
      assert states[j + 1] == After(e, states[j], ops[j]);
      StepTraced(e, states[j], ops[j]);
    }
  }

  // ---- ratification --------------------------------------------------------------------------

  predicate RatifiedBefore(t: Tables, acceptance: Id) {
    exists r :: r in t.ratifications && r.acceptance == acceptance
  }

  /** In a traced state an acceptance of the tenant is ready to be ratified. */
  lemma RatifiableMeaning(e: Engine, t: Tables, account: Id, acceptance: Id)
    requires Invariant(e, t) && Traced(t)
    ensures Ratifiable(t, account, acceptance)
        <==> acceptance < |t.acceptances| && t.acceptances[acceptance].account == account
  {
    if acceptance < |t.acceptances| {
      var a := t.acceptances[acceptance];
      assert AcceptanceTraced(t, a);
    }
  }

  /** The ACTIVE version made by ratifying an acceptance. */
  predicate RatifiedNow(t: Tables, u: Tables, account: Id, acceptance: Id, actor: Id, rationale: Text)
    requires acceptance < |t.acceptances|
  {
    var a := t.acceptances[acceptance];
    && a.shadow < |t.versions| && a.proposal < |t.proposals|
    && var shadow := t.versions[a.shadow];
       u == t.(versions := t.versions
                 + [shadow.(hardness := FirmRule, lifecycle := Active, predecessor := Some(a.shadow),
                            ratified := Some(Ratified(actor, rationale)))],
               ratifications := t.ratifications
                 + [Ratification(account, acceptance, a.proposal, a.backtest, a.shadow, |t.versions|, actor,
                                 rationale)])
  }

  /** While an acceptance is not ratified nothing succeeds its version, and its proposal has no ACTIVE version. */
  lemma NotRatifiedYet(e: Engine, t: Tables, acceptance: Id)
    requires Invariant(e, t) && acceptance < |t.acceptances| && !RatifiedBefore(t, acceptance)
    ensures forall v | v in t.versions && v.lifecycle == Active ::
              v.proposal != t.acceptances[acceptance].proposal
              && v.predecessor != Some(t.acceptances[acceptance].shadow)
    ensures forall r | r in t.ratifications :: r.acceptance != acceptance && r.active < |t.versions|
  {
    var a := t.acceptances[acceptance];
    assert a in t.acceptances;
    assert AcceptanceSound(t, a);
    forall r | r in t.ratifications ensures r.acceptance != acceptance && r.active < |t.versions| {
      assert RatificationSound(t, r);
    }
    forall k: nat | k < |t.versions| && t.versions[k].lifecycle == Active
      ensures t.versions[k].proposal != a.proposal && t.versions[k].predecessor != Some(a.shadow)
    {
      ActiveIsRatified(e, t, k, acceptance);
    }
  }

  /** An ACTIVE version of the proposal of an acceptance is ratified under that acceptance. */
  lemma ActiveIsRatified(e: Engine, t: Tables, k: nat, acceptance: Id)
    requires Invariant(e, t) && acceptance < |t.acceptances| && k < |t.versions| && t.versions[k].lifecycle == Active
    ensures t.versions[k].proposal == t.acceptances[acceptance].proposal
            || t.versions[k].predecessor == Some(t.acceptances[acceptance].shadow)
        ==> exists r :: r in t.ratifications && r.acceptance == acceptance && r.active == k
  {
    var a, v := t.acceptances[acceptance], t.versions[k];
    assert a in t.acceptances && v in t.versions;
    assert AcceptanceSound(t, a) && VersionSound(t, v) && Backed(t, k);
    var r :| r in t.ratifications && r.active == k;
    assert RatificationSound(t, r);
    var b := t.acceptances[r.acceptance];
    assert b in t.acceptances;
    assert AcceptanceSound(t, b);
    assert v.proposal == b.proposal;
    if v.proposal == a.proposal {
      assert OneAcceptance(t.acceptances);
      assert r.acceptance == acceptance;
    }
  }

  lemma FirstRatification(e: Engine, t: Tables, account: Id, acceptance: Id, actor: Id, rationale: Text)
    requires Invariant(e, t) && Traced(t) && Ratifiable(t, account, acceptance) && !RatifiedBefore(t, acceptance)
    ensures var (u, r) := Ratify(t, account, acceptance, actor, rationale);
      && r == Done(RatifiedAs(|t.ratifications|, |t.versions|, true))
      && RatifiedNow(t, u, account, acceptance, actor, rationale)
  {
    var a := t.acceptances[acceptance];
    assert a in t.acceptances;
    VersionOf(e, t, a);
    NotRatifiedYet(e, t, acceptance);
    hide Invariant;
    hide Traced;
    var row := ActiveRow(t, a, actor, rationale);
    InsertedNew(t.versions, row, (v: Version) => v.predecessor.Some? && v.predecessor == row.predecessor
                                                 && v.lifecycle == Active,
                (v: Version) => v.predecessor.Some? && v.predecessor == row.predecessor && v.lifecycle == Active
                                && v.hardness == FirmRule && v.proposal == row.proposal && v.backtest == row.backtest
                                && v.ratified == row.ratified);
    assert InsertActive(t.versions, row) == (t.versions + [row], Some(Inserted(|t.versions|, true)));
    var made := Ratification(account, acceptance, a.proposal, a.backtest, a.shadow, |t.versions|, actor, rationale);
    InsertedNew(t.ratifications, made, (r: Ratification) => r.account == made.account
                                                            && r.acceptance == made.acceptance,
                (r: Ratification) => r.account == made.account && r.acceptance == made.acceptance
                                     && r.active == made.active && r.ratifiedBy == made.ratifiedBy
                                     && r.rationale == made.rationale);
    assert InsertRatification(t.ratifications, made)
        == (t.ratifications + [made], Some(Inserted(|t.ratifications|, true)));
    hide InsertActive;
    hide InsertRatification;
    hide ProposalLifecycle.Insert;
  }

  predicate RatifiedBy(r: Ratification, actor: Id, rationale: Text) {
    r.ratifiedBy == actor && r.rationale == rationale
  }

  /** The ACTIVE version of a ratification: the only one after its SHADOW version. */
  lemma ActiveOf(e: Engine, t: Tables, r: Ratification)
    requires Invariant(e, t) && Traced(t) && r in t.ratifications
    ensures r.acceptance < |t.acceptances|
    ensures var a := t.acceptances[r.acceptance];
      && r.account == a.account && a.shadow == r.shadow && r.active < |t.versions|
      && (var v := t.versions[r.active];
          && v.lifecycle == Active && v.hardness == FirmRule && v.predecessor == Some(a.shadow)
          && v.proposal == a.proposal && v.backtest == a.backtest
          && v.ratified == Some(Ratified(r.ratifiedBy, r.rationale)))
      && forall k: nat | k < |t.versions| && t.versions[k].lifecycle == Active
                         && t.versions[k].predecessor == Some(a.shadow) :: k == r.active
  {
    assert RatificationSound(t, r);
    var a, v := t.acceptances[r.acceptance], t.versions[r.active];
    assert a in t.acceptances && v in t.versions;
    assert VersionSound(t, v) && AcceptanceSound(t, a);
    forall k: nat | k < |t.versions| && t.versions[k].lifecycle == Active && t.versions[k].predecessor == Some(a.shadow)
      ensures k == r.active
    {
      assert t.versions[k] in t.versions;
      assert VersionSound(t, t.versions[k]);
      SameShadow(t.versions, k, r.active);
    }
  }

  lemma LaterRatification(e: Engine, t: Tables, account: Id, acceptance: Id, actor: Id, rationale: Text,
                          made: Ratification)
    returns (k: nat)
    requires Invariant(e, t) && Traced(t) && Ratifiable(t, account, acceptance)
    requires made in t.ratifications && made.acceptance == acceptance
    ensures k < |t.ratifications| && t.ratifications[k] == made
    ensures Ratify(t, account, acceptance, actor, rationale)
         == (t, if RatifiedBy(made, actor, rationale) then Done(RatifiedAs(k, made.active, false))
                else Failed(RatificationConflict))
  {
    ActiveOf(e, t, made);
    k := RatificationAt(e, t, made);
    hide Invariant;
    hide Traced;
    var a := t.acceptances[acceptance];
    var row := ActiveRow(t, a, actor, rationale);
    InsertedThere(t.versions, row, (v: Version) => v.predecessor.Some? && v.predecessor == row.predecessor
                                                   && v.lifecycle == Active,
                  (v: Version) => v.predecessor.Some? && v.predecessor == row.predecessor && v.lifecycle == Active
                                  && v.hardness == FirmRule && v.proposal == row.proposal
                                  && v.backtest == row.backtest && v.ratified == row.ratified, made.active);
    assert InsertActive(t.versions, row)
        == (t.versions, if RatifiedBy(made, actor, rationale) then Some(Inserted(made.active, false)) else None);
    var again := Ratification(account, acceptance, a.proposal, a.backtest, a.shadow, made.active, actor, rationale);
    InsertedThere(t.ratifications, again, (r: Ratification) => r.account == again.account
                                                               && r.acceptance == again.acceptance,
                  (r: Ratification) => r.account == again.account && r.acceptance == again.acceptance
                                       && r.active == again.active && r.ratifiedBy == again.ratifiedBy
                                       && r.rationale == again.rationale, k);
    assert InsertRatification(t.ratifications, again)
        == (t.ratifications, if RatifiedBy(made, actor, rationale) then Some(Inserted(k, false)) else None);
    hide InsertActive;
    hide InsertRatification;
    hide ProposalLifecycle.Insert;
  }

  lemma RatificationAt(e: Engine, t: Tables, made: Ratification) returns (k: nat)
    requires Invariant(e, t) && made in t.ratifications
    ensures k < |t.ratifications| && t.ratifications[k] == made
    ensures forall j: nat | j < |t.ratifications| && t.ratifications[j].acceptance == made.acceptance :: j == k
  {
    k :| 0 <= k < |t.ratifications| && t.ratifications[k] == made;
    assert OneRatification(t.ratifications);
  }

  /** A ratification goes through exactly for an acceptance of the tenant that is not ratified yet, or was ratified by
      the same person for the same reason. The first time an ACTIVE version, the SHADOW one as a firm rule, and its
      ratification are written; from then on they are found; and anything else is refused and changes nothing. */
  lemma RatifyAnswer(e: Engine, t: Tables, account: Id, acceptance: Id, actor: Id, rationale: Text)
    requires Invariant(e, t) && Traced(t)
    ensures var (u, r) := Ratify(t, account, acceptance, actor, rationale);
      if !(acceptance < |t.acceptances| && t.acceptances[acceptance].account == account)
      then u == t && r == Failed(AcceptanceNotFound)
      else if !RatifiedBefore(t, acceptance)
      then && r == Done(RatifiedAs(|t.ratifications|, |t.versions|, true))
           && RatifiedNow(t, u, account, acceptance, actor, rationale)
      else
        && u == t
        && forall made | made in t.ratifications && made.acceptance == acceptance ::
             if RatifiedBy(made, actor, rationale)
             then r.Done? && !r.value.created && r.value.active == made.active
                  && r.value.ratification < |t.ratifications| && t.ratifications[r.value.ratification] == made
             else r == Failed(RatificationConflict)
  {
    RatifiableMeaning(e, t, account, acceptance);
    hide Invariant;
    hide Traced;
    hide Ratifiable;
    hide RatifiedNow;
    hide RatifiedBy;
    hide InsertActive;
    hide InsertRatification;
    if Ratifiable(t, account, acceptance) {
      if !RatifiedBefore(t, acceptance) {
        FirstRatification(e, t, account, acceptance, actor, rationale);
      } else {
        var some :| some in t.ratifications && some.acceptance == acceptance;
        var j := LaterRatification(e, t, account, acceptance, actor, rationale, some);
        forall made | made in t.ratifications && made.acceptance == acceptance
          ensures var r := Ratify(t, account, acceptance, actor, rationale).1;
                  if RatifiedBy(made, actor, rationale)
                  then r.Done? && !r.value.created && r.value.active == made.active
                       && r.value.ratification < |t.ratifications| && t.ratifications[r.value.ratification] == made
                  else r == Failed(RatificationConflict)
        {
          var k := LaterRatification(e, t, account, acceptance, actor, rationale, made);
        }
        hide Ratify;
      }
    }
  }

  // ---- backtests -----------------------------------------------------------------------------

  ghost function Met(e: Engine, ast: Ast, cases: seq<Case>): nat {
    if cases == [] then 0
    else Met(e, ast, cases[1..]) + if e.interpret(ast, cases[0].facts) == cases[0].expected then 1 else 0
  }

  lemma {:induction false} MetLast(e: Engine, ast: Ast, cases: seq<Case>, c: Case)
    ensures Met(e, ast, cases + [c])
         == Met(e, ast, cases) + if e.interpret(ast, c.facts) == c.expected then 1 else 0
    decreases |cases|
  {
    if cases == [] {
      assert [] + [c] == [c] && [c][1..] == [];
    } else {
      assert (cases + [c])[1..] == cases[1..] + [c];
      MetLast(e, ast, cases[1..], c);
    }
  }

  lemma RegressionsLast(evidence: seq<Evidence>, x: Evidence)
    ensures Regressions(evidence + [x]) == Regressions(evidence) + if x.passed then 0 else 1
  {
    assert (evidence + [x])[..|evidence|] == evidence;
  }

  lemma {:induction false} RegressionsCount(e: Engine, ast: Ast, cases: seq<Case>, evidence: seq<Evidence>)
    requires |evidence| == |cases| && forall i | 0 <= i < |cases| :: evidence[i] == Evaluated(e, ast, cases[i])
    ensures Regressions(evidence) == |cases| - Met(e, ast, cases)
    decreases |cases|
  {
    if cases != [] {
      var n := |cases| - 1;
      RegressionsCount(e, ast, cases[..n], evidence[..n]);
      MetLast(e, ast, cases[..n], cases[n]);
      RegressionsLast(evidence[..n], evidence[n]);
      assert cases == cases[..n] + [cases[n]] && evidence == evidence[..n] + [evidence[n]];
      assert evidence[n].passed <==> e.interpret(ast, cases[n].facts) == cases[n].expected;
      hide Met;
      hide Regressions;
    }
  }

  /** One backtest: refused if the predicate is not the hashed one, if two cases share a key, or if a case states a fact
      the proposal does not expect; otherwise, if it goes through, its row counts the cases that met and that missed
      their expected verdict on the predicate of the proposal, and passes exactly if none missed. */
  lemma BacktestAnswer(e: Engine, t: Tables, account: Id, actor: Id, proposal: Id, cases: seq<Case>)
    returns (order: seq<Case>)
    requires proposal < |t.proposals|
    ensures multiset(order) == multiset(cases)
    ensures var (u, r) := BacktestOne(e, t, account, actor, proposal, cases); var p := t.proposals[proposal];
      && (r.Failed? ==> u == t)
      && if e.astHash(p.ast) != p.astHash then r == Failed(ProposalChanged)
         else if exists i, j :: 0 <= i < j < |cases| && cases[i].key == cases[j].key then r == Failed(DuplicateCase)
         else if exists c, k :: c in cases && k in c.facts && k !in p.expectedInputs then r == Failed(UnexpectedFact)
         else r.Done? ==>
           && r.value.id < |u.backtests|
           && var b, met := u.backtests[r.value.id], Met(e, p.ast, order);
              && b == Backtest(account, proposal, b.corpusHash, p.proposalHash, p.astHash, met == |cases|, met,
                               b.regressionCount, actor)
              && met + b.regressionCount == |cases|
  {
    var p := t.proposals[proposal];
    order := Sorting.SortBy((a: Case, b: Case) => e.keyOrder(a.key, b.key), cases);
    Sorting.SortKeepsMultiset((a: Case, b: Case) => e.keyOrder(a.key, b.key), cases);
    var evidence := EvidenceOf(e, p, cases);
    RegressionsCount(e, p.ast, order, evidence);
    CorpusMeaning(p, cases);
    BacktestThere(t.backtests, BacktestRow(e, t, account, actor, proposal, cases));
    hide EvidenceOf;
    hide InsertBacktest;
    hide InsertCases;
    hide CorpusError;
    hide Sorting.SortBy;
    hide CorpusHash;
    hide Met;
  }

  lemma CorpusMeaning(p: Proposal, cases: seq<Case>)
    ensures CorpusError(p, cases)
         == if exists i, j :: 0 <= i < j < |cases| && cases[i].key == cases[j].key then Some(DuplicateCase)
            else if exists c, k :: c in cases && k in c.facts && k !in p.expectedInputs then Some(UnexpectedFact)
            else None
  {
    if exists c, k :: c in cases && k in c.facts && k !in p.expectedInputs {
      var c, k :| c in cases && k in c.facts && k !in p.expectedInputs;
      assert UnexpectedFacts(p, c);
    }
  }

  lemma BacktestThere(backtests: seq<Backtest>, row: Backtest)
    ensures var (more, r) := InsertBacktest(backtests, row);
            r.Some? ==> r.value.id < |more| && more[r.value.id] == row
  {
    FirstMeaning(backtests, (b: Backtest) => b == row);
  }
}
