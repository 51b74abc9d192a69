/** What every run of backtest, acceptance and ratification keeps. */
module ProposalLaws {
  import opened ProposalLifecycle
  import opened ProposedCriteria
  import opened Sorting
  import opened Sums
  import opened Texts

  // ---- the invariant -------------------------------------------------------------------------

  predicate BacktestSound(e: Engine, t: Tables, b: Backtest) {
    && b.proposal < |t.proposals|
    && var p := t.proposals[b.proposal];
       b.proposalHash == p.proposalHash && b.astHash == p.astHash == e.astHash(p.ast)
  }

  /** A case row holds the verdict of the interpreter on the predicate of its proposal; in a passed backtest it is the
      expected one. */
  predicate CaseSound(e: Engine, t: Tables, c: CaseRow) {
    && c.backtest < |t.backtests| && t.backtests[c.backtest].proposal < |t.proposals|
    && c.actual == e.interpret(t.proposals[t.backtests[c.backtest].proposal].ast, c.facts)
    && c.passed == (c.actual == c.expected)
    && (t.backtests[c.backtest].passed ==> c.passed)
  }

  predicate HasCase(cases: seq<CaseRow>, backtest: Id) { exists c | c in cases :: c.backtest == backtest }

  ghost predicate BacktestsSound(e: Engine, t: Tables) {
    && (forall b | b in t.backtests :: BacktestSound(e, t, b))
    && (forall c | c in t.cases :: CaseSound(e, t, c))
    && forall i: nat | i < |t.backtests| :: HasCase(t.cases, i)
  }

  /** A version made from a proposal: the predicate of the proposal, under its rule, on a passed backtest of it. */
  predicate VersionSound(t: Tables, v: Version) {
    && v.proposal < |t.proposals| && v.ast == t.proposals[v.proposal].ast
        && v.astHash == t.proposals[v.proposal].astHash
    && v.backtest < |t.backtests| && t.backtests[v.backtest].proposal == v.proposal && t.backtests[v.backtest].passed
    && v.rule < |t.rules| && t.rules[v.rule].slug == v.proposal
    && (v.lifecycle == Shadow ==> v.hardness == AiDocs && v.predecessor == None && v.ratified == None)
    && (v.lifecycle == Active
        ==> v.hardness == FirmRule && v.predecessor.Some? && v.ratified.Some? && SucceedsShadow(t, v))
  }

  predicate SucceedsShadow(t: Tables, v: Version)
    requires v.predecessor.Some?
  {
    && v.predecessor.value < |t.versions|
    && var s := t.versions[v.predecessor.value];
       s.lifecycle == Shadow && s.rule == v.rule && s.ast == v.ast && s.proposal == v.proposal
           && s.backtest == v.backtest
  }

  predicate AcceptanceSound(t: Tables, a: Acceptance) {
    && a.proposal < |t.proposals| && a.account == t.proposals[a.proposal].account
    && a.shadow < |t.versions| && t.versions[a.shadow].lifecycle == Shadow
    && t.versions[a.shadow].proposal == a.proposal && t.versions[a.shadow].backtest == a.backtest
  }

  predicate RatificationSound(t: Tables, r: Ratification) {
    && r.acceptance < |t.acceptances|
    && t.acceptances[r.acceptance].account == r.account && t.acceptances[r.acceptance].proposal == r.proposal
    && t.acceptances[r.acceptance].backtest == r.backtest && t.acceptances[r.acceptance].shadow == r.shadow
    && r.active < |t.versions| && t.versions[r.active].lifecycle == Active
        && t.versions[r.active].predecessor == Some(r.shadow)
    && t.versions[r.active].ratified == Some(Ratified(r.ratifiedBy, r.rationale))
  }

  predicate HasAcceptance(acceptances: seq<Acceptance>, shadow: Id) {
    exists a | a in acceptances :: a.shadow == shadow
  }

  predicate HasRatification(ratifications: seq<Ratification>, active: Id) {
    exists r | r in ratifications :: r.active == active
  }

  /** Every SHADOW version is accepted and every ACTIVE one ratified. */
  predicate Backed(t: Tables, i: nat)
    requires i < |t.versions|
  {
    if t.versions[i].lifecycle == Shadow then HasAcceptance(t.acceptances, i) else HasRatification(t.ratifications, i)
  }

  predicate OneEach(versions: seq<Version>) {
    forall i, j | 0 <= i < j < |versions| && versions[i].proposal == versions[j].proposal ::
        versions[i].lifecycle != versions[j].lifecycle
  }

  predicate OneAcceptance(acceptances: seq<Acceptance>) {
    forall i, j | 0 <= i < j < |acceptances| :: acceptances[i].proposal != acceptances[j].proposal
  }

  predicate OneRatification(ratifications: seq<Ratification>) {
    forall i, j | 0 <= i < j < |ratifications| :: ratifications[i].acceptance != ratifications[j].acceptance
  }

  ghost predicate LifecycleSound(t: Tables) {
    && (forall v | v in t.versions :: VersionSound(t, v))
    && (forall a | a in t.acceptances :: AcceptanceSound(t, a))
    && (forall r | r in t.ratifications :: RatificationSound(t, r))
    && (forall i: nat | i < |t.versions| :: Backed(t, i))
    && OneEach(t.versions) && OneAcceptance(t.acceptances) && OneRatification(t.ratifications)
  }

  ghost predicate Invariant(e: Engine, t: Tables) { BacktestsSound(e, t) && LifecycleSound(t) }

  // ---- growing tables ------------------------------------------------------------------------

  lemma BacktestsGrow(e: Engine, t: Tables, u: Tables)
    requires BacktestsSound(e, t) && Grows(t, u) && u.backtests == t.backtests && u.cases == t.cases
    ensures BacktestsSound(e, u)
  {
    forall b | b in u.backtests ensures BacktestSound(e, u, b) { assert BacktestSound(e, t, b); }
    forall c | c in u.cases ensures CaseSound(e, u, c) { assert CaseSound(e, t, c); }
  }

  lemma VersionGrows(t: Tables, u: Tables, v: Version)
    requires VersionSound(t, v) && Grows(t, u)
    ensures VersionSound(u, v)
  {
  }

  lemma AcceptanceGrows(t: Tables, u: Tables, a: Acceptance)
    requires AcceptanceSound(t, a) && Grows(t, u)
    ensures AcceptanceSound(u, a)
  {
  }

  lemma RatificationGrows(t: Tables, u: Tables, r: Ratification)
    requires RatificationSound(t, r) && Grows(t, u)
    ensures RatificationSound(u, r)
  {
  }

  lemma BackedGrows(t: Tables, u: Tables, i: nat)
    requires i < |t.versions| && Backed(t, i) && Grows(t, u)
    ensures Backed(u, i)
  {
    if t.versions[i].lifecycle == Shadow {
      var a :| a in t.acceptances && a.shadow == i;
      assert a in u.acceptances;
    } else {
      var r :| r in t.ratifications && r.active == i;
      assert r in u.ratifications;
    }
  }

  /** Rows that were sound stay so while the tables grow; a proof has to care for the new rows only. */
  lemma OldRows(t: Tables, u: Tables)
    requires LifecycleSound(t) && Grows(t, u)
    ensures forall v | v in t.versions :: VersionSound(u, v)
    ensures forall a | a in t.acceptances :: AcceptanceSound(u, a)
    ensures forall r | r in t.ratifications :: RatificationSound(u, r)
    ensures forall i: nat | i < |t.versions| :: Backed(u, i)
  {
    forall v | v in t.versions ensures VersionSound(u, v) { VersionGrows(t, u, v); }
    forall a | a in t.acceptances ensures AcceptanceSound(u, a) { AcceptanceGrows(t, u, a); }
    forall r | r in t.ratifications ensures RatificationSound(u, r) { RatificationGrows(t, u, r); }
    forall i: nat | i < |t.versions| ensures Backed(u, i) { BackedGrows(t, u, i); }
  }

  lemma LifecycleUntouched(t: Tables, u: Tables)
    requires LifecycleSound(t) && Grows(t, u) && u.versions == t.versions && u.acceptances == t.acceptances
        && u.ratifications == t.ratifications
    ensures LifecycleSound(u)
  {
    OldRows(t, u);
    hide VersionSound;
    hide AcceptanceSound;
    hide RatificationSound;
    hide Backed;
    hide Grows;
  }

  // ---- backtests -----------------------------------------------------------------------------

  /** Evidence computed from a proposal: the verdict of the interpreter, compared with the expected one. */
  ghost predicate FromProposal(e: Engine, p: Proposal, x: Evidence) {
    x.actual == e.interpret(p.ast, x.facts) && x.passed == (x.actual == x.expected)
  }

  lemma EvidenceSound(e: Engine, p: Proposal, cases: seq<Case>)
    ensures forall x | x in EvidenceOf(e, p, cases) :: FromProposal(e, p, x)
    ensures |EvidenceOf(e, p, cases)| == |cases|
  {
    var byKey := (a: Case, b: Case) => e.keyOrder(a.key, b.key);
    SortKeepsMultiset(byKey, cases);
    hide SortBy;
  }

  lemma {:induction false} InsertedCases(cases: seq<CaseRow>, account: Id, backtest: Id, evidence: seq<Evidence>)
    requires InsertCases(cases, account, backtest, evidence).Some?
    ensures var more := InsertCases(cases, account, backtest, evidence).value;
      && cases <= more
      && (forall c | c in more :: c in cases || exists x | x in evidence :: c == CaseRowOf(account, backtest, x))
      && forall x | x in evidence :: CaseRowOf(account, backtest, x) in more
    decreases |evidence|
  {
    if evidence != [] {
      var n := |evidence| - 1;
      InsertedCases(cases, account, backtest, evidence[..n]);
      var before := InsertCases(cases, account, backtest, evidence[..n]).value;
      var row := CaseRowOf(account, backtest, evidence[n]);
      FirstMeaning(before, (r: CaseRow) => r.account == row.account && r.backtest == row.backtest && r.key == row.key);
      FirstMeaning(before, (r: CaseRow) => r == row);
      assert forall x :: x in evidence <==> x == evidence[n] || x in evidence[..n];
      hide First;
      hide CaseRowOf;
    }
  }

  lemma BacktestOneKeeps(e: Engine, t: Tables, account: Id, actor: Id, proposal: Id, cases: seq<Case>)
    requires BacktestsSound(e, t) && proposal < |t.proposals| && cases != []
    ensures var u := BacktestOne(e, t, account, actor, proposal, cases).0;
            BacktestsSound(e, u) && Grows(t, u) && u == t.(backtests := u.backtests, cases := u.cases)
  {
    var (u, r) := BacktestOne(e, t, account, actor, proposal, cases);
    if r.Done? {
      var p := t.proposals[proposal];
      var evidence := EvidenceOf(e, p, cases);
      var row := BacktestRow(e, t, account, actor, proposal, cases);
      EvidenceSound(e, p, cases);
      InsertedBacktest(t.backtests, row);
      InsertedCases(t.cases, account, r.value.id, evidence);
      assert row.passed <==> forall x | x in evidence :: x.passed;
      assert row.proposal == proposal && row.proposalHash == p.proposalHash
          && row.astHash == p.astHash == e.astHash(p.ast);
      hide BacktestOne;
      hide BacktestRow;
      hide InsertBacktest;
      hide InsertCases;
      hide EvidenceOf;
      NewBacktestSound(e, t, u, account, row, r.value.id, p, evidence);
    }
  }

  lemma InsertedBacktest(backtests: seq<Backtest>, row: Backtest)
    requires InsertBacktest(backtests, row).1.Some?
    ensures var (more, r) := InsertBacktest(backtests, row);
      && (more == backtests || (more == backtests + [row] && r.value.id == |backtests|)) && r.value.id < |more|
          && more[r.value.id] == row
  {
    FirstMeaning(backtests, (b: Backtest) => b.account == row.account && b.proposal == row.proposal
        && b.corpusHash == row.corpusHash);
    FirstMeaning(backtests, (b: Backtest) => b == row);
    hide First;
  }

  lemma NewBacktestSound(e: Engine, t: Tables, u: Tables, account: Id, row: Backtest, id: Id, p: Proposal,
                         evidence: seq<Evidence>)
    requires BacktestsSound(e, t) && u == t.(backtests := u.backtests, cases := u.cases)
    requires u.backtests == t.backtests || (u.backtests == t.backtests + [row] && id == |t.backtests|)
    requires id < |u.backtests| && u.backtests[id] == row
    requires row.proposal < |t.proposals| && t.proposals[row.proposal] == p
    requires row.proposalHash == p.proposalHash && row.astHash == p.astHash == e.astHash(p.ast)
    requires row.passed <==> forall x | x in evidence :: x.passed
    requires evidence != [] && forall x | x in evidence :: FromProposal(e, p, x)
    requires t.cases <= u.cases
    requires forall c | c in u.cases :: c in t.cases || exists x | x in evidence :: c == CaseRowOf(account, id, x)
    requires forall x | x in evidence :: CaseRowOf(account, id, x) in u.cases
    ensures BacktestsSound(e, u) && Grows(t, u)
  {
    forall b | b in u.backtests
        ensures BacktestSound(e, u, b) { if b in t.backtests { assert BacktestSound(e, t, b); }
            else { assert b == row; } }
    forall c | c in u.cases ensures CaseSound(e, u, c) {
      if c in t.cases {
        assert CaseSound(e, t, c);
        assert u.backtests[c.backtest] == t.backtests[c.backtest];
      } else {
        var x :| x in evidence && c == CaseRowOf(account, id, x);
      }
    }
    forall i: nat | i < |u.backtests| ensures HasCase(u.cases, i) {
      if i < |t.backtests| {
        assert HasCase(t.cases, i);
        var c :| c in t.cases && c.backtest == i;
        assert c in u.cases;
      } else {
        assert i == id;
        assert evidence[0] in evidence;
        assert CaseRowOf(account, id, evidence[0]) in u.cases;
      }
    }
  }

  lemma {:induction false} BacktestEachKeeps(e: Engine, t: Tables, account: Id, actor: Id, ids: seq<Id>,
                                             supplied: seq<(Id, seq<Case>)>)
    requires BacktestsSound(e, t) && forall i | i in ids :: i < |t.proposals| && SuppliedFor(supplied, i) != []
    ensures var u := BacktestEach(e, t, account, actor, ids, supplied).0;
            BacktestsSound(e, u) && Grows(t, u) && u == t.(backtests := u.backtests, cases := u.cases)
    decreases |ids|
  {
    hide BacktestsSound;
    hide BacktestOne;
    if ids != [] {
      var n := |ids| - 1;
      assert ids[n] in ids && forall i | i in ids[..n] :: i in ids;
      BacktestEachKeeps(e, t, account, actor, ids[..n], supplied);
      var u := BacktestEach(e, t, account, actor, ids[..n], supplied).0;
      BacktestOneKeeps(e, u, account, actor, ids[n], SuppliedFor(supplied, ids[n]));
    }
  }

  lemma BacktestKeeps(e: Engine, t: Tables, account: Id, contractVersion: Id, actor: Id, supplied: seq<(Id, seq<Case>)>)
    requires Invariant(e, t)
    ensures var u := BacktestProposals(e, t, account, contractVersion, actor, supplied).0;
            Invariant(e, u) && Grows(t, u)
  {
    hide BacktestsSound;
    hide LifecycleSound;
    var u := BacktestProposals(e, t, account, contractVersion, actor, supplied).0;
    if BacktestError(t, account, contractVersion, supplied) == None {
      BacktestEachKeeps(e, t, account, actor, ProposalsOf(t.proposals, account, contractVersion), supplied);
      hide BacktestEach;
      if u != t { LifecycleUntouched(t, u); }
    }
  }

  // ---- acceptance ----------------------------------------------------------------------------

  /** A first acceptance, seen from the tables: a SHADOW version and its acceptance, together. */
  predicate NewShadow(t: Tables, u: Tables, v: Version, a: Acceptance) {
    && u == t.(rules := u.rules, versions := t.versions + [v], acceptances := t.acceptances + [a]) && t.rules <= u.rules
    && v.lifecycle == Shadow && VersionSound(u, v) && AcceptanceSound(u, a)
    && a.proposal == v.proposal && a.shadow == |t.versions|
    && (forall x | x in t.versions && x.proposal == v.proposal :: x.lifecycle != Shadow)
    && forall x | x in t.acceptances :: x.proposal != a.proposal
  }

  lemma InsertedShadow(versions: seq<Version>, row: Version)
    requires row.lifecycle == Shadow && InsertShadow(versions, row).1.Some?
    ensures var (more, r) := InsertShadow(versions, row);
      if r.value.created
      then more == versions + [row] && r.value.id == |versions| && forall x | x in versions
          && x.proposal == row.proposal :: x.lifecycle != Shadow
      else more == versions && r.value.id < |versions| && versions[r.value.id].lifecycle == Shadow
           && versions[r.value.id].proposal == row.proposal && versions[r.value.id].backtest == row.backtest
  {
    FirstMeaning(versions, (v: Version) => v.proposal == row.proposal && v.lifecycle == Shadow);
    FirstMeaning(versions, (v: Version) => v.proposal == row.proposal && v.rule == row.rule && v.lifecycle == Shadow
        && v.astHash == row.astHash
                                           && v.backtest == row.backtest && v.provenance == row.provenance);
    hide First;
  }

  lemma InsertedAcceptance(rows: seq<Acceptance>, row: Acceptance)
    ensures var (more, r) := InsertAcceptance(rows, row);
      && ((exists x | x in rows :: x.account == row.account && x.proposal == row.proposal)
          ==> more == rows && (r.Some? ==> !r.value.created))
      && ((forall x | x in rows :: x.account != row.account || x.proposal != row.proposal)
          ==> more == rows + [row] && r == Some(Inserted(|rows|, true)))
  {
    var conflicts, same := (a: Acceptance) => a.account == row.account && a.proposal == row.proposal,
        (a: Acceptance) => a == row;
    FirstMeaning(rows, conflicts);
    FirstMeaning(rows, same);
    hide First;
  }

  /** While no SHADOW version of a proposal exists, no acceptance of it does. */
  lemma NoAcceptanceYet(t: Tables, proposal: Id)
    requires LifecycleSound(t) && forall x | x in t.versions && x.proposal == proposal :: x.lifecycle != Shadow
    ensures forall a | a in t.acceptances :: a.proposal != proposal && a.shadow < |t.versions|
  {
    forall a | a in t.acceptances ensures a.proposal != proposal && a.shadow < |t.versions| {
      assert AcceptanceSound(t, a);
      assert t.versions[a.shadow] in t.versions;
    }
  }

  /** Once it exists, so does its acceptance. */
  lemma AcceptanceThere(t: Tables, shadow: Id) returns (a: Acceptance)
    requires LifecycleSound(t) && shadow < |t.versions| && t.versions[shadow].lifecycle == Shadow
    ensures a in t.acceptances && a.shadow == shadow && a.proposal == t.versions[shadow].proposal
    ensures a.proposal < |t.proposals| && a.account == t.proposals[a.proposal].account
  {
    assert Backed(t, shadow);
    a :| a in t.acceptances && a.shadow == shadow;
    assert AcceptanceSound(t, a);
  }

  lemma AcceptEffect(t: Tables, account: Id, proposal: Id, backtest: Id, actor: Id, rationale: Text, clause: Option<Id>)
    requires LifecycleSound(t)
    ensures var (u, r) := Accept(t, account, proposal, backtest, actor, rationale, clause);
            && r != Failed(UniqueViolation)
            && (r.Failed? ==> u == t)
            && (r.Done? ==> (u == t.(rules := u.rules) && t.rules <= u.rules)
                            || (u.versions != [] && u.acceptances != []
                                && NewShadow(t, u, u.versions[|u.versions| - 1], u.acceptances[|u.acceptances| - 1])))
  {
    if proposal < |t.proposals| && t.proposals[proposal].account == account
        && PassingBacktest(t, account, backtest, proposal) {
      var (rules, rule) := RuleFor(t.rules, proposal, t.proposals[proposal].ruleType);
      var row := ShadowRow(t, account, proposal, backtest, actor, rule, clause);
      var (versions, shadow) := InsertShadow(t.versions, row);
      hide RuleFor;
      if shadow.Some? {
        InsertedShadow(t.versions, row);
        hide InsertShadow;
        var a := Acceptance(account, proposal, backtest, shadow.value.id, actor, rationale);
        InsertedAcceptance(t.acceptances, a);
        hide InsertAcceptance;
        if shadow.value.created {
          NoAcceptanceYet(t, proposal);
        } else {
          var there := AcceptanceThere(t, shadow.value.id);
        }
        hide LifecycleSound;
      }
    }
  }

  lemma NewShadowKeeps(t: Tables, u: Tables, v: Version, a: Acceptance)
    requires LifecycleSound(t) && NewShadow(t, u, v, a)
    ensures LifecycleSound(u)
  {
    OldRows(t, u);
    assert HasAcceptance(u.acceptances, |t.versions|) by { assert a in u.acceptances; }
    assert Backed(u, |t.versions|);
    assert OneEach(u.versions) by {
      assert OneEach(t.versions);
      forall i | 0 <= i < |t.versions| && t.versions[i].proposal == v.proposal
          ensures t.versions[i].lifecycle != v.lifecycle {
        assert t.versions[i] in t.versions;
      }
    }
    assert OneAcceptance(u.acceptances) by {
      assert OneAcceptance(t.acceptances);
      forall i | 0 <= i < |t.acceptances| ensures t.acceptances[i].proposal != a.proposal {
        assert t.acceptances[i] in t.acceptances;
      }
    }
    hide VersionSound;
    hide AcceptanceSound;
    hide RatificationSound;
    hide Backed;
    hide OneEach;
    hide OneAcceptance;
    hide OneRatification;
    hide Grows;
  }

  lemma AcceptKeeps(e: Engine, t: Tables, account: Id, proposal: Id, backtest: Id, actor: Id, rationale: Text,
                    clause: Option<Id>)
    requires Invariant(e, t)
    ensures var (u, r) := Accept(t, account, proposal, backtest, actor, rationale, clause);
            Invariant(e, u) && Grows(t, u) && r != Failed(UniqueViolation)
  {
    AcceptEffect(t, account, proposal, backtest, actor, rationale, clause);
    var u := Accept(t, account, proposal, backtest, actor, rationale, clause).0;
    hide Accept;
    assert Grows(t, u);
    if u.versions != t.versions {
      NewShadowKeeps(t, u, u.versions[|u.versions| - 1], u.acceptances[|u.acceptances| - 1]);
    } else {
      hide VersionSound;
      hide AcceptanceSound;
      LifecycleUntouched(t, u);
    }
    hide NewShadow;
    hide LifecycleSound;
    BacktestsGrow(e, t, u);
  }

  // ---- ratification --------------------------------------------------------------------------

  /** A first ratification, seen from the tables: an ACTIVE version and its ratification, together. */
  predicate NewActive(t: Tables, u: Tables, v: Version, r: Ratification) {
    && u == t.(versions := t.versions + [v], ratifications := t.ratifications + [r])
    && v.lifecycle == Active && VersionSound(u, v) && RatificationSound(u, r) && r.active == |t.versions|
    && (forall x | x in t.versions && x.proposal == v.proposal :: x.lifecycle != Active)
    && forall x | x in t.ratifications :: x.acceptance != r.acceptance
  }

  lemma InsertedActive(versions: seq<Version>, row: Version)
    requires row.predecessor.Some? && row.lifecycle == Active && InsertActive(versions, row).1.Some?
    ensures var (more, r) := InsertActive(versions, row);
      if r.value.created then
        && more == versions + [row] && r.value.id == |versions|
        && forall x | x in versions && x.lifecycle == Active :: x.predecessor != row.predecessor
      else
        && more == versions && r.value.id < |versions| && versions[r.value.id].lifecycle == Active
        && versions[r.value.id].predecessor == row.predecessor
  {
    FirstMeaning(versions, (v: Version) => v.predecessor.Some? && v.predecessor == row.predecessor
        && v.lifecycle == Active);
    FirstMeaning(versions, (v: Version) => v.predecessor.Some? && v.predecessor == row.predecessor
        && v.lifecycle == Active && v.hardness == FirmRule
                                           && v.proposal == row.proposal && v.backtest == row.backtest
                                               && v.ratified == row.ratified);
    hide First;
  }

  lemma InsertedRatification(rows: seq<Ratification>, row: Ratification)
    ensures var (more, r) := InsertRatification(rows, row);
      && ((exists x | x in rows :: x.account == row.account && x.acceptance == row.acceptance)
          ==> more == rows && (r.Some? ==> !r.value.created))
      && ((forall x | x in rows :: x.account != row.account || x.acceptance != row.acceptance)
          ==> more == rows + [row] && r == Some(Inserted(|rows|, true)))
  {
    var conflicts := (r: Ratification) => r.account == row.account && r.acceptance == row.acceptance;
    var same := (r: Ratification) => r.account == row.account && r.acceptance == row.acceptance
        && r.active == row.active
                                     && r.ratifiedBy == row.ratifiedBy && r.rationale == row.rationale;
    FirstMeaning(rows, conflicts);
    FirstMeaning(rows, same);
    hide First;
  }

  lemma SameShadow(versions: seq<Version>, i: nat, j: nat)
    requires OneEach(versions) && i < |versions| && j < |versions| && versions[i].lifecycle == versions[j].lifecycle
        && versions[i].proposal == versions[j].proposal
    ensures i == j
  {
  }

  /** While a SHADOW version has no successor, its proposal has no ACTIVE version and its acceptance no ratification. */
  lemma NoRatificationYet(t: Tables, shadow: Id)
    requires LifecycleSound(t) && shadow < |t.versions| && t.versions[shadow].lifecycle == Shadow
    requires forall x | x in t.versions && x.lifecycle == Active :: x.predecessor != Some(shadow)
    ensures forall x | x in t.versions && x.proposal == t.versions[shadow].proposal :: x.lifecycle != Active
    ensures forall r | r in t.ratifications :: r.shadow != shadow && r.active < |t.versions|
  {
    forall x | x in t.versions && x.proposal == t.versions[shadow].proposal ensures x.lifecycle != Active {
      assert VersionSound(t, x);
      if x.lifecycle == Active { SameShadow(t.versions, x.predecessor.value, shadow); }
    }
    forall r | r in t.ratifications ensures r.shadow != shadow && r.active < |t.versions| {
      assert RatificationSound(t, r);
      assert t.versions[r.active] in t.versions;
    }
  }

  /** Once it has one, its acceptance is ratified. */
  lemma RatificationThere(t: Tables, active: Id, acceptance: Id) returns (r: Ratification)
    requires LifecycleSound(t) && active < |t.versions| && t.versions[active].lifecycle == Active
    requires acceptance < |t.acceptances| && t.versions[active].predecessor == Some(t.acceptances[acceptance].shadow)
    ensures r in t.ratifications && r.active == active && r.acceptance == acceptance
        && r.account == t.acceptances[acceptance].account
  {
    assert Backed(t, active);
    r :| r in t.ratifications && r.active == active;
    assert RatificationSound(t, r);
    assert AcceptanceSound(t, t.acceptances[acceptance]) && AcceptanceSound(t, t.acceptances[r.acceptance]);
  }

  lemma RatifyEffect(t: Tables, account: Id, acceptance: Id, actor: Id, rationale: Text)
    requires LifecycleSound(t)
    ensures var (u, r) := Ratify(t, account, acceptance, actor, rationale);
            && r != Failed(UniqueViolation)
            && (r.Failed? ==> u == t)
            && (r.Done? ==> u == t || (u.versions != [] && u.ratifications != []
                                       && NewActive(t, u, u.versions[|u.versions| - 1],
                                                    u.ratifications[|u.ratifications| - 1])))
  {
    if Ratifiable(t, account, acceptance) {
      var a := t.acceptances[acceptance];
      var row := ActiveRow(t, a, actor, rationale);
      var (versions, active) := InsertActive(t.versions, row);
      assert VersionSound(t, t.versions[a.shadow]);
      if active.Some? {
        InsertedActive(t.versions, row);
        hide InsertActive;
        InsertedRatification(t.ratifications,
                             Ratification(account, acceptance, a.proposal, a.backtest, a.shadow, active.value.id, actor,
                                          rationale));
        hide InsertRatification;
        if active.value.created {
          NoRatificationYet(t, a.shadow);
          assert forall r | r in t.ratifications :: RatificationSound(t, r);
        } else {
          var there := RatificationThere(t, active.value.id, acceptance);
        }
        hide LifecycleSound;
      }
    }
  }

  lemma NewActiveKeeps(t: Tables, u: Tables, v: Version, r: Ratification)
    requires LifecycleSound(t) && NewActive(t, u, v, r)
    ensures LifecycleSound(u)
  {
    OldRows(t, u);
    assert HasRatification(u.ratifications, |t.versions|) by { assert r in u.ratifications; }
    assert Backed(u, |t.versions|);
    assert OneEach(u.versions) by {
      assert OneEach(t.versions);
      forall i | 0 <= i < |t.versions| && t.versions[i].proposal == v.proposal
          ensures t.versions[i].lifecycle != v.lifecycle {
        assert t.versions[i] in t.versions;
      }
    }
    assert OneRatification(u.ratifications) by {
      assert OneRatification(t.ratifications);
      forall i | 0 <= i < |t.ratifications| ensures t.ratifications[i].acceptance != r.acceptance {
        assert t.ratifications[i] in t.ratifications;
      }
    }
    hide VersionSound;
    hide AcceptanceSound;
    hide RatificationSound;
    hide Backed;
    hide OneEach;
    hide OneAcceptance;
    hide OneRatification;
    hide Grows;
  }

  lemma RatifyKeeps(e: Engine, t: Tables, account: Id, acceptance: Id, actor: Id, rationale: Text)
    requires Invariant(e, t)
    ensures var (u, r) := Ratify(t, account, acceptance, actor, rationale);
            Invariant(e, u) && Grows(t, u) && r != Failed(UniqueViolation)
  {
    RatifyEffect(t, account, acceptance, actor, rationale);
    var u := Ratify(t, account, acceptance, actor, rationale).0;
    hide Ratify;
    assert Grows(t, u);
    if u != t {
      NewActiveKeeps(t, u, u.versions[|u.versions| - 1], u.ratifications[|u.ratifications| - 1]);
      hide NewActive;
      hide LifecycleSound;
      BacktestsGrow(e, t, u);
    }
  }

  // ---- every run -----------------------------------------------------------------------------

  lemma StepKeeps(e: Engine, t: Tables, op: Op)
    requires Invariant(e, t)
    ensures Invariant(e, After(e, t, op)) && Grows(t, After(e, t, op))
  {
    hide Accept;
    hide Ratify;
    hide BacktestProposals;
    hide BacktestsSound;
    hide LifecycleSound;
    match op
    case Persist(p) =>
      var u := After(e, t, op);
      BacktestsGrow(e, t, u);
      LifecycleUntouched(t, u);
    case RunBacktest(account, version, actor, supplied) => BacktestKeeps(e, t, account, version, actor, supplied);
    case RunAccept(account, proposal, backtest, actor, rationale, clause) =>
      AcceptKeeps(e, t, account, proposal, backtest, actor, rationale, clause);
    case RunRatify(account, acceptance, actor, rationale) => RatifyKeeps(e, t, account, acceptance, actor, rationale);
  }

  lemma {:induction false} RunKeeps(e: Engine, states: seq<Tables>, ops: seq<Op>, i: nat)
    requires Run(e, states, ops) && i < |states|
    ensures Invariant(e, states[i])
    decreases i
  {
    if i > 0 {
      var j := i - 1;
      RunKeeps(e, states, ops, j);
      assert states[j + 1] == After(e, states[j], ops[j]);
      StepKeeps(e, states[j], ops[j]);
    }
  }

  lemma GrowsTwice(t: Tables, u: Tables, v: Tables)
    requires Grows(t, u) && Grows(u, v)
    ensures Grows(t, v)
  {
  }

  lemma {:induction false} RunGrows(e: Engine, states: seq<Tables>, ops: seq<Op>, i: nat, k: nat)
    requires Run(e, states, ops) && i <= k < |states|
    ensures Grows(states[i], states[k])
    decreases k
  {
    if i < k {
      var j := k - 1;
      RunGrows(e, states, ops, i, j);
      RunKeeps(e, states, ops, j);
      assert states[j + 1] == After(e, states[j], ops[j]);
      StepKeeps(e, states[j], ops[j]);
      GrowsTwice(states[i], states[j], states[k]);
    }
  }

  /** What stands behind an ACTIVE version: the SHADOW version it succeeds with the same rule and predicate, the one
      acceptance of that, the one ratification of the acceptance, and a passed backtest of exactly this predicate. */
  ghost predicate Earned(e: Engine, t: Tables, i: nat, shadow: nat, acceptance: nat, ratification: nat)
    requires i < |t.versions|
  {
    var v := t.versions[i];
    && shadow < |t.versions| && v.predecessor == Some(shadow) && t.versions[shadow].lifecycle == Shadow
    && t.versions[shadow].rule == v.rule && t.versions[shadow].ast == v.ast
    && (forall k: nat | k < |t.versions| && t.versions[k].proposal == v.proposal :: k == i || k == shadow)
    && acceptance < |t.acceptances|
        && (forall k: nat | k < |t.acceptances| :: t.acceptances[k].shadow == shadow <==> k == acceptance)
    && ratification < |t.ratifications|
        && (forall k: nat | k < |t.ratifications| :: t.ratifications[k].active == i <==> k == ratification)
    && t.ratifications[ratification].acceptance == acceptance
    && t.acceptances[acceptance].backtest == v.backtest && t.ratifications[ratification].backtest == v.backtest
    && BacktestMet(e, t, v)
  }

  /** The backtest of a version: passed, on the predicate of the version, with at least one case; and in every case the
      interpreter's verdict on that predicate is the expected one. */
  ghost predicate BacktestMet(e: Engine, t: Tables, v: Version) {
    && v.backtest < |t.backtests| && t.backtests[v.backtest].passed
        && t.backtests[v.backtest].astHash == e.astHash(v.ast)
    && HasCase(t.cases, v.backtest)
    && forall c | c in t.cases && c.backtest == v.backtest :: e.interpret(v.ast, c.facts) == c.actual == c.expected
  }

  lemma BacktestOfVersion(e: Engine, t: Tables, v: Version)
    requires BacktestsSound(e, t) && VersionSound(t, v)
    ensures BacktestMet(e, t, v)
  {
    assert t.backtests[v.backtest] in t.backtests;
    assert BacktestSound(e, t, t.backtests[v.backtest]);
    forall c | c in t.cases && c.backtest == v.backtest ensures e.interpret(v.ast, c.facts) == c.actual == c.expected {
      assert CaseSound(e, t, c);
    }
  }

  /** In every reachable state every ACTIVE version is earned. */
  lemma ActiveVersionsEarned(e: Engine, states: seq<Tables>, ops: seq<Op>, n: nat, i: nat)
    requires Run(e, states, ops) && n < |states| && i < |states[n].versions|
        && states[n].versions[i].lifecycle == Active
    ensures exists shadow, acceptance, ratification :: Earned(e, states[n], i, shadow, acceptance, ratification)
  {
    RunKeeps(e, states, ops, n);
    var t := states[n];
    var v := t.versions[i];
    assert v in t.versions && VersionSound(t, v);
    BacktestOfVersion(e, t, v);
    var shadow := v.predecessor.value;
    assert t.versions[shadow] in t.versions && VersionSound(t, t.versions[shadow]);
    assert Backed(t, i);
    var r :| r in t.ratifications && r.active == i;
    var ratification :| 0 <= ratification < |t.ratifications| && t.ratifications[ratification] == r;
    assert RatificationSound(t, r);
    var acceptance := r.acceptance;
    forall k: nat | k < |t.acceptances| ensures t.acceptances[k].shadow == shadow <==> k == acceptance {
      assert AcceptanceSound(t, t.acceptances[k]) && AcceptanceSound(t, t.acceptances[acceptance]);
    }
    forall k: nat | k < |t.ratifications| ensures t.ratifications[k].active == i <==> k == ratification {
      assert RatificationSound(t, t.ratifications[k]);
      assert AcceptanceSound(t, t.acceptances[t.ratifications[k].acceptance]);
      assert AcceptanceSound(t, t.acceptances[acceptance]);
    }
    forall k: nat | k < |t.versions| && t.versions[k].proposal == v.proposal ensures k == i || k == shadow {
      if t.versions[k].lifecycle == Active { SameShadow(t.versions, k, i); } else { SameShadow(t.versions, k, shadow); }
    }
    assert t.acceptances[acceptance] in t.acceptances && AcceptanceSound(t, t.acceptances[acceptance]);
    assert t.ratifications[ratification] == r && r.shadow == shadow && t.acceptances[acceptance].shadow == shadow;
    hide BacktestMet;
    hide VersionSound;
    hide LifecycleSound;
    hide BacktestsSound;
    assert Earned(e, t, i, shadow, acceptance, ratification);
  }

  // ---- repeated calls ------------------------------------------------------------------------

  /** A repeated acceptance, at any later time, finds what it made and changes nothing. */
  lemma AcceptAgain(t: Tables, later: Tables, account: Id, proposal: Id, backtest: Id, actor: Id, rationale: Text,
                    clause: Option<Id>, laterClause: Option<Id>)
    requires Accept(t, account, proposal, backtest, actor, rationale, clause).1.Done?
    requires Grows(Accept(t, account, proposal, backtest, actor, rationale, clause).0, later)
    ensures Accept(later, account, proposal, backtest, actor, rationale, laterClause)
         == (later, Done(Accept(t, account, proposal, backtest, actor, rationale, clause).1.value.(created := false)))
  {
    var (rules, rule) := RuleFor(t.rules, proposal, t.proposals[proposal].ruleType);
    RuleAgain(t.rules, later.rules, proposal, t.proposals[proposal].ruleType);
    var row := ShadowRow(t, account, proposal, backtest, actor, rule, clause);
    ShadowAgain(t.versions, later.versions, row, laterClause);
    var shadow := InsertShadow(t.versions, row).1.value.id;
    AcceptanceAgain(t.acceptances, later.acceptances,
                    Acceptance(account, proposal, backtest, shadow, actor, rationale));
    assert later.proposals[proposal] == t.proposals[proposal] && later.backtests[backtest] == t.backtests[backtest];
    assert rules[rule] == later.rules[rule];
    hide RuleFor;
    hide InsertShadow;
    hide InsertAcceptance;
  }

  lemma RuleAgain(rules: seq<Rule>, later: seq<Rule>, proposal: Id, ruleType: Text)
    requires RuleFor(rules, proposal, ruleType).0 <= later
    ensures RuleFor(later, proposal, ruleType) == (later, RuleFor(rules, proposal, ruleType).1)
  {
    var slug := (r: Rule) => r.slug == proposal;
    var (u, i) := RuleFor(rules, proposal, ruleType);
    FirstMeaning(rules, slug);
    FirstMeaning(u, slug);
    assert u[i] in u;
    if First(rules, slug) == -1 {
      forall k | 0 <= k < |rules| ensures !slug(u[k]) { assert u[k] == rules[k] && rules[k] in rules; }
    }
    assert First(u, slug) == i;
    FirstInPrefix(u, later, slug);
  }

  lemma ShadowAgain(versions: seq<Version>, later: seq<Version>, row: Version, clause: Option<Id>)
    requires row.lifecycle == Shadow && InsertShadow(versions, row).1.Some? && InsertShadow(versions, row).0 <= later
    ensures InsertShadow(later, row.(clause := clause))
        == (later, Some(Inserted(InsertShadow(versions, row).1.value.id, false)))
  {
    InsertAgain(versions, later, row, (v: Version) => v.proposal == row.proposal && v.lifecycle == Shadow,
                (v: Version) => v.proposal == row.proposal && v.rule == row.rule && v.lifecycle == Shadow
                    && v.astHash == row.astHash
                                && v.backtest == row.backtest && v.provenance == row.provenance);
    hide First;
  }

  lemma AcceptanceAgain(rows: seq<Acceptance>, later: seq<Acceptance>, row: Acceptance)
    requires InsertAcceptance(rows, row).1.Some? && InsertAcceptance(rows, row).0 <= later
    ensures InsertAcceptance(later, row) == (later, Some(Inserted(InsertAcceptance(rows, row).1.value.id, false)))
  {
    InsertAgain(rows, later, row, (a: Acceptance) => a.account == row.account && a.proposal == row.proposal,
                (a: Acceptance) => a == row);
  }

  /** A repeated ratification, at any later time, finds what it made and changes nothing. */
  lemma RatifyAgain(t: Tables, later: Tables, account: Id, acceptance: Id, actor: Id, rationale: Text)
    requires Ratify(t, account, acceptance, actor, rationale).1.Done?
    requires Grows(Ratify(t, account, acceptance, actor, rationale).0, later)
    ensures Ratify(later, account, acceptance, actor, rationale)
         == (later, Done(Ratify(t, account, acceptance, actor, rationale).1.value.(created := false)))
  {
    var a := t.acceptances[acceptance];
    var row := ActiveRow(t, a, actor, rationale);
    InsertAgain(t.versions, later.versions, row, (v: Version) => v.predecessor.Some? && v.predecessor == row.predecessor
        && v.lifecycle == Active,
                (v: Version) => v.predecessor.Some? && v.predecessor == row.predecessor && v.lifecycle == Active
                    && v.hardness == FirmRule
                                && v.proposal == row.proposal && v.backtest == row.backtest
                                    && v.ratified == row.ratified);
    var active := InsertActive(t.versions, row).1.value.id;
    var r := Ratification(account, acceptance, a.proposal, a.backtest, a.shadow, active, actor, rationale);
    RatificationAgain(t.ratifications, later.ratifications, r);
    assert later.acceptances[acceptance] == a && later.backtests[a.backtest] == t.backtests[a.backtest];
    assert later.versions[a.shadow] == t.versions[a.shadow];
    assert ActiveRow(later, a, actor, rationale) == row;
    hide First;
    hide InsertRatification;
  }

  lemma RatificationAgain(rows: seq<Ratification>, later: seq<Ratification>, row: Ratification)
    requires InsertRatification(rows, row).1.Some? && InsertRatification(rows, row).0 <= later
    ensures InsertRatification(later, row) == (later, Some(Inserted(InsertRatification(rows, row).1.value.id, false)))
  {
    InsertAgain(rows, later, row, (r: Ratification) => r.account == row.account && r.acceptance == row.acceptance,
                (r: Ratification) => r.account == row.account && r.acceptance == row.acceptance
                    && r.active == row.active
                                     && r.ratifiedBy == row.ratifiedBy && r.rationale == row.rationale);
  }

  /** A repeated backtest of one proposal, at any later time, finds its row and its cases and changes nothing. */
  lemma BacktestOneAgain(e: Engine, t: Tables, later: Tables, account: Id, actor: Id, proposal: Id, cases: seq<Case>)
    requires proposal < |t.proposals| && BacktestOne(e, t, account, actor, proposal, cases).1.Done?
    requires Grows(BacktestOne(e, t, account, actor, proposal, cases).0, later)
    ensures proposal < |later.proposals|
    ensures BacktestOne(e, later, account, actor, proposal, cases)
         == (later, Done(BacktestOne(e, t, account, actor, proposal, cases).1.value.(created := false)))
  {
    var p := t.proposals[proposal];
    var row := BacktestRow(e, t, account, actor, proposal, cases);
    assert later.proposals[proposal] == p;
    assert BacktestRow(e, later, account, actor, proposal, cases) == row;
    InsertAgain(t.backtests, later.backtests, row,
                (b: Backtest) => b.account == row.account && b.proposal == row.proposal
                    && b.corpusHash == row.corpusHash, (b: Backtest) => b == row);
    CasesAgain(t.cases, later.cases, account, InsertBacktest(t.backtests, row).1.value.id, EvidenceOf(e, p, cases));
    hide First;
    hide BacktestRow;
    hide InsertCases;
    hide EvidenceOf;
    hide CorpusError;
  }

  lemma {:induction false} CasesAgain(cases: seq<CaseRow>, later: seq<CaseRow>, account: Id, backtest: Id,
                                      evidence: seq<Evidence>)
    requires InsertCases(cases, account, backtest, evidence).Some?
        && InsertCases(cases, account, backtest, evidence).value <= later
    ensures InsertCases(later, account, backtest, evidence) == Some(later)
    decreases |evidence|
  {
    if evidence != [] {
      var n := |evidence| - 1;
      var before := InsertCases(cases, account, backtest, evidence[..n]).value;
      var row := CaseRowOf(account, backtest, evidence[n]);
      InsertedCases(cases, account, backtest, evidence[..n]);
      FirstMeaning(before, (r: CaseRow) => r.account == row.account && r.backtest == row.backtest && r.key == row.key);
      FirstMeaning(before, (r: CaseRow) => r == row);
      CasesAgain(cases, later, account, backtest, evidence[..n]);
      InsertAgain(before, later, row, (r: CaseRow) => r.account == row.account && r.backtest == row.backtest
          && r.key == row.key, (r: CaseRow) => r == row);
      hide First;
    }
  }

  function NoneCreated(rs: seq<Inserted>): seq<Inserted> {
    seq(|rs|, i requires 0 <= i < |rs| => rs[i].(created := false))
  }

  lemma {:induction false} EachAgain(e: Engine, t: Tables, later: Tables, account: Id, actor: Id, ids: seq<Id>,
                                     supplied: seq<(Id, seq<Case>)>)
    requires BacktestsSound(e, t) && forall i | i in ids :: i < |t.proposals| && SuppliedFor(supplied, i) != []
    requires BacktestEach(e, t, account, actor, ids, supplied).1.Done?
    requires Grows(BacktestEach(e, t, account, actor, ids, supplied).0, later)
    ensures forall i | i in ids :: i < |later.proposals|
    ensures BacktestEach(e, later, account, actor, ids, supplied)
         == (later, Done(NoneCreated(BacktestEach(e, t, account, actor, ids, supplied).1.value)))
    decreases |ids|
  {
    hide BacktestOne;
    hide BacktestsSound;
    assert |t.proposals| <= |later.proposals|;
    if ids != [] {
      var n := |ids| - 1;
      assert ids[n] in ids && forall i | i in ids[..n] :: i in ids;
      var (u, before) := BacktestEach(e, t, account, actor, ids[..n], supplied);
      var (v, one) := BacktestOne(e, u, account, actor, ids[n], SuppliedFor(supplied, ids[n]));
      BacktestEachKeeps(e, t, account, actor, ids[..n], supplied);
      BacktestOneKeeps(e, u, account, actor, ids[n], SuppliedFor(supplied, ids[n]));
      GrowsTwice(u, v, later);
      EachAgain(e, t, later, account, actor, ids[..n], supplied);
      BacktestOneAgain(e, u, later, account, actor, ids[n], SuppliedFor(supplied, ids[n]));
      assert NoneCreated(before.value + [one.value]) == NoneCreated(before.value) + [one.value.(created := false)];
    } else {
      assert NoneCreated([]) == [];
    }
  }

  /** A repeated backtest, at any later time, changes nothing: it finds all its rows exactly as long as the contract
      version has no further proposals, and is refused once it has. */
  lemma BacktestAgain(e: Engine, t: Tables, later: Tables, account: Id, contractVersion: Id, actor: Id,
                      supplied: seq<(Id, seq<Case>)>)
    requires Invariant(e, t) && BacktestProposals(e, t, account, contractVersion, actor, supplied).1.Done?
    requires Grows(BacktestProposals(e, t, account, contractVersion, actor, supplied).0, later)
    ensures BacktestProposals(e, later, account, contractVersion, actor, supplied)
         == (later, if ProposalsOf(later.proposals, account, contractVersion)
                       == ProposalsOf(t.proposals, account, contractVersion)
                    then Done(NoneCreated(BacktestProposals(e, t, account, contractVersion, actor, supplied).1.value))
                    else Failed(ProposalSetMismatch))
  {
    var ids := ProposalsOf(t.proposals, account, contractVersion);
    BacktestEachKeeps(e, t, account, actor, ids, supplied);
    EachAgain(e, t, later, account, actor, ids, supplied);
    MoreProposals(t.proposals, later.proposals, account, contractVersion);
    hide BacktestEach;
    hide Invariant;
    hide BacktestsSound;
    var now := ProposalsOf(later.proposals, account, contractVersion);
    assert BacktestError(t, account, contractVersion, supplied) == None;
    if now == ids {
      assert BacktestError(later, account, contractVersion, supplied) == None;
    } else {
      assert |now| > |ids| == |supplied|;
      assert BacktestError(later, account, contractVersion, supplied) == Some(ProposalSetMismatch);
    }
    hide SuppliedFor;
    hide BacktestError;
    var before := BacktestProposals(e, t, account, contractVersion, actor, supplied);
    assert before == BacktestEach(e, t, account, actor, ids, supplied);
    if now == ids {
      var again := BacktestEach(e, later, account, actor, now, supplied);
      assert again == (later, Done(NoneCreated(before.1.value)));
      assert BacktestProposals(e, later, account, contractVersion, actor, supplied) == again;
    } else {
      assert BacktestProposals(e, later, account, contractVersion, actor, supplied)
          == (later, Failed(ProposalSetMismatch));
    }
  }

  lemma {:induction false} MoreProposals(proposals: seq<Proposal>, later: seq<Proposal>, account: Id,
                                         contractVersion: Id)
    requires proposals <= later
    ensures ProposalsOf(proposals, account, contractVersion) <= ProposalsOf(later, account, contractVersion)
    decreases |later|
  {
    if |proposals| < |later| {
      MoreProposals(proposals, later[..|later| - 1], account, contractVersion);
    } else {
      assert proposals == later;
    }
  }
}
