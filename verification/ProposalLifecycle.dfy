/** From a proposed rule to an active one. */
module ProposalLifecycle {
  import opened CanonicalJson
  import opened ProposedCriteria
  import opened Sorting
  import opened Sums
  import opened Texts

  // Backtest, acceptance into SHADOW, ratification to ACTIVE:
  // src/modules/contracts/backtest-contract-rule-proposals.ts, accept-contract-rule-proposal.ts and
  // ratify-contract-rule-proposal.ts, over the insert-or-return primitive of src/db/insert-idempotent.ts. All tables
  // are append-only; a row id is its position.

  type Id = nat
  type Facts = map<Text, Value>

  datatype Verdict = Pass | Fail | Unassessable

  /** The interpreter, the digests of predicates and corpora, and the order of `localeCompare`. */
  datatype Engine = Engine(interpret: (Ast, Facts) -> Verdict, astHash: Ast -> Text,
                           corpusHash: (Text, Text, seq<(Text, Facts, Verdict)>) -> Text,
                               keyOrder: (Text, Text) -> bool)

  datatype Proposal = Proposal(account: Id, contractVersion: Id, ruleType: Text, ast: Ast, astHash: Text,
                               expectedInputs: seq<Text>, proposalHash: Text)

  datatype Backtest = Backtest(account: Id, proposal: Id, corpusHash: Text, proposalHash: Text, astHash: Text,
                               passed: bool,
                               passCount: nat, regressionCount: nat, actor: Id)

  datatype CaseRow = CaseRow(account: Id, backtest: Id, key: Text, facts: Facts, expected: Verdict, actual: Verdict,
                             passed: bool)

  /** A rule; `slug` names the proposal it is made for. */
  datatype Rule = Rule(slug: Id, ruleType: Text)

  datatype Lifecycle = Shadow | Active
  datatype Hardness = AiDocs | FirmRule

  datatype Provenance = Provenance(account: Id, proposal: Id, proposalHash: Text, backtest: Id, contractVersion: Id,
                                   acceptedBy: Id)

  datatype Ratified = Ratified(user: Id, rationale: Text)

  datatype Version = Version(rule: Id, hardness: Hardness, lifecycle: Lifecycle, ast: Ast, astHash: Text,
                             expectedInputs: seq<Text>,
                             provenance: Provenance, clause: Option<Id>, predecessor: Option<Id>, proposal: Id,
                                 backtest: Id, ratified: Option<Ratified>)

  datatype Acceptance = Acceptance(account: Id, proposal: Id, backtest: Id, shadow: Id, acceptedBy: Id, rationale: Text)

  datatype Ratification = Ratification(account: Id, acceptance: Id, proposal: Id, backtest: Id, shadow: Id, active: Id,
                                       ratifiedBy: Id, rationale: Text)

  datatype Tables = Tables(proposals: seq<Proposal>, backtests: seq<Backtest>, cases: seq<CaseRow>, rules: seq<Rule>,
                           versions: seq<Version>, acceptances: seq<Acceptance>, ratifications: seq<Ratification>)

  datatype Error =
    | DuplicateProposal | ProposalSetMismatch | ProposalChanged | DuplicateCase | UnexpectedFact | PartialConflict
    | ProposalNotFound | PassingBacktestRequired | RuleConflict | AcceptanceConflict
    | AcceptanceNotFound | RatificationConflict | UniqueViolation | InvalidInput

  datatype Reply<+T> = Done(value: T) | Failed(error: Error)

  // ---- insert or return what is there --------------------------------------------------------

  function First<T>(table: seq<T>, p: T -> bool): int {
    if table == [] then -1
    else
      var n := |table| - 1;
      var i := First(table[..n], p);
      if i >= 0 then i else if p(table[n]) then n else -1
  }

  lemma {:induction false} FirstMeaning<T>(table: seq<T>, p: T -> bool)
    ensures -1 <= First(table, p) < |table|
    ensures First(table, p) >= 0 ==> p(table[First(table, p)]) && forall i | 0 <= i < First(table, p) :: !p(table[i])
    ensures First(table, p) == -1 ==> forall x | x in table :: !p(x)
    decreases |table|
  {
    if table != [] {
      var n := |table| - 1;
      FirstMeaning(table[..n], p);
      assert forall i | 0 <= i < n :: table[..n][i] == table[i];
    }
  }

  datatype Inserted = Inserted(id: Id, created: bool)

  /** `insertIdempotent`: insert unless a row is in conflict; then the first row that carries the same evidence. */
  function Insert<T>(table: seq<T>, row: T, conflicts: T -> bool, same: T -> bool): (seq<T>, Option<Inserted>) {
    FirstMeaning(table, conflicts);
    FirstMeaning(table, same);
    if First(table, conflicts) == -1 then (table + [row], Some(Inserted(|table|, true)))
    else if First(table, same) >= 0 then (table, Some(Inserted(First(table, same), false)))
    else (table, None)
  }

  lemma FirstInPrefix<T>(table: seq<T>, more: seq<T>, p: T -> bool)
    requires table <= more && First(table, p) >= 0
    ensures First(more, p) == First(table, p)
  {
    FirstMeaning(table, p);
    FirstMeaning(more, p);
    var i, j := First(table, p), First(more, p);
    assert more[i] == table[i] && more[i] in more;
    assert j >= 0;
    assert j < |table| ==> more[j] == table[j];
  }

  /** A repeated insert finds its own row, however much the table has grown, and adds nothing. */
  lemma InsertAgain<T>(table: seq<T>, later: seq<T>, row: T, conflicts: T -> bool, same: T -> bool)
    requires Insert(table, row, conflicts, same).1.Some? && Insert(table, row, conflicts, same).0 <= later
    requires same(row) && forall x :: same(x) ==> conflicts(x)
    ensures Insert(later, row, conflicts, same)
        == (later, Some(Inserted(Insert(table, row, conflicts, same).1.value.id, false)))
  {
    var (u, r) := Insert(table, row, conflicts, same);
    FirstMeaning(table, conflicts);
    FirstMeaning(table, same);
    FirstMeaning(u, same);
    FirstMeaning(u, conflicts);
    if r.value.created {
      var n := |table|;
      assert u[n] == row && row in u;
      forall i | 0 <= i < n ensures !same(u[i]) { assert u[i] == table[i] && table[i] in table; }
      assert First(u, same) == n;
    }
    FirstInPrefix(u, later, same);
    FirstInPrefix(u, later, conflicts);
  }

  // ---- backtest ------------------------------------------------------------------------------

  datatype Case = Case(key: Text, facts: Facts, expected: Verdict)

  datatype Evidence = Evidence(key: Text, facts: Facts, expected: Verdict, actual: Verdict, passed: bool)

  function Evaluated(e: Engine, ast: Ast, c: Case): Evidence {
    var actual := e.interpret(ast, c.facts);
    Evidence(c.key, c.facts, c.expected, actual, actual == c.expected)
  }

  predicate UnexpectedFacts(p: Proposal, c: Case) { exists k | k in c.facts.Keys :: k !in p.expectedInputs }

  function CorpusError(p: Proposal, cases: seq<Case>): Option<Error> {
    if exists i, j | 0 <= i < j < |cases| :: cases[i].key == cases[j].key then Some(DuplicateCase)
    else if exists c | c in cases :: UnexpectedFacts(p, c) then Some(UnexpectedFact)
    else None
  }

  function EvidenceOf(e: Engine, p: Proposal, cases: seq<Case>): seq<Evidence> {
    var sorted := SortBy((a: Case, b: Case) => e.keyOrder(a.key, b.key), cases);
    seq(|sorted|, i requires 0 <= i < |sorted| => Evaluated(e, p.ast, sorted[i]))
  }

  function Regressions(evidence: seq<Evidence>): (n: nat)
    ensures n <= |evidence|
    ensures n == 0 <==> forall x | x in evidence :: x.passed
  {
    if evidence == [] then 0
    else
      var n := |evidence| - 1;
      assert forall x :: x in evidence <==> x == evidence[n] || x in evidence[..n];
      Regressions(evidence[..n]) + if evidence[n].passed then 0 else 1
  }

  function CorpusHash(e: Engine, p: Proposal, evidence: seq<Evidence>): Text {
    e.corpusHash(p.proposalHash, p.astHash,
                 seq(|evidence|, i requires 0 <= i < |evidence| => (evidence[i].key, evidence[i].facts,
                                                                    evidence[i].expected)))
  }

  function CaseRowOf(account: Id, backtest: Id, x: Evidence): CaseRow {
    CaseRow(account, backtest, x.key, x.facts, x.expected, x.actual, x.passed)
  }

  function InsertCase(cases: seq<CaseRow>, row: CaseRow): (seq<CaseRow>, Option<Inserted>) {
    Insert(cases, row, (r: CaseRow) => r.account == row.account && r.backtest == row.backtest && r.key == row.key,
           (r: CaseRow) => r == row)
  }

  /** The rows after the evidence was inserted; none on a conflict. */
  function InsertCases(cases: seq<CaseRow>, account: Id, backtest: Id, evidence: seq<Evidence>): Option<seq<CaseRow>> {
    if evidence == [] then Some(cases)
    else
      var n := |evidence| - 1;
      var before := InsertCases(cases, account, backtest, evidence[..n]);
      if before == None then None
      else
        var (more, r) := InsertCase(before.value, CaseRowOf(account, backtest, evidence[n]));
        if r == None then None else Some(more)
  }

  function BacktestRow(e: Engine, t: Tables, account: Id, actor: Id, proposal: Id, cases: seq<Case>): Backtest
    requires proposal < |t.proposals|
  {
    var p := t.proposals[proposal];
    var evidence := EvidenceOf(e, p, cases);
    Backtest(account, proposal, CorpusHash(e, p, evidence), p.proposalHash, p.astHash, Regressions(evidence) == 0,
             |evidence| - Regressions(evidence), Regressions(evidence), actor)
  }

  function InsertBacktest(backtests: seq<Backtest>, row: Backtest): (seq<Backtest>, Option<Inserted>) {
    Insert(backtests, row, (b: Backtest) => b.account == row.account && b.proposal == row.proposal
        && b.corpusHash == row.corpusHash,
           (b: Backtest) => b == row)
  }

  /** One turn of the loop over the proposals. */
  function BacktestOne(e: Engine, t: Tables, account: Id, actor: Id, proposal: Id, cases: seq<Case>): (Tables,
      Reply<Inserted>)
    requires proposal < |t.proposals|
  {
    var p := t.proposals[proposal];
    if e.astHash(p.ast) != p.astHash then (t, Failed(ProposalChanged))
    else if CorpusError(p, cases) != None then (t, Failed(CorpusError(p, cases).value))
    else
      var (backtests, inserted) := InsertBacktest(t.backtests, BacktestRow(e, t, account, actor, proposal, cases));
      if inserted == None then (t, Failed(PartialConflict))
      else
        var rows := InsertCases(t.cases, account, inserted.value.id, EvidenceOf(e, p, cases));
        if rows == None then (t, Failed(PartialConflict))
        else (t.(backtests := backtests, cases := rows.value), Done(inserted.value))
  }

  function SuppliedFor(supplied: seq<(Id, seq<Case>)>, proposal: Id): seq<Case> {
    if supplied == [] then []
    else if supplied[0].0 == proposal then supplied[0].1
    else SuppliedFor(supplied[1..], proposal)
  }

  /** The proposals of one contract version, in id order. */
  function ProposalsOf(proposals: seq<Proposal>, account: Id, contractVersion: Id): (ids: seq<Id>)
    ensures forall i | i in ids ::
              i < |proposals| && proposals[i].account == account && proposals[i].contractVersion == contractVersion
  {
    if proposals == [] then []
    else
      var n := |proposals| - 1;
      var ids := ProposalsOf(proposals[..n], account, contractVersion);
      if proposals[n].account == account && proposals[n].contractVersion == contractVersion then ids + [n] else ids
  }

  function BacktestEach(e: Engine, t: Tables, account: Id, actor: Id, ids: seq<Id>,
                        supplied: seq<(Id, seq<Case>)>): (r: (Tables, Reply<seq<Inserted>>))
    requires forall i | i in ids :: i < |t.proposals|
    ensures r.0.proposals == t.proposals
  {
    if ids == [] then (t, Done([]))
    else
      var n := |ids| - 1;
      assert ids[n] in ids && forall i | i in ids[..n] :: i in ids;
      var (u, before) := BacktestEach(e, t, account, actor, ids[..n], supplied);
      if before.Failed? then (u, before)
      else
        var (v, one) := BacktestOne(e, u, account, actor, ids[n], SuppliedFor(supplied, ids[n]));
        if one.Failed? then (u, Failed(one.error)) else (v, Done(before.value + [one.value]))
  }

  function BacktestError(t: Tables, account: Id, contractVersion: Id, supplied: seq<(Id, seq<Case>)>): Option<Error> {
    var ids := ProposalsOf(t.proposals, account, contractVersion);
    if supplied == [] || exists x | x in supplied :: x.1 == [] then Some(InvalidInput)
    else if exists i, j | 0 <= i < j < |supplied| :: supplied[i].0 == supplied[j].0 then Some(DuplicateProposal)
    else if |ids| != |supplied| || exists i | i in ids :: SuppliedFor(supplied, i) == [] then Some(ProposalSetMismatch)
    else None
  }

  /** `backtestContractRuleProposals`: all proposals of the version, or nothing. */
  function BacktestProposals(e: Engine, t: Tables, account: Id, contractVersion: Id, actor: Id,
                             supplied: seq<(Id, seq<Case>)>)
    : (Tables, Reply<seq<Inserted>>)
  {
    if BacktestError(t, account, contractVersion, supplied) != None
        then (t, Failed(BacktestError(t, account, contractVersion, supplied).value))
    else
      var (u, r) := BacktestEach(e, t, account, actor, ProposalsOf(t.proposals, account, contractVersion), supplied);
      if r.Failed? then (t, r) else (u, r)
  }

  // ---- acceptance ----------------------------------------------------------------------------

  datatype Accepted = Accepted(acceptance: Id, shadow: Id, created: bool)

  /** The upsert on the slug of the proposal: the rule that is there, or a new one. */
  function RuleFor(rules: seq<Rule>, proposal: Id, ruleType: Text): (r: (seq<Rule>, Id))
    ensures r.1 < |r.0| && r.0[r.1].slug == proposal && rules <= r.0
  {
    FirstMeaning(rules, (r: Rule) => r.slug == proposal);
    var i := First(rules, (r: Rule) => r.slug == proposal);
    if i >= 0 then (rules, i) else (rules + [Rule(proposal, ruleType)], |rules|)
  }

  function ShadowRow(t: Tables, account: Id, proposal: Id, backtest: Id, actor: Id, rule: Id,
                     clause: Option<Id>): Version
    requires proposal < |t.proposals|
  {
    var p := t.proposals[proposal];
    Version(rule, AiDocs, Shadow, p.ast, p.astHash, p.expectedInputs,
            Provenance(account, proposal, p.proposalHash, backtest, p.contractVersion, actor), clause, None, proposal,
                backtest, None)
  }

  function InsertShadow(versions: seq<Version>, row: Version): (seq<Version>, Option<Inserted>) {
    Insert(versions, row, (v: Version) => v.proposal == row.proposal && v.lifecycle == Shadow,
           (v: Version) => v.proposal == row.proposal && v.rule == row.rule && v.lifecycle == Shadow
               && v.astHash == row.astHash
                           && v.backtest == row.backtest && v.provenance == row.provenance)
  }

  function InsertAcceptance(acceptances: seq<Acceptance>, row: Acceptance): (seq<Acceptance>, Option<Inserted>) {
    Insert(acceptances, row, (a: Acceptance) => a.account == row.account && a.proposal == row.proposal,
           (a: Acceptance) => a == row)
  }

  predicate PassingBacktest(t: Tables, account: Id, backtest: Id, proposal: Id)
    requires proposal < |t.proposals|
  {
    && backtest < |t.backtests| && t.backtests[backtest].account == account
        && t.backtests[backtest].proposal == proposal
    && t.backtests[backtest].proposalHash == t.proposals[proposal].proposalHash
        && t.backtests[backtest].astHash == t.proposals[proposal].astHash
    && t.backtests[backtest].passed
  }

  /** `acceptContractRuleProposal`; `clause` is the first clause the proposal cites, if any. */
  function Accept(t: Tables, account: Id, proposal: Id, backtest: Id, actor: Id, rationale: Text,
                  clause: Option<Id>): (Tables, Reply<Accepted>) {
    if !(proposal < |t.proposals| && t.proposals[proposal].account == account) then (t, Failed(ProposalNotFound))
    else if !PassingBacktest(t, account, backtest, proposal) then (t, Failed(PassingBacktestRequired))
    else
      var (rules, rule) := RuleFor(t.rules, proposal, t.proposals[proposal].ruleType);
      if rules[rule].ruleType != t.proposals[proposal].ruleType then (t, Failed(RuleConflict))
      else
        var (versions, shadow) := InsertShadow(t.versions,
                                               ShadowRow(t, account, proposal, backtest, actor, rule, clause));
        if shadow == None then (t, Failed(AcceptanceConflict))
        else
          var row := Acceptance(account, proposal, backtest, shadow.value.id, actor, rationale);
          var (acceptances, r) := InsertAcceptance(t.acceptances, row);
          if r == None then (t, Failed(AcceptanceConflict))
          else if r.value.created && exists a | a in t.acceptances :: a.account == account && a.shadow == row.shadow
              then (t, Failed(UniqueViolation))
          else (t.(rules := rules, versions := versions, acceptances := acceptances),
                Done(Accepted(r.value.id, shadow.value.id, r.value.created)))
  }

  // ---- ratification --------------------------------------------------------------------------

  datatype RatifiedAs = RatifiedAs(ratification: Id, active: Id, created: bool)

  /** What the ratification query joins: an acceptance, its SHADOW version and its passed backtest. */
  predicate Ratifiable(t: Tables, account: Id, acceptance: Id) {
    && acceptance < |t.acceptances|
    && var a := t.acceptances[acceptance];
       && a.account == account && a.shadow < |t.versions| && a.backtest < |t.backtests|
       && t.backtests[a.backtest].account == account && t.backtests[a.backtest].proposal == a.proposal
           && t.backtests[a.backtest].passed
       && t.versions[a.shadow].lifecycle == Shadow && t.versions[a.shadow].hardness == AiDocs
       && t.versions[a.shadow].proposal == a.proposal && t.versions[a.shadow].backtest == a.backtest
  }

  function ActiveRow(t: Tables, a: Acceptance, actor: Id, rationale: Text): Version
    requires a.shadow < |t.versions|
  {
    t.versions[a.shadow].(hardness := FirmRule, lifecycle := Active, predecessor := Some(a.shadow),
                          proposal := a.proposal, backtest := a.backtest,
                          ratified := Some(Ratified(actor, rationale)))
  }

  function InsertActive(versions: seq<Version>, row: Version): (seq<Version>, Option<Inserted>) {
    Insert(versions, row, (v: Version) => v.predecessor.Some? && v.predecessor == row.predecessor
        && v.lifecycle == Active,
           (v: Version) => v.predecessor.Some? && v.predecessor == row.predecessor && v.lifecycle == Active
               && v.hardness == FirmRule
                           && v.proposal == row.proposal && v.backtest == row.backtest && v.ratified == row.ratified)
  }

  function InsertRatification(rows: seq<Ratification>, row: Ratification): (seq<Ratification>, Option<Inserted>) {
    Insert(rows, row, (r: Ratification) => r.account == row.account && r.acceptance == row.acceptance,
           (r: Ratification) => r.account == row.account && r.acceptance == row.acceptance && r.active == row.active
                                && r.ratifiedBy == row.ratifiedBy && r.rationale == row.rationale)
  }

  /** `ratifyContractRuleProposal` */
  function Ratify(t: Tables, account: Id, acceptance: Id, actor: Id, rationale: Text): (Tables, Reply<RatifiedAs>) {
    if !Ratifiable(t, account, acceptance) then (t, Failed(AcceptanceNotFound))
    else
      var a := t.acceptances[acceptance];
      var (versions, active) := InsertActive(t.versions, ActiveRow(t, a, actor, rationale));
      if active == None then (t, Failed(RatificationConflict))
      else if active.value.created && exists v | v in t.versions :: v.proposal == a.proposal && v.lifecycle == Active
          then (t, Failed(UniqueViolation))
      else
        var row := Ratification(account, acceptance, a.proposal, a.backtest, a.shadow, active.value.id, actor,
                                rationale);
        var (ratifications, r) := InsertRatification(t.ratifications, row);
        if r == None then (t, Failed(RatificationConflict))
        else if r.value.created && exists x | x in t.ratifications :: x.account == account && x.active == row.active
            then (t, Failed(UniqueViolation))
        else (t.(versions := versions, ratifications := ratifications),
              Done(RatifiedAs(r.value.id, active.value.id, r.value.created)))
  }

  // ---- runs ----------------------------------------------------------------------------------

  datatype Op =
    | Persist(row: Proposal)
    | RunBacktest(account: Id, contractVersion: Id, actor: Id, supplied: seq<(Id, seq<Case>)>)
    | RunAccept(account: Id, proposal: Id, backtest: Id, actor: Id, rationale: Text, clause: Option<Id>)
    | RunRatify(account: Id, acceptance: Id, actor: Id, rationale: Text)

  function After(e: Engine, t: Tables, op: Op): Tables {
    match op
    case Persist(p) => t.(proposals := t.proposals + [p])
    case RunBacktest(account, version, actor, supplied) => BacktestProposals(e, t, account, version, actor, supplied).0
    case RunAccept(account, proposal, backtest, actor, rationale, clause) =>
      Accept(t, account, proposal, backtest, actor, rationale, clause).0
    case RunRatify(account, acceptance, actor, rationale) => Ratify(t, account, acceptance, actor, rationale).0
  }

  const EMPTY := Tables([], [], [], [], [], [], [])

  ghost predicate Run(e: Engine, states: seq<Tables>, ops: seq<Op>) {
    |states| == |ops| + 1 && states[0] == EMPTY && forall i | 0 <= i < |ops| ::
        states[i + 1] == After(e, states[i], ops[i])
  }

  /** Tables only grow. */
  predicate Grows(t: Tables, u: Tables) {
    && t.proposals <= u.proposals && t.backtests <= u.backtests && t.cases <= u.cases && t.rules <= u.rules
    && t.versions <= u.versions && t.acceptances <= u.acceptances && t.ratifications <= u.ratifications
  }
}
