/** The gate and score phases over an arbitrary pure interpreter: src/modules/evaluator/evaluate-invoice.ts.
    Amounts are exact ten-thousandths. */
module InvoiceEvaluation {
  import opened Sorting
  import opened Sums
  import opened Texts

  datatype CriterionKind = Gating | Scoring

  datatype Criterion<A> = Criterion(key: Text, kind: CriterionKind, evalOrder: int, description: Text,
                                    citation: Option<Text>, ast: A)

  datatype Verdict = Pass | Fail | Unassessable

  datatype EvalValue = MoneyValue(amount: int, currency: Text) | OtherValue

  datatype NodeType = RequireNode | CompareNode | OtherNode

  /** The evaluated tree; missing children, as on leaves, are no children. */
  datatype EvalNode = EvalNode(nodeType: NodeType, value: EvalValue, children: seq<EvalNode>)

  /** The interpreter, the rubric digest and `localeCompare`. */
  datatype Engine<!A, !F> = Engine(interpret: (A, F) -> EvalNode, verdict: EvalNode -> Verdict,
                                   rubricHash: seq<Criterion<A>> -> Text,
                                   keyOrder: (Text, Text) -> bool)

  datatype GateFailure = GateFailure(key: Text, unassessable: bool, description: Text, citation: Option<Text>,
                                     expr: EvalNode)

  datatype FindingResult = Conformed | Variance | NotAssessed

  datatype Direction = Overcharge | Undercharge | IntegrityOnly

  datatype Finding = Finding(key: Text, result: FindingResult, expr: EvalNode, variance: Option<int>,
                             currency: Option<Text>, direction: Direction)

  datatype Scorecard = Scorecard(conformed: nat, variance: nat, unassessable: nat, totalOvercharge: int,
                                 totalUndercharge: int)

  datatype Pins = Pins(parserVersion: Text, engineVersion: Text, rubricHash: Text)

  datatype AuditResult<M> =
    | RejectedRework(gateFailures: seq<GateFailure>, markers: M, pins: Pins)
    | Scored(findings: seq<Finding>, scorecard: Scorecard, markers: M, pins: Pins)

  // ---- criteria in order ---------------------------------------------------------------------

  function InOrder<A>(keyOrder: (Text, Text) -> bool): (Criterion<A>, Criterion<A>) -> bool {
    (a: Criterion<A>, b: Criterion<A>) => a.evalOrder < b.evalOrder
        || (a.evalOrder == b.evalOrder && keyOrder(a.key, b.key))
  }

  function OrderedCriteria<A(!new)>(keyOrder: (Text, Text) -> bool, rubric: seq<Criterion<A>>,
                                    kind: CriterionKind): seq<Criterion<A>> {
    SortBy(InOrder(keyOrder), Keep(rubric, (c: Criterion<A>) => c.kind == kind))
  }

  // ---- the money delta -----------------------------------------------------------------------

  /** The node under all `require` wrappers that have a first child. */
  function Bottom(ev: EvalNode): (bottom: EvalNode)
    ensures !(bottom.nodeType == RequireNode && bottom.children != [])
  {
    if ev.nodeType == RequireNode && ev.children != [] then Bottom(ev.children[0]) else ev
  }

  datatype Delta = Delta(amount: int, currency: Text)

  function CompareDelta(node: EvalNode): Option<Delta> {
    if node.nodeType != CompareNode || |node.children| < 2 then None
    else
      var left, right := node.children[0].value, node.children[1].value;
      if left.MoneyValue? && right.MoneyValue? then Some(Delta(left.amount - right.amount, left.currency)) else None
  }

  method MoneyVarianceDelta(ev: EvalNode) returns (delta: Option<Delta>)
    ensures delta == CompareDelta(Bottom(ev))
  {
    var node := ev;
    while node.nodeType == RequireNode && node.children != []
      invariant Bottom(node) == Bottom(ev)
      decreases node
    {
      node := node.children[0];
    }
    if node.nodeType != CompareNode { return None; }
    if |node.children| < 2 { return None; }
    var left, right := node.children[0].value, node.children[1].value;
    if !left.MoneyValue? || !right.MoneyValue? { return None; }
    delta := Some(Delta(left.amount - right.amount, left.currency));
  }

  // ---- what each criterion yields ------------------------------------------------------------

  predicate Blocks(v: Verdict) { v == Fail || v == Unassessable }

  function FailureOf<A, F>(e: Engine<A, F>, facts: F, c: Criterion<A>): GateFailure {
    var ev := e.interpret(c.ast, facts);
    GateFailure(c.key, e.verdict(ev) == Unassessable, c.description, c.citation, ev)
  }

  function FailuresOf<A, F>(e: Engine<A, F>, facts: F, gating: seq<Criterion<A>>): seq<GateFailure> {
    if gating == [] then []
    else
      var n := |gating| - 1;
      FailuresOf(e, facts, gating[..n])
      + if Blocks(e.verdict(e.interpret(gating[n].ast, facts))) then [FailureOf(e, facts, gating[n])] else []
  }

  function ResultOf(v: Verdict): FindingResult {
    match v case Pass => Conformed case Fail => Variance case Unassessable => NotAssessed
  }

  function FindingOf<A, F>(e: Engine<A, F>, facts: F, c: Criterion<A>): Finding {
    var ev := e.interpret(c.ast, facts);
    var result, delta := ResultOf(e.verdict(ev)), CompareDelta(Bottom(ev));
    if result == Variance && delta.Some? then
      Finding(c.key, result, ev, Some(delta.value.amount), Some(delta.value.currency),
              if delta.value.amount < 0 then Undercharge else Overcharge)
    else Finding(c.key, result, ev, None, None, IntegrityOnly)
  }

  function FindingsOf<A, F>(e: Engine<A, F>, facts: F, scoring: seq<Criterion<A>>): seq<Finding> {
    seq(|scoring|, i requires 0 <= i < |scoring| => FindingOf(e, facts, scoring[i]))
  }

  function CountOf(findings: seq<Finding>, r: FindingResult): nat {
    if findings == [] then 0 else CountOf(findings[..|findings| - 1], r) + if findings[|findings| - 1].result == r
        then 1 else 0
  }

  /** Total of the variances in one direction. */
  function TotalOf(findings: seq<Finding>, d: Direction): int {
    if findings == [] then 0
    else
      var f := findings[|findings| - 1];
      TotalOf(findings[..|findings| - 1], d) + VarianceIn(f, d)
  }

  function ScorecardOf(findings: seq<Finding>): Scorecard {
    Scorecard(CountOf(findings, Conformed), CountOf(findings, Variance), CountOf(findings, NotAssessed),
              TotalOf(findings, Overcharge), TotalOf(findings, Undercharge))
  }

  function Evaluated<A(!new), F,
      M>(e: Engine<A, F>, rubric: seq<Criterion<A>>, facts: F, markers: M, parserVersion: Text,
         engineVersion: Text): AuditResult<M> {
    var pins := Pins(parserVersion, engineVersion, e.rubricHash(rubric));
    var failures := FailuresOf(e, facts, OrderedCriteria(e.keyOrder, rubric, Gating));
    var findings := FindingsOf(e, facts, OrderedCriteria(e.keyOrder, rubric, Scoring));
    if failures != [] then RejectedRework(failures, markers, pins)
        else Scored(findings, ScorecardOf(findings), markers, pins)
  }

  // ---- the loops -----------------------------------------------------------------------------

  method GatePhase<A, F>(e: Engine<A, F>, facts: F, gating: seq<Criterion<A>>) returns (failures: seq<GateFailure>)
    ensures failures == FailuresOf(e, facts, gating)
  {
    failures := [];
    for i := 0 to |gating|
      invariant failures == FailuresOf(e, facts, gating[..i])
    {
      assert gating[..i + 1][..i] == gating[..i];
      var c := gating[i];
      var ev := e.interpret(c.ast, facts);
      var v := e.verdict(ev);
      if v == Fail || v == Unassessable {
        failures := failures + [GateFailure(c.key, v == Unassessable, c.description, c.citation, ev)];
      }
    }
    assert gating[..|gating|] == gating;
  }

  function VarianceIn(f: Finding, d: Direction): int {
    if f.direction == d && f.variance.Some? then (if f.variance.value < 0 then -f.variance.value else f.variance.value)
        else 0
  }

  lemma ScorecardStep(findings: seq<Finding>, f: Finding)
    ensures var s := ScorecardOf(findings);
            ScorecardOf(findings + [f]) == Scorecard(s.conformed + if f.result == Conformed then 1 else 0,
                                                     s.variance + if f.result == Variance then 1 else 0,
                                                     s.unassessable + if f.result == NotAssessed then 1 else 0,
                                                     s.totalOvercharge + VarianceIn(f, Overcharge),
                                                         s.totalUndercharge + VarianceIn(f, Undercharge))
  {
    assert (findings + [f])[..|findings|] == findings;
  }

  method ScorePhase<A, F>(e: Engine<A, F>, facts: F, scoring: seq<Criterion<A>>)
    returns (findings: seq<Finding>, scorecard: Scorecard)
    ensures findings == FindingsOf(e, facts, scoring) && scorecard == ScorecardOf(findings)
  {
    findings := [];
    assert ScorecardOf([]) == Scorecard(0, 0, 0, 0, 0);
    hide ScorecardOf;
    hide Bottom;
    var conformed, variance, unassessable: nat := 0, 0, 0;
    var totalOvercharge, totalUndercharge := 0, 0;
    for i := 0 to |scoring|
      invariant findings == FindingsOf(e, facts, scoring[..i])
      invariant ScorecardOf(findings) == Scorecard(conformed, variance, unassessable, totalOvercharge, totalUndercharge)
    {
      var c := scoring[i];
      var ev := e.interpret(c.ast, facts);
      var result := ResultOf(e.verdict(ev));
      var delta := MoneyVarianceDelta(ev);
      var amount: Option<int>, currency: Option<Text>, direction := None, None, IntegrityOnly;
      if result == Conformed { conformed := conformed + 1; }
      else if result == Variance {
        variance := variance + 1;
        if delta.Some? {
          if delta.value.amount >= 0 { totalOvercharge := totalOvercharge + delta.value.amount; }
          else { totalUndercharge := totalUndercharge - delta.value.amount; }
          amount, currency := Some(delta.value.amount), Some(delta.value.currency);
          direction := if delta.value.amount < 0 then Undercharge else Overcharge;
        }
      } else { unassessable := unassessable + 1; }
      var finding := Finding(c.key, result, ev, amount, currency, direction);
      ScorecardStep(findings, finding);
      assert finding == FindingOf(e, facts, c);
      assert FindingsOf(e, facts, scoring[..i + 1]) == FindingsOf(e, facts, scoring[..i]) + [finding];
      findings := findings + [finding];
    }
    assert scoring[..|scoring|] == scoring;
    scorecard := Scorecard(conformed, variance, unassessable, totalOvercharge, totalUndercharge);
  }

  method EvaluateInvoice<A(!new), F,
      M>(e: Engine<A, F>, rubric: seq<Criterion<A>>, facts: F, markers: M, parserVersion: Text, engineVersion: Text)
    returns (r: AuditResult<M>)
    ensures r == Evaluated(e, rubric, facts, markers, parserVersion, engineVersion)
  {
    var pins := Pins(parserVersion, engineVersion, e.rubricHash(rubric));
    var gating := OrderedCriteria(e.keyOrder, rubric, Gating);
    var scoring := OrderedCriteria(e.keyOrder, rubric, Scoring);
    var failures := GatePhase(e, facts, gating);
    if |failures| > 0 { return RejectedRework(failures, markers, pins); }
    var findings, scorecard := ScorePhase(e, facts, scoring);
    r := Scored(findings, scorecard, markers, pins);
  }

  // ---- what the result means -----------------------------------------------------------------

  /** The gate failures are exactly those of the blocking criteria, one each, in order. */
  lemma {:induction false} FailuresListAll<A, F>(e: Engine<A, F>, facts: F, gating: seq<Criterion<A>>)
    returns (from: seq<nat>)
    ensures var failures := FailuresOf(e, facts, gating);
      && |from| == |failures|
          && (forall k | 0 <= k < |from| :: from[k] < |gating| && failures[k] == FailureOf(e, facts, gating[from[k]]))
      && (forall k, l | 0 <= k < l < |from| :: from[k] < from[l])
      && forall i: nat | i < |gating| :: i in from <==> Blocks(e.verdict(e.interpret(gating[i].ast, facts)))
    decreases |gating|
  {
    if gating == [] {
      from := [];
    } else {
      var n := |gating| - 1;
      var before := FailuresListAll(e, facts, gating[..n]);
      from := before + if Blocks(e.verdict(e.interpret(gating[n].ast, facts))) then [n] else [];
      assert forall i: nat | i < n :: gating[..n][i] == gating[i];
    }
  }

  /** Which criteria block an invoice. */
  predicate Blocking<A, F>(e: Engine<A, F>, facts: F, c: Criterion<A>) {
    c.kind == Gating && Blocks(e.verdict(e.interpret(c.ast, facts)))
  }

  /** An invoice is rejected exactly when some gate fails or cannot be assessed, whatever its place in the rubric. */
  lemma RejectedExactlyWhenBlocked<A(!new), F,
      M>(e: Engine<A, F>, rubric: seq<Criterion<A>>, facts: F, markers: M, parserVersion: Text, engineVersion: Text)
    ensures Evaluated(e, rubric, facts, markers, parserVersion, engineVersion).RejectedRework? <==> exists c ::
        c in rubric && Blocking(e, facts, c)
    ensures var r := Evaluated(e, rubric, facts, markers, parserVersion, engineVersion);
            r.RejectedRework? ==> forall c | c in rubric && Blocking(e, facts, c) ::
                FailureOf(e, facts, c) in r.gateFailures
  {
    var kept := Keep(rubric, (c: Criterion<A>) => c.kind == Gating);
    var gating := OrderedCriteria(e.keyOrder, rubric, Gating);
    SortKeepsMembers(InOrder(e.keyOrder), kept);
    var from := FailuresListAll(e, facts, gating);
    var failures := FailuresOf(e, facts, gating);
    assert forall c :: c in gating <==> c in rubric && c.kind == Gating;
    hide OrderedCriteria;
    hide FailuresOf;
    hide FailureOf;
    forall c | c in rubric && Blocking(e, facts, c) ensures FailureOf(e, facts, c) in failures {
      assert c in gating;
      var i :| 0 <= i < |gating| && gating[i] == c;
      assert i in from;
      var k :| 0 <= k < |from| && from[k] == i;
      assert failures[k] == FailureOf(e, facts, c);
    }
    if failures != [] {
      assert from[0] in from;
      assert gating[from[0]] in gating;
      assert Blocking(e, facts, gating[from[0]]);
    }
  }

  function SignedSum(findings: seq<Finding>): int {
    if findings == [] then 0
    else SignedSum(findings[..|findings| - 1]) + if findings[|findings| - 1].variance.Some?
        then findings[|findings| - 1].variance.value else 0
  }

  /** The direction of a finding is the sign of its variance. */
  predicate DirectionTells(f: Finding) {
    match f.variance
    case None => f.direction == IntegrityOnly
    case Some(v) => f.result == Variance && f.direction == if v < 0 then Undercharge else Overcharge
  }

  lemma {:induction false} ScorecardAddsUp(findings: seq<Finding>)
    requires forall f | f in findings :: DirectionTells(f)
    ensures CountOf(findings, Conformed) + CountOf(findings, Variance) + CountOf(findings, NotAssessed) == |findings|
    ensures TotalOf(findings, Overcharge) - TotalOf(findings, Undercharge) == SignedSum(findings)
    ensures TotalOf(findings, Overcharge) >= 0 && TotalOf(findings, Undercharge) >= 0
    decreases |findings|
  {
    if findings != [] {
      assert findings[|findings| - 1] in findings;
      ScorecardAddsUp(findings[..|findings| - 1]);
    }
  }

  /** Otherwise every scoring criterion is counted once, and overcharge less undercharge is the signed sum of the
      variances. */
  lemma ScoredAddsUp<A(!new), F,
      M>(e: Engine<A, F>, rubric: seq<Criterion<A>>, facts: F, markers: M, parserVersion: Text, engineVersion: Text)
    ensures var r := Evaluated(e, rubric, facts, markers, parserVersion, engineVersion);
            r.Scored? ==>
              && r.scorecard.conformed + r.scorecard.variance + r.scorecard.unassessable
                  == |Keep(rubric, (c: Criterion<A>) => c.kind == Scoring)|
              && r.scorecard.totalOvercharge - r.scorecard.totalUndercharge == SignedSum(r.findings)
              && r.scorecard.totalOvercharge >= 0 && r.scorecard.totalUndercharge >= 0
              && forall c | c in rubric && c.kind == Scoring :: FindingOf(e, facts, c) in r.findings
  {
    var kept := Keep(rubric, (c: Criterion<A>) => c.kind == Scoring);
    var scoring := OrderedCriteria(e.keyOrder, rubric, Scoring);
    SortKeepsMembers(InOrder(e.keyOrder), kept);
    SortKeepsMultiset(InOrder(e.keyOrder), kept);
    var findings := FindingsOf(e, facts, scoring);
    forall f | f in findings ensures DirectionTells(f) {
      var i :| 0 <= i < |findings| && findings[i] == f;
      assert f == FindingOf(e, facts, scoring[i]);
    }
    ScorecardAddsUp(findings);
    forall c | c in rubric && c.kind == Scoring ensures FindingOf(e, facts, c) in findings {
      assert c in scoring;
      var i :| 0 <= i < |scoring| && scoring[i] == c;
      assert findings[i] == FindingOf(e, facts, c);
    }
    hide FindingOf;
    hide FailuresOf;
  }

  // ---- the order of the rubric ---------------------------------------------------------------

  predicate DistinctCriteria<A>(rubric: seq<Criterion<A>>) {
    forall i, j | 0 <= i < j < |rubric| :: rubric[i].key != rubric[j].key
  }

  lemma {:induction false} KeepMultiset<T(!new)>(s: seq<T>, p: T -> bool, x: T)
    ensures multiset(Keep(s, p))[x] == if p(x) then multiset(s)[x] else 0
    decreases |s|
  {
    if s != [] {
      assert s == [s[0]] + s[1..];
      KeepMultiset(s[1..], p, x);
    }
  }

  lemma HeadsAgree<A(!new)>(keyOrder: (Text, Text) -> bool, s: seq<Criterion<A>>, t: seq<Criterion<A>>)
    requires TotalOrder(keyOrder) && s != [] && t != [] && t[0] in s && s[0] in t && DistinctCriteria(s)
    requires SortedBy(InOrder(keyOrder), s) && SortedBy(InOrder(keyOrder), t)
    ensures s[0] == t[0]
  {
    var i :| 0 <= i < |t| && t[i] == s[0];
    var j :| 0 <= j < |s| && s[j] == t[0];
    assert InOrder(keyOrder)(s[0], s[j]) || j == 0;
    assert InOrder(keyOrder)(t[0], t[i]) || i == 0;
    assert s[0].key == t[0].key;
    assert j == 0;
  }

  /** Sequences with one multiset of rows with distinct keys, both in order, are equal. */
  lemma {:induction false} OrderedIsUnique<A(!new)>(keyOrder: (Text, Text) -> bool, s: seq<Criterion<A>>,
                                                    t: seq<Criterion<A>>)
    requires TotalOrder(keyOrder) && multiset(s) == multiset(t) && DistinctCriteria(s)
    requires SortedBy(InOrder(keyOrder), s) && SortedBy(InOrder(keyOrder), t)
    ensures s == t
    decreases |s|
  {
    assert |s| == |multiset(s)| == |multiset(t)| == |t|;
    if s != [] {
      assert s[0] in multiset(t) && t[0] in multiset(s);
      HeadsAgree(keyOrder, s, t);
      HeadAndTail(s);
      HeadAndTail(t);
      hide InOrder;
      hide TotalOrder;
      OrderedIsUnique(keyOrder, s[1..], t[1..]);
    }
  }

  lemma InOrderIsPreorder<A(!new)>(keyOrder: (Text, Text) -> bool)
    requires TotalOrder(keyOrder)
    ensures TotalPreorder(InOrder<A>(keyOrder))
  {
    var leq := InOrder<A>(keyOrder);
    forall a, b ensures leq(a, b) || leq(b, a) { assert keyOrder(a.key, b.key) || keyOrder(b.key, a.key); }
    forall a, b, c | leq(a, b) && leq(b, c) ensures leq(a, c) {
      assert keyOrder(a.key, b.key) && keyOrder(b.key, c.key) ==> keyOrder(a.key, c.key);
    }
  }

  lemma OrderedAlike<A(!new)>(keyOrder: (Text, Text) -> bool, rubric: seq<Criterion<A>>, permuted: seq<Criterion<A>>,
                              kind: CriterionKind)
    requires TotalOrder(keyOrder) && DistinctCriteria(rubric) && multiset(rubric) == multiset(permuted)
    ensures OrderedCriteria(keyOrder, rubric, kind) == OrderedCriteria(keyOrder, permuted, kind)
  {
    var p := (c: Criterion<A>) => c.kind == kind;
    var s, t := Keep(rubric, p), Keep(permuted, p);
    forall x ensures multiset(s)[x] == multiset(t)[x] { KeepMultiset(rubric, p, x); KeepMultiset(permuted, p, x); }
    assert multiset(s) == multiset(t);
    var leq := InOrder<A>(keyOrder);
    InOrderIsPreorder<A>(keyOrder);
    SortSorts(leq, s);
    SortSorts(leq, t);
    SortKeepsMultiset(leq, s);
    SortKeepsMultiset(leq, t);
    DistinctKept(rubric, SortBy(leq, s), p);
    OrderedIsUnique(keyOrder, SortBy(leq, s), SortBy(leq, t));
  }

  lemma {:induction false} KeepDistinctKeys<A(!new)>(rubric: seq<Criterion<A>>, p: Criterion<A> -> bool)
    requires DistinctCriteria(rubric)
    ensures DistinctCriteria(Keep(rubric, p))
    decreases |rubric|
  {
    if rubric != [] {
      KeepDistinctKeys(rubric[1..], p);
      var rest := Keep(rubric[1..], p);
      forall i | 0 <= i < |rest| ensures rest[i].key != rubric[0].key {
        assert rest[i] in rubric[1..];
        var j :| 0 <= j < |rubric[1..]| && rubric[1..][j] == rest[i];
        assert rubric[j + 1].key != rubric[0].key;
      }
    }
  }

  lemma DistinctKept<A(!new)>(rubric: seq<Criterion<A>>, sorted: seq<Criterion<A>>, p: Criterion<A> -> bool)
    requires DistinctCriteria(rubric) && multiset(sorted) == multiset(Keep(rubric, p))
    ensures DistinctCriteria(sorted)
  {
    KeepDistinctKeys(rubric, p);
    var kept := Keep(rubric, p);
    var q := FindPermutation(sorted, kept);
    forall i, j | 0 <= i < j < |sorted| ensures sorted[i].key != sorted[j].key {
      assert sorted[i] == kept[q[i]] && sorted[j] == kept[q[j]];
    }
  }

  /** Permuting criteria with distinct keys changes nothing but the rubric hash. */
  lemma RubricOrderDoesNotMatter<A(!new), F, M>(e: Engine<A, F>, rubric: seq<Criterion<A>>, permuted: seq<Criterion<A>>,
                                                facts: F, markers: M,
                                                parserVersion: Text, engineVersion: Text)
    requires TotalOrder(e.keyOrder) && DistinctCriteria(rubric) && multiset(rubric) == multiset(permuted)
    ensures var r := Evaluated(e, rubric, facts, markers, parserVersion, engineVersion);
            var q := Evaluated(e, permuted, facts, markers, parserVersion, engineVersion);
            q == r.(pins := r.pins.(rubricHash := e.rubricHash(permuted)))
  {
    OrderedAlike(e.keyOrder, rubric, permuted, Gating);
    OrderedAlike(e.keyOrder, rubric, permuted, Scoring);
  }
}
