/** What findings, gate failures and counts say. */
module ScoreLaws {
  import opened InvoiceEvaluation
  import opened Sorting
  import opened Sums
  import opened Texts

  // What src/modules/evaluator/evaluate-invoice.ts promises of its result, said of the rubric and of what the
  // interpreter answers.

  // ---- one criterion -------------------------------------------------------------------------

  /** The way from a node down the first children of `require` nodes, as far as it goes. */
  predicate Unwrapped(ev: EvalNode, path: seq<EvalNode>) {
    && path != [] && path[0] == ev
    && if |path| == 1 then ev.nodeType != RequireNode || ev.children == []
       else ev.nodeType == RequireNode && ev.children != [] && Unwrapped(ev.children[0], path[1..])
  }

  /** A comparison of two money values: the first less the second, in the currency of the first. */
  predicate ComparesMoney(node: EvalNode, difference: int, currency: Text) {
    && node.nodeType == CompareNode && |node.children| >= 2
    && node.children[0].value.MoneyValue? && node.children[1].value.MoneyValue?
    && difference == node.children[0].value.amount - node.children[1].value.amount
    && currency == node.children[0].value.currency
  }

  ghost predicate MoneyGap(ev: EvalNode, difference: int, currency: Text) {
    exists path :: Unwrapped(ev, path) && ComparesMoney(path[|path| - 1], difference, currency)
  }

  /** What a finding says of its criterion. */
  ghost predicate Reports<A, F>(e: Engine<A, F>, facts: F, c: Criterion<A>, f: Finding) {
    && f.key == c.key && f.expr == e.interpret(c.ast, facts)
    && (f.result == Conformed <==> e.verdict(f.expr) == Pass)
    && (f.result == Variance <==> e.verdict(f.expr) == Fail)
    && (f.result == NotAssessed <==> e.verdict(f.expr) == Unassessable)
    && (forall v, currency :: f.variance == Some(v) && f.currency == Some(currency)
         <==> e.verdict(f.expr) == Fail && MoneyGap(f.expr, v, currency))
    && (f.variance.Some? <==> f.currency.Some?)
    && f.direction == match f.variance
                      case None => IntegrityOnly
                      case Some(v) => if v < 0 then Undercharge else Overcharge
  }

  lemma {:induction false} PathToBottom(ev: EvalNode) returns (path: seq<EvalNode>)
    ensures Unwrapped(ev, path) && path[|path| - 1] == Bottom(ev)
    decreases ev
  {
    if ev.nodeType == RequireNode && ev.children != [] {
      var rest := PathToBottom(ev.children[0]);
      path := [ev] + rest;
      assert path[1..] == rest;
    } else {
      path := [ev];
    }
  }

  lemma {:induction false} PathsEndThere(ev: EvalNode, path: seq<EvalNode>)
    requires Unwrapped(ev, path)
    ensures path[|path| - 1] == Bottom(ev)
    decreases |path|
  {
    if |path| > 1 {
      PathsEndThere(ev.children[0], path[1..]);
    }
  }

  lemma MoneyGapMeaning(ev: EvalNode, difference: int, currency: Text)
    ensures MoneyGap(ev, difference, currency) <==> CompareDelta(Bottom(ev)) == Some(Delta(difference, currency))
  {
    var path := PathToBottom(ev);
    if MoneyGap(ev, difference, currency) {
      var other :| Unwrapped(ev, other) && ComparesMoney(other[|other| - 1], difference, currency);
      PathsEndThere(ev, other);
    }
  }

  lemma FindingReports<A, F>(e: Engine<A, F>, facts: F, c: Criterion<A>)
    ensures Reports(e, facts, c, FindingOf(e, facts, c))
  {
    var f := FindingOf(e, facts, c);
    forall v, currency
      ensures MoneyGap(f.expr, v, currency) <==> CompareDelta(Bottom(f.expr)) == Some(Delta(v, currency))
    {
      MoneyGapMeaning(f.expr, v, currency);
    }
    hide Bottom;
    hide CompareDelta;
    hide MoneyGap;
  }

  // ---- the whole result ----------------------------------------------------------------------

  /** The criteria of one kind, each as often as it occurs, by evaluation order and then by key. */
  ghost predicate ListsKind<A(!new), F>(e: Engine<A, F>, rubric: seq<Criterion<A>>, kind: CriterionKind,
                                        order: seq<Criterion<A>>) {
    HoldsKind(rubric, kind, order) && InEvaluationOrder(e, order)
  }

  ghost predicate HoldsKind<A(!new)>(rubric: seq<Criterion<A>>, kind: CriterionKind, order: seq<Criterion<A>>) {
    forall c: Criterion<A> :: multiset(order)[c] == if c.kind == kind then multiset(rubric)[c] else 0
  }

  ghost predicate InEvaluationOrder<A(!new), F>(e: Engine<A, F>, order: seq<Criterion<A>>) {
    forall i, j | 0 <= i < j < |order| ::
      || order[i].evalOrder < order[j].evalOrder
      || (order[i].evalOrder == order[j].evalOrder && e.keyOrder(order[i].key, order[j].key))
  }

  lemma KeptHolds<A(!new)>(rubric: seq<Criterion<A>>, kind: CriterionKind)
    ensures HoldsKind(rubric, kind, Keep(rubric, (c: Criterion<A>) => c.kind == kind))
  {
    var p := (c: Criterion<A>) => c.kind == kind;
    forall c: Criterion<A> ensures multiset(Keep(rubric, p))[c] == if c.kind == kind then multiset(rubric)[c] else 0 {
      KeepMultiset(rubric, p, c);
    }
  }

  lemma OrderLists<A(!new), F>(e: Engine<A, F>, rubric: seq<Criterion<A>>, kind: CriterionKind)
    requires TotalOrder(e.keyOrder)
    ensures ListsKind(e, rubric, kind, OrderedCriteria(e.keyOrder, rubric, kind))
  {
    var kept := Keep(rubric, (c: Criterion<A>) => c.kind == kind);
    KeptHolds(rubric, kind);
    SortKeepsMultiset(InOrder<A>(e.keyOrder), kept);
    SortedInOrder(e, kept);
    hide SortBy;
    hide Keep;
    hide InEvaluationOrder;
    hide InOrder;
  }

  lemma SortedInOrder<A(!new), F>(e: Engine<A, F>, kept: seq<Criterion<A>>)
    requires TotalOrder(e.keyOrder)
    ensures InEvaluationOrder(e, SortBy(InOrder<A>(e.keyOrder), kept))
  {
    InOrderIsPreorder<A>(e.keyOrder);
    SortSorts(InOrder<A>(e.keyOrder), kept);
    hide SortBy;
    hide TotalOrder;
    hide TotalPreorder;
  }

  lemma {:induction false} CountOfFindings<A(!new), F>(e: Engine<A, F>, facts: F, scoring: seq<Criterion<A>>,
                                                       r: FindingResult, p: Criterion<A> -> bool)
    requires forall c | c in scoring :: p(c) <==> FindingOf(e, facts, c).result == r
    ensures CountOf(FindingsOf(e, facts, scoring), r) == |Keep(scoring, p)|
    decreases |scoring|
  {
    if scoring != [] {
      var n := |scoring| - 1;
      var before, c := scoring[..n], scoring[n];
      CountOfFindings(e, facts, before, r, p);
      assert scoring == before + [c];
      KeepLast(before, c, p);
      assert FindingsOf(e, facts, scoring)[..n] == FindingsOf(e, facts, before);
      hide FindingOf;
      hide Keep;
    }
  }

  lemma KeepSameLength<T(!new)>(s: seq<T>, t: seq<T>, p: T -> bool)
    requires multiset(s) == multiset(t)
    ensures |Keep(s, p)| == |Keep(t, p)|
  {
    forall x ensures multiset(Keep(s, p))[x] == multiset(Keep(t, p))[x] {
      KeepMultiset(s, p, x);
      KeepMultiset(t, p, x);
    }
    assert multiset(Keep(s, p)) == multiset(Keep(t, p));
    assert |multiset(Keep(s, p))| == |multiset(Keep(t, p))|;
  }

  /** How many findings have a result: as many as scoring criteria have the verdict. */
  lemma CountedByVerdict<A(!new), F>(e: Engine<A, F>, rubric: seq<Criterion<A>>, facts: F, r: FindingResult, v: Verdict)
    requires forall c: Criterion<A> ::
               FindingOf(e, facts, c).result == r <==> e.verdict(e.interpret(c.ast, facts)) == v
    ensures CountOf(FindingsOf(e, facts, OrderedCriteria(e.keyOrder, rubric, Scoring)), r)
         == |Keep(rubric, (c: Criterion<A>) => c.kind == Scoring && e.verdict(e.interpret(c.ast, facts)) == v)|
  {
    hide FindingOf;
    var both := (c: Criterion<A>) => c.kind == Scoring && e.verdict(e.interpret(c.ast, facts)) == v;
    var kind, has := (c: Criterion<A>) => c.kind == Scoring,
        (c: Criterion<A>) => e.verdict(e.interpret(c.ast, facts)) == v;
    var kept := Keep(rubric, kind);
    var order := OrderedCriteria(e.keyOrder, rubric, Scoring);
    SortKeepsMultiset(InOrder<A>(e.keyOrder), kept);
    CountOfFindings(e, facts, order, r, has);
    KeepSameLength(order, kept, has);
    KeepTwice(rubric, kind, has, both);
  }

  /** The variances above and below zero, added up. */
  function Above(findings: seq<Finding>): int {
    if findings == [] then 0
    else (match findings[0].variance case Some(v) => if v > 0 then v else 0 case None => 0) + Above(findings[1..])
  }

  function Below(findings: seq<Finding>): int {
    if findings == [] then 0
    else (match findings[0].variance case Some(v) => if v < 0 then -v else 0 case None => 0) + Below(findings[1..])
  }

  lemma {:induction false} AboveAndBelowLast(findings: seq<Finding>, f: Finding)
    ensures Above(findings + [f]) == Above(findings) + Above([f])
    ensures Below(findings + [f]) == Below(findings) + Below([f])
    decreases |findings|
  {
    if findings != [] {
      assert (findings + [f])[1..] == findings[1..] + [f];
      AboveAndBelowLast(findings[1..], f);
    } else {
      assert [] + [f] == [f];
    }
  }

  lemma {:induction false} TotalsAreSums(findings: seq<Finding>)
    requires forall f | f in findings :: DirectionTells(f)
    ensures TotalOf(findings, Overcharge) == Above(findings) && TotalOf(findings, Undercharge) == Below(findings)
    decreases |findings|
  {
    if findings != [] {
      var n := |findings| - 1;
      TotalsAreSums(findings[..n]);
      AboveAndBelowLast(findings[..n], findings[n]);
      assert findings[..n] + [findings[n]] == findings;
      assert findings[n] in findings;
      assert [findings[n]][1..] == [];
    }
  }

  /** The criteria of one kind with a verdict. */
  ghost function With<A(!new), F>(e: Engine<A, F>, rubric: seq<Criterion<A>>, facts: F, kind: CriterionKind,
                                  v: Verdict): seq<Criterion<A>> {
    Keep(rubric, (c: Criterion<A>) => c.kind == kind && e.verdict(e.interpret(c.ast, facts)) == v)
  }

  /** A scored result: one finding for each scoring criterion, in evaluation order, saying what the interpreter answered
      for it; the counts are those of the verdicts, and the totals those of the variances above and below zero. */
  lemma ScoredSays<A(!new), F, M>(e: Engine<A, F>, rubric: seq<Criterion<A>>, facts: F, markers: M,
                                  parserVersion: Text, engineVersion: Text)
    returns (order: seq<Criterion<A>>)
    requires TotalOrder(e.keyOrder)
    ensures ListsKind(e, rubric, Scoring, order)
    ensures var r := Evaluated(e, rubric, facts, markers, parserVersion, engineVersion);
      && r.markers == markers && r.pins == Pins(parserVersion, engineVersion, e.rubricHash(rubric))
      && (r.Scored? ==>
            && |r.findings| == |order|
            && (forall i | 0 <= i < |order| :: Reports(e, facts, order[i], r.findings[i]))
            && r.scorecard.conformed == |With(e, rubric, facts, Scoring, Pass)|
            && r.scorecard.variance == |With(e, rubric, facts, Scoring, Fail)|
            && r.scorecard.unassessable == |With(e, rubric, facts, Scoring, Unassessable)|
            && r.scorecard.totalOvercharge == Above(r.findings) && r.scorecard.totalUndercharge == Below(r.findings))
  {
    order := OrderedCriteria(e.keyOrder, rubric, Scoring);
    OrderLists(e, rubric, Scoring);
    var findings := FindingsOf(e, facts, order);
    forall c: Criterion<A> ensures Reports(e, facts, c, FindingOf(e, facts, c)) { FindingReports(e, facts, c); }
    CountedByVerdict(e, rubric, facts, Conformed, Pass);
    CountedByVerdict(e, rubric, facts, Variance, Fail);
    CountedByVerdict(e, rubric, facts, NotAssessed, Unassessable);
    AllDirectionsTell(e, facts, order);
    TotalsAreSums(findings);
    hide OrderedCriteria;
    hide FindingOf;
    hide Reports;
    hide ListsKind;
    hide FailuresOf;
    hide Above;
    hide Below;
  }

  lemma AllDirectionsTell<A, F>(e: Engine<A, F>, facts: F, scoring: seq<Criterion<A>>)
    ensures forall f | f in FindingsOf(e, facts, scoring) :: DirectionTells(f)
  {
    hide Bottom;
    hide CompareDelta;
  }

  /** What a gate failure says of its criterion. */
  predicate Rejects<A, F>(e: Engine<A, F>, facts: F, c: Criterion<A>, f: GateFailure) {
    && f.key == c.key && f.description == c.description && f.citation == c.citation
    && f.expr == e.interpret(c.ast, facts) && (f.unassessable <==> e.verdict(f.expr) == Unassessable)
  }

  lemma {:induction false} FailuresSay<A(!new), F>(e: Engine<A, F>, facts: F, gating: seq<Criterion<A>>,
                                                   p: Criterion<A> -> bool)
    requires forall c | c in gating :: p(c) <==> e.verdict(e.interpret(c.ast, facts)) != Pass
    ensures |FailuresOf(e, facts, gating)| == |Keep(gating, p)|
    ensures forall i | 0 <= i < |Keep(gating, p)| :: Rejects(e, facts, Keep(gating, p)[i],
                                                             FailuresOf(e, facts, gating)[i])
    decreases |gating|
  {
    if gating != [] {
      var n := |gating| - 1;
      var before, c := gating[..n], gating[n];
      FailuresSay(e, facts, before, p);
      assert gating == before + [c];
      KeepLast(before, c, p);
      hide Keep;
    }
  }

  /** A rejected result: one failure for each gate that did not pass, in evaluation order, saying what the interpreter
      answered for it. */
  lemma RejectedSays<A(!new), F, M>(e: Engine<A, F>, rubric: seq<Criterion<A>>, facts: F, markers: M,
                                    parserVersion: Text, engineVersion: Text)
    returns (order: seq<Criterion<A>>)
    requires TotalOrder(e.keyOrder)
    ensures ListsKind(e, rubric, Gating, order)
    ensures var r := Evaluated(e, rubric, facts, markers, parserVersion, engineVersion);
            var blocked := Keep(order, (c: Criterion<A>) => e.verdict(e.interpret(c.ast, facts)) != Pass);
      && (r.RejectedRework? <==> blocked != [])
      && (r.RejectedRework? ==>
            && |r.gateFailures| == |blocked|
            && forall i | 0 <= i < |blocked| :: Rejects(e, facts, blocked[i], r.gateFailures[i]))
  {
    order := OrderedCriteria(e.keyOrder, rubric, Gating);
    OrderLists(e, rubric, Gating);
    FailuresSay(e, facts, order, (c: Criterion<A>) => e.verdict(e.interpret(c.ast, facts)) != Pass);
    hide OrderedCriteria;
    hide ListsKind;
    hide FailuresOf;
    hide FindingsOf;
    hide ScorecardOf;
    hide Rejects;
  }
}
