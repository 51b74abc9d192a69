/** What every serial run of the money lifecycle keeps: lines match the findings they were made of, disputes their
    lines, claims their disputes, recoveries their claims, no finding lies under two claimed disputes, and the terminal
    rows of the audit ledger say what the claims say. */
module LedgerRuns {
  import opened Ledger
  import opened Sums

  // ---- runs ----------------------------------------------------------------------------------

  datatype Op =
    | RecordFinding(id: Id, row: Finding)
    | FindingAction(account: Id, id: Id, to: FindingStatus)
    | NewDispute(account: Id, ids: seq<Id>, newId: Id)
    | DisputeResponse(account: Id, dispute: Id, response: Response)
    | NewClaim(account: Id, dispute: Id, newId: Id)
    | PartialPayment(account: Id, claim: Id, amount: nat, currency: Currency, finding: Option<Id>, enqueueFails: bool)
    | Settlement(account: Id, claim: Id, kind: ResolutionKind, paid: Option<nat>, paidIn: Option<Currency>,
                 finding: Option<Id>, now: int)

  /** New row ids are unused ones. */
  predicate Fresh(t: Tables, op: Op) {
    match op
    case RecordFinding(id, f) => id !in t.findings && f.status == Open
    case NewDispute(_, _, newId) => newId !in t.disputes
    case NewClaim(_, _, newId) => newId !in t.claims
    case _ => true
  }

  ghost function After(t: Tables, op: Op): Tables {
    match op
    case RecordFinding(id, f) => t.(findings := t.findings[id := f])
    case FindingAction(account, id, to) => WithFindingStatus(t, account, id, to)
    case NewDispute(account, ids, newId) => CreateDispute(t, account, ids, newId).0
    case DisputeResponse(account, dispute, response) => Respond(t, account, dispute, response).0
    case NewClaim(account, dispute, newId) => CreateClaim(t, account, dispute, newId).0
    case PartialPayment(account, claim, amount, currency, finding, fails) =>
      RecordPartialRecovery(t, account, claim, amount, currency, finding, fails).0
    case Settlement(account, claim, kind, amount, currency, finding, now) =>
      ResolveClaim(t, account, claim, kind, amount, currency, finding, now).0
  }

  const EMPTY := Tables(map[], [], map[], [], map[], [], map[], [])

  ghost predicate Run(states: seq<Tables>, ops: seq<Op>) {
    && |states| == |ops| + 1 && states[0] == EMPTY
    && forall i | 0 <= i < |ops| :: Fresh(states[i], ops[i]) && states[i + 1] == After(states[i], ops[i])
  }

  // ---- the invariant: lines, disputes and claims ---------------------------------------------

  function Value(findings: map<Id, Finding>, f: Id): Money {
    if f in findings then AmountOf(findings[f]) else 0
  }

  ghost function Values(findings: map<Id, Finding>): Id -> int { (f: Id) => Value(findings, f) }

  function FindingsOf(lines: seq<DisputeLine>, dispute: Id): set<Id> {
    set i | 0 <= i < |lines| && lines[i].dispute == dispute :: lines[i].finding
  }

  /** A line repeats the amount and the currency of its finding, under the tenant of both. */
  predicate LineSound(t: Tables, l: DisputeLine) {
    && l.finding in t.findings && l.dispute in t.disputes
    && t.findings[l.finding].account == l.account == t.disputes[l.dispute].account
    && l.amount.Some? && l.amount == t.findings[l.finding].amount
    && l.currency.Some? && l.currency == t.findings[l.finding].currency && l.currency == t.disputes[l.dispute].currency
  }

  predicate LinesSound(t: Tables) { forall i | 0 <= i < |t.lines| :: LineSound(t, t.lines[i]) }

  predicate LinesDistinct(lines: seq<DisputeLine>) {
    forall i, j | 0 <= i < j < |lines| && lines[i].dispute == lines[j].dispute :: lines[i].finding != lines[j].finding
  }

  /** A dispute claims what its findings are worth together. */
  ghost predicate DisputesSound(t: Tables) {
    forall d | d in t.disputes ::
      && t.disputes[d].currency.Some?
      && t.disputes[d].amountClaimed == Some(SumOver(FindingsOf(t.lines, d), Values(t.findings)))
  }

  predicate ClaimSound(t: Tables, c: Claim) {
    && c.dispute in t.disputes && c.account == t.disputes[c.dispute].account
    && c.amountClaimed > 0
    && t.disputes[c.dispute].amountClaimed == Some(c.amountClaimed)
    && c.currency.Some? && c.currency == t.disputes[c.dispute].currency
  }

  predicate ClaimsSound(t: Tables) { forall c | c in t.claims :: ClaimSound(t, t.claims[c]) }

  predicate OneClaimPerDispute(t: Tables) {
    forall c, d | c in t.claims && d in t.claims && t.claims[c].dispute == t.claims[d].dispute :: c == d
  }

  predicate Claimed(t: Tables, dispute: Id) { exists c :: c in t.claims && t.claims[c].dispute == dispute }

  /** No finding lies under two claimed disputes. */
  predicate NoDoubleClaim(t: Tables) {
    forall i, j | 0 <= i < |t.lines| && 0 <= j < |t.lines| && t.lines[i].finding == t.lines[j].finding
                  && Claimed(t, t.lines[i].dispute) && Claimed(t, t.lines[j].dispute) ::
      t.lines[i].dispute == t.lines[j].dispute
  }

  ghost predicate ClaimInvariant(t: Tables) {
    LinesSound(t) && LinesDistinct(t.lines) && DisputesSound(t) && ClaimsSound(t) && OneClaimPerDispute(t)
        && NoDoubleClaim(t)
  }

  // ---- the invariant: recoveries and resolutions ---------------------------------------------

  predicate RecoverySound(t: Tables, e: RecoveryEvent) {
    e.claim in t.claims && e.account == t.claims[e.claim].account && e.amount > 0
        && e.currency == t.claims[e.claim].currency
  }

  function Total(t: Tables, c: Id): Money
    requires c in t.claims
  {
    RecoveredOn(t.recoveries, t.claims[c].account, c)
  }

  predicate RecoveriesSound(t: Tables) {
    && (forall i | 0 <= i < |t.recoveries| :: RecoverySound(t, t.recoveries[i]))
    && forall c | c in t.claims ::
         && Total(t, c) <= t.claims[c].amountClaimed
         && (t.claims[c].status == Recovered ==> Total(t, c) == t.claims[c].amountClaimed)
  }

  /** Terminal status and terminal event coincide. */
  predicate ResolutionsSound(t: Tables) {
    && (forall k | k in t.audit ::
         && k.claim in t.claims && k.account == t.claims[k.claim].account
         && k.status == t.claims[k.claim].status && k.status != ClaimOpen)
    && forall c | c in t.claims && t.claims[c].status != ClaimOpen ::
         AuditKey(t.claims[c].account, c, t.claims[c].status) in t.audit
  }

  ghost predicate Invariant(t: Tables) { ClaimInvariant(t) && RecoveriesSound(t) && ResolutionsSound(t) }

  // ---- steps that leave money alone ----------------------------------------------------------

  /** Same amounts, tenants and currencies; statuses may differ; findings may have been added. */
  predicate FindingsKept(t: Tables, u: Tables) {
    forall f | f in t.findings ::
      f in u.findings && u.findings[f].(status := t.findings[f].status) == t.findings[f]
  }

  /** Same disputes up to status and accepted amount. */
  predicate DisputesKept(t: Tables, u: Tables) {
    && t.disputes.Keys == u.disputes.Keys
    && forall d | d in t.disputes ::
         u.disputes[d].(status := t.disputes[d].status, acceptedAmount := t.disputes[d].acceptedAmount) == t.disputes[d]
  }

  lemma SameWorth(t: Tables, u: Tables, d: Id)
    requires LinesSound(t) && FindingsKept(t, u)
    ensures SumOver(FindingsOf(t.lines, d), Values(t.findings)) == SumOver(FindingsOf(t.lines, d), Values(u.findings))
  {
    forall f | f in FindingsOf(t.lines, d) ensures Values(t.findings)(f) == Values(u.findings)(f) {
      var i :| 0 <= i < |t.lines| && t.lines[i].dispute == d && t.lines[i].finding == f;
      assert LineSound(t, t.lines[i]);
    }
    SumSame(FindingsOf(t.lines, d), Values(t.findings), Values(u.findings));
  }

  lemma QuietStepKeepsDisputes(t: Tables, u: Tables)
    requires LinesSound(t) && DisputesSound(t) && FindingsKept(t, u) && DisputesKept(t, u) && u.lines == t.lines
    ensures LinesSound(u) && DisputesSound(u)
  {
    assert LinesSound(u) by {
      hide SumOver;
      forall i | 0 <= i < |u.lines| ensures LineSound(u, u.lines[i]) { assert LineSound(t, t.lines[i]); }
    }
    forall d | d in u.disputes
      ensures u.disputes[d].amountClaimed == Some(SumOver(FindingsOf(u.lines, d), Values(u.findings)))
          && u.disputes[d].currency.Some?
    {
      SameWorth(t, u, d);
      hide LinesSound;
      hide FindingsKept;
    }
  }

  lemma QuietStepKeepsClaims(t: Tables, u: Tables)
    requires ClaimsSound(t) && DisputesKept(t, u) && u.claims == t.claims
    ensures ClaimsSound(u)
  {
    forall c | c in u.claims ensures ClaimSound(u, u.claims[c]) { assert ClaimSound(t, t.claims[c]); }
  }

  lemma QuietStepKeepsClaimInvariant(t: Tables, u: Tables)
    requires ClaimInvariant(t) && FindingsKept(t, u) && DisputesKept(t, u) && u.lines == t.lines && u.claims == t.claims
    ensures ClaimInvariant(u)
  {
    QuietStepKeepsDisputes(t, u);
    QuietStepKeepsClaims(t, u);
    hide LinesSound;
    hide DisputesSound;
    hide ClaimsSound;
    hide FindingsKept;
    hide DisputesKept;
    assert forall d :: Claimed(t, d) <==> Claimed(u, d);
    assert NoDoubleClaim(u) && OneClaimPerDispute(u);
  }

  lemma QuietStepKeepsRecoveries(t: Tables, u: Tables)
    requires RecoveriesSound(t) && ResolutionsSound(t) && u.claims == t.claims && u.recoveries == t.recoveries
        && u.audit == t.audit
    ensures RecoveriesSound(u) && ResolutionsSound(u)
  {
    forall i | 0 <= i < |u.recoveries| ensures RecoverySound(u, u.recoveries[i]) {
      assert RecoverySound(t, t.recoveries[i]);
    }
    forall c | c in u.claims ensures Total(u, c) == Total(t, c) {}
  }

  // ---- dispute creation ----------------------------------------------------------------------

  function NewLines(account: Id, dispute: Id, rows: seq<Row>): seq<DisputeLine> {
    seq(|rows|, i requires 0 <= i < |rows| => DisputeLine(account, dispute, rows[i].id, rows[i].finding.amount,
                                                          rows[i].finding.currency))
  }

  function IdSet(rows: seq<Row>): set<Id> { set i | 0 <= i < |rows| :: rows[i].id }

  lemma IdSetGrows(rows: seq<Row>, n: nat)
    requires n < |rows|
    ensures IdSet(rows[..n + 1]) == IdSet(rows[..n]) + {rows[n].id}
  {
    forall x | x in IdSet(rows[..n + 1]) ensures x in IdSet(rows[..n]) + {rows[n].id} {
      var i :| 0 <= i <= n && rows[..n + 1][i].id == x;
      if i < n { assert rows[..n][i].id == x; }
    }
    forall x | x in IdSet(rows[..n]) + {rows[n].id} ensures x in IdSet(rows[..n + 1]) {
      if x == rows[n].id {
        assert rows[..n + 1][n].id == x;
      } else {
        var i :| 0 <= i < n && rows[..n][i].id == x;
        assert rows[..n + 1][i].id == x;
      }
    }
  }

  /** The listed findings of the tenant moved to `queued_for_dispute`. */
  function Queued(findings: map<Id, Finding>, account: Id, ids: set<Id>): map<Id, Finding> {
    map f | f in findings :: if findings[f].account == account && f in ids then findings[f].(status := QueuedForDispute)
        else findings[f]
  }

  lemma QueuedOneMore(findings: map<Id, Finding>, account: Id, ids: set<Id>, x: Id)
    requires x in findings && findings[x].account == account
    ensures Queued(findings, account, ids + {x})
         == Queued(findings, account, ids)[x := findings[x].(status := QueuedForDispute)]
    ensures x in Queued(findings, account, ids) && Queued(findings, account, ids)[x].account == account
    ensures Queued(findings, account, ids)[x].(status := QueuedForDispute) == findings[x].(status := QueuedForDispute)
  {
  }

  /** The fold over the claimable rows: a line for each, and each finding moved. */
  lemma {:induction false} WithLinesEffect(t: Tables, account: Id, dispute: Id, rows: seq<Row>)
    requires forall i | 0 <= i < |rows| :: rows[i].id in t.findings && t.findings[rows[i].id].account == account
    ensures var u := WithLines(t, account, dispute, rows);
            u == t.(lines := t.lines + NewLines(account, dispute, rows),
                    findings := Queued(t.findings, account, IdSet(rows)),
                    history := u.history)
    decreases |rows|
  {
    if rows != [] {
      var n := |rows| - 1;
      var before := WithLines(t, account, dispute, rows[..n]);
      WithLinesEffect(t, account, dispute, rows[..n]);
      IdSetGrows(rows, n);
      assert rows[..n + 1] == rows;
      QueuedOneMore(t.findings, account, IdSet(rows[..n]), rows[n].id);
      assert NewLines(account, dispute, rows)
          == NewLines(account, dispute, rows[..n])
              + [DisputeLine(account, dispute, rows[n].id, rows[n].finding.amount, rows[n].finding.currency)];
      hide Queued;
      hide IdSet;
      hide NewLines;
      assert WithLines(t, account, dispute, rows) == WithLine(before, account, dispute, rows[n]);
    } else {
      assert Queued(t.findings, account, {}) == t.findings;
      assert IdSet(rows) == {};
    }
  }

  /** The rows are findings of the tenant as stored, none an undercharge, in id order. */
  predicate RowsRead(t: Tables, account: Id, rows: seq<Row>) {
    && (forall i | 0 <= i < |rows| ::
         && rows[i].id in t.findings && rows[i].finding == t.findings[rows[i].id] && rows[i].finding.account == account
         && rows[i].finding.direction != Some(Undercharge))
    && (forall i, j | 0 <= i < j < |rows| :: rows[i].id < rows[j].id)
  }

  /** Every row is accepted and complete, and all name one carrier and one currency. */
  predicate Agreeing(rows: seq<Row>) {
    forall i | 0 <= i < |rows| ::
      && RowError(rows[i].finding) == None
      && rows[i].finding.currency == rows[0].finding.currency && rows[i].finding.carrier == rows[0].finding.carrier
  }

  predicate RowsOf(t: Tables, account: Id, rows: seq<Row>) { RowsRead(t, account, rows) && Agreeing(rows) }

  lemma {:induction false} SelectedAscends(findings: map<Id, Finding>, account: Id, ids: seq<Id>)
    requires forall i, j | 0 <= i < j < |ids| :: ids[i] < ids[j]
    ensures forall i, j | 0 <= i < j < |Selected(findings, account, ids)| ::
              Selected(findings, account, ids)[i].id < Selected(findings, account, ids)[j].id
    decreases |ids|
  {
    if ids != [] {
      var rest := Selected(findings, account, ids[1..]);
      SelectedAscends(findings, account, ids[1..]);
      forall i | 0 <= i < |rest| ensures ids[0] < rest[i].id {
        var j :| 0 <= j < |ids[1..]| && ids[1..][j] == rest[i].id;
        assert ids[j + 1] == rest[i].id;
      }
    }
  }

  lemma {:induction false} ClaimableAscends(rows: seq<Row>)
    requires forall i, j | 0 <= i < j < |rows| :: rows[i].id < rows[j].id
    ensures forall i, j | 0 <= i < j < |Claimable(rows)| :: Claimable(rows)[i].id < Claimable(rows)[j].id
    decreases |rows|
  {
    if rows != [] {
      var rest := Claimable(rows[1..]);
      ClaimableAscends(rows[1..]);
      forall i | 0 <= i < |rest| ensures rows[0].id < rest[i].id {
        assert rest[i] in rows[1..];
        var j :| 0 <= j < |rows[1..]| && rows[1..][j] == rest[i];
        assert rows[j + 1] == rest[i];
      }
    }
  }

  lemma ClaimableRowsRead(t: Tables, account: Id, ids: seq<Id>)
    ensures RowsRead(t, account, Claimable(Selected(t.findings, account, Ascending(ids))))
  {
    var rows := Selected(t.findings, account, Ascending(ids));
    SelectedAscends(t.findings, account, Ascending(ids));
    ClaimableAscends(rows);
    var claimable := Claimable(rows);
    forall i | 0 <= i < |claimable|
      ensures claimable[i].id in t.findings && claimable[i].finding == t.findings[claimable[i].id]
              && claimable[i].finding.account == account && claimable[i].finding.direction != Some(Undercharge)
    {
      assert claimable[i] in rows;
      var j :| 0 <= j < |rows| && rows[j] == claimable[i];
    }
  }

  /** What a passed validation means for the rows a dispute is made of. */
  lemma ValidationMeaning(rows: seq<Row>)
    ensures DisputableError(rows) == None <==> Claimable(rows) != [] && Agreeing(Claimable(rows))
  {
    var claimable := Claimable(rows);
    hide Claimable;
    hide RowError;
    if DisputableError(rows) == None {
      assert FirstRowError(claimable) == None;
    }
  }

  lemma ValidRows(t: Tables, account: Id, ids: seq<Id>)
    ensures var rows := Selected(t.findings, account, Ascending(ids));
            DisputableError(rows) == None <==> Claimable(rows) != [] && RowsOf(t, account, Claimable(rows))
  {
    ClaimableRowsRead(t, account, ids);
    ValidationMeaning(Selected(t.findings, account, Ascending(ids)));
    hide DisputableError;
    hide Claimable;
    hide Selected;
    hide Ascending;
  }

  lemma {:induction false} TotalIsWorth(t: Tables, account: Id, rows: seq<Row>)
    requires RowsOf(t, account, rows)
    ensures TotalOf(rows) == SumOver(IdSet(rows), Values(t.findings))
    decreases |rows|
  {
    if rows != [] {
      var n := |rows| - 1;
      TotalIsWorth(t, account, rows[..n]);
      IdSetGrows(rows, n);
      assert rows[..n + 1] == rows;
      assert rows[n].id !in IdSet(rows[..n]);
      SumPutsIn(IdSet(rows[..n]), Values(t.findings), rows[n].id);
    }
  }

  function FirstDraft(account: Id, rows: seq<Row>): Dispute
    requires rows != []
  {
    Dispute(account, rows[0].finding.carrier, Draft, Some(TotalOf(rows)), rows[0].finding.currency, None)
  }

  /** Dispute creation, seen from the tables: it appends one line per claimable finding. */
  predicate Created(t: Tables, u: Tables, account: Id, dispute: Id, rows: seq<Row>) {
    && rows != [] && RowsOf(t, account, rows) && dispute !in t.disputes
    && u.disputes == t.disputes[dispute := FirstDraft(account, rows)]
    && u.lines == t.lines + NewLines(account, dispute, rows)
    && u.findings == Queued(t.findings, account, IdSet(rows))
    && u.claims == t.claims && u.recoveries == t.recoveries && u.audit == t.audit
  }

  lemma CreateDisputeEffect(t: Tables, account: Id, ids: seq<Id>, newId: Id)
    requires newId !in t.disputes
    ensures var (u, r) := CreateDispute(t, account, ids, newId);
            && (r.Failed? ==> u == t)
            && (r.Done? ==> Created(t, u, account, newId, Claimable(Selected(t.findings, account, Ascending(ids)))))
  {
    var rows := Selected(t.findings, account, Ascending(ids));
    var claimable := Claimable(rows);
    ValidRows(t, account, ids);
    hide Claimable;
    hide Selected;
    hide Ascending;
    hide DisputableError;
    hide RowsOf;
    hide TotalOf;
    hide NewLines;
    hide Queued;
    if DisputableError(rows) == None {
      var drafted := t.(disputes := t.disputes[newId := FirstDraft(account, claimable)]);
      WithLinesEffect(drafted, account, newId, claimable);
      hide WithLines;
    }
  }

  lemma OldLine(t: Tables, u: Tables, account: Id, dispute: Id, rows: seq<Row>, i: nat)
    requires LinesSound(t) && Created(t, u, account, dispute, rows) && i < |t.lines|
    ensures i < |u.lines| && u.lines[i] == t.lines[i] && LineSound(u, u.lines[i]) && u.lines[i].dispute != dispute
  {
    assert LineSound(t, t.lines[i]);
  }

  lemma NewLine(t: Tables, u: Tables, account: Id, dispute: Id, rows: seq<Row>, i: nat)
    requires Created(t, u, account, dispute, rows) && |t.lines| <= i < |u.lines|
    ensures i - |t.lines| < |rows| && u.lines[i].finding == rows[i - |t.lines|].id && LineSound(u, u.lines[i])
        && u.lines[i].dispute == dispute
  {
    var row := rows[i - |t.lines|];
    assert row.id in t.findings;
  }

  lemma LinesAfterCreation(t: Tables, u: Tables, account: Id, dispute: Id, rows: seq<Row>)
    requires LinesSound(t) && LinesDistinct(t.lines) && Created(t, u, account, dispute, rows)
    ensures LinesSound(u) && LinesDistinct(u.lines)
  {
    forall i | 0 <= i < |t.lines| ensures u.lines[i] == t.lines[i] && LineSound(u, u.lines[i])
        && u.lines[i].dispute != dispute {
      OldLine(t, u, account, dispute, rows, i);
    }
    forall i | |t.lines| <= i < |u.lines|
      ensures i - |t.lines| < |rows| && u.lines[i].finding == rows[i - |t.lines|].id && LineSound(u, u.lines[i])
          && u.lines[i].dispute == dispute
    {
      NewLine(t, u, account, dispute, rows, i);
    }
    assert forall i, j | 0 <= i < j < |rows| :: rows[i].id < rows[j].id;
    hide Created;
    hide LineSound;
    forall i, j | 0 <= i < j < |u.lines| && u.lines[i].dispute == u.lines[j].dispute
        ensures u.lines[i].finding != u.lines[j].finding {
      if j >= |t.lines| {
        assert i >= |t.lines|;
        assert rows[i - |t.lines|].id < rows[j - |t.lines|].id;
      }
    }
  }

  lemma FindingsAfterCreation(t: Tables, u: Tables, account: Id, dispute: Id, rows: seq<Row>)
    requires LinesSound(t) && Created(t, u, account, dispute, rows)
    ensures FindingsOf(u.lines, dispute) == IdSet(rows)
    ensures forall d | d in t.disputes :: FindingsOf(u.lines, d) == FindingsOf(t.lines, d)
  {
    var n := |t.lines|;
    assert |u.lines| == n + |rows|;
    forall i | 0 <= i < n ensures u.lines[i] == t.lines[i] && u.lines[i].dispute != dispute {
      OldLine(t, u, account, dispute, rows, i);
    }
    forall i | n <= i < |u.lines| ensures u.lines[i].finding == rows[i - n].id && u.lines[i].dispute == dispute {
      NewLine(t, u, account, dispute, rows, i);
    }
    assert dispute !in t.disputes;
    hide Created;
    forall x | x in IdSet(rows) ensures x in FindingsOf(u.lines, dispute) {
      var i :| 0 <= i < |rows| && rows[i].id == x;
      assert u.lines[n + i].finding == rows[n + i - n].id;
    }
    forall d | d in t.disputes ensures FindingsOf(u.lines, d) == FindingsOf(t.lines, d) {
      forall x | x in FindingsOf(t.lines, d) ensures x in FindingsOf(u.lines, d) {
        var i :| 0 <= i < n && t.lines[i].dispute == d && t.lines[i].finding == x;
        assert u.lines[i].finding == x;
      }
    }
  }

  lemma FindingsKeptByCreation(t: Tables, u: Tables, account: Id, dispute: Id, rows: seq<Row>)
    requires Created(t, u, account, dispute, rows)
    ensures FindingsKept(t, u)
    ensures forall f :: Value(u.findings, f) == Value(t.findings, f)
  {
  }

  lemma DisputesAfterCreation(t: Tables, u: Tables, account: Id, dispute: Id, rows: seq<Row>)
    requires LinesSound(t) && DisputesSound(t) && Created(t, u, account, dispute, rows)
    ensures DisputesSound(u)
  {
    FindingsAfterCreation(t, u, account, dispute, rows);
    FindingsKeptByCreation(t, u, account, dispute, rows);
    TotalIsWorth(t, account, rows);
    assert u.disputes == t.disputes[dispute := FirstDraft(account, rows)] && rows[0].finding.currency.Some?;
    hide Created;
    hide RowsOf;
    hide TotalOf;
    hide Value;
    hide IdSet;
    hide FindingsOf;
    SumSame(IdSet(rows), Values(t.findings), Values(u.findings));
    forall d | d in u.disputes
      ensures u.disputes[d].amountClaimed == Some(SumOver(FindingsOf(u.lines, d), Values(u.findings)))
          && u.disputes[d].currency.Some?
    {
      if d != dispute { SameWorth(t, u, d); }
    }
  }

  lemma NoDoubleClaimAfterCreation(t: Tables, u: Tables, account: Id, dispute: Id, rows: seq<Row>)
    requires LinesSound(t) && ClaimsSound(t) && NoDoubleClaim(t) && Created(t, u, account, dispute, rows)
    ensures NoDoubleClaim(u) && ClaimsSound(u)
  {
    assert u.claims == t.claims && dispute !in t.disputes;
    forall c | c in u.claims ensures ClaimSound(u, u.claims[c]) && u.claims[c].dispute != dispute {
      assert ClaimSound(t, t.claims[c]);
    }
    forall i | 0 <= i < |u.lines|
      ensures i < |t.lines| ==> u.lines[i] == t.lines[i]
      ensures i >= |t.lines| ==> u.lines[i].dispute == dispute
    {
      if i < |t.lines| { OldLine(t, u, account, dispute, rows, i); } else { NewLine(t, u, account, dispute, rows, i); }
    }
    hide Created;
    hide LinesSound;
    hide ClaimsSound;
    assert !Claimed(u, dispute);
    assert forall d :: Claimed(t, d) <==> Claimed(u, d);
  }

  lemma CreationKeepsInvariant(t: Tables, u: Tables, account: Id, dispute: Id, rows: seq<Row>)
    requires Invariant(t) && Created(t, u, account, dispute, rows)
    ensures Invariant(u)
  {
    LinesAfterCreation(t, u, account, dispute, rows);
    DisputesAfterCreation(t, u, account, dispute, rows);
    NoDoubleClaimAfterCreation(t, u, account, dispute, rows);
    QuietStepKeepsRecoveries(t, u);
  }

  // ---- claim creation ------------------------------------------------------------------------

  lemma ClaimsOnMeaning(t: Tables, account: Id, dispute: Id)
    requires ClaimsSound(t) && dispute in t.disputes && t.disputes[dispute].account == account
    ensures HasClaim(t, account, dispute) <==> Claimed(t, dispute)
  {
    if Claimed(t, dispute) {
      var c :| c in t.claims && t.claims[c].dispute == dispute;
      assert ClaimSound(t, t.claims[c]);
      assert c in ClaimsOn(t, account, dispute);
    }
    if HasClaim(t, account, dispute) {
      var c :| c in ClaimsOn(t, account, dispute);
    }
  }

  /** The finding also lies under another dispute, and that one is claimed. */
  predicate ClaimedElsewhere(t: Tables, dispute: Id, f: Id) {
    exists j :: 0 <= j < |t.lines| && t.lines[j].finding == f && t.lines[j].dispute != dispute
        && Claimed(t, t.lines[j].dispute)
  }

  /** The guard reports exactly the findings of the dispute that lie under another, claimed one. */
  lemma DuplicateGuardMeaning(t: Tables, account: Id, dispute: Id)
    requires LinesSound(t) && ClaimsSound(t) && dispute in t.disputes && t.disputes[dispute].account == account
    ensures AlreadyClaimed(t, account, dispute) == set f | f in FindingsOf(t.lines, dispute)
        && ClaimedElsewhere(t, dispute, f)
  {
    var found := AlreadyClaimed(t, account, dispute);
    forall j | 0 <= j < |t.lines| ensures HasClaim(t, t.lines[j].account, t.lines[j].dispute)
        <==> Claimed(t, t.lines[j].dispute) {
      assert LineSound(t, t.lines[j]);
      ClaimsOnMeaning(t, t.lines[j].account, t.lines[j].dispute);
    }
    forall f | f in FindingsOf(t.lines, dispute) && ClaimedElsewhere(t, dispute, f) ensures f in found {
      var i :| 0 <= i < |t.lines| && t.lines[i].dispute == dispute && t.lines[i].finding == f;
      var j :| 0 <= j < |t.lines| && t.lines[j].finding == f && t.lines[j].dispute != dispute
          && Claimed(t, t.lines[j].dispute);
      assert LineSound(t, t.lines[i]) && LineSound(t, t.lines[j]);
    }
    forall f | f in found ensures f in FindingsOf(t.lines, dispute) && ClaimedElsewhere(t, dispute, f) {
      var i, j :| 0 <= i < |t.lines| && 0 <= j < |t.lines|
               && t.lines[i].account == account && t.lines[i].dispute == dispute
               && t.lines[j].account == t.lines[i].account && t.lines[j].finding == t.lines[i].finding
               && t.lines[j].dispute != t.lines[i].dispute
               && HasClaim(t, t.lines[j].account, t.lines[j].dispute) && f == t.lines[i].finding;
    }
  }

  /** What the guard lets through: no finding of the dispute lies under another, claimed one. */
  lemma DuplicateGuardPasses(t: Tables, account: Id, dispute: Id)
    requires LinesSound(t) && ClaimsSound(t) && dispute in t.disputes && t.disputes[dispute].account == account
    requires AlreadyClaimed(t, account, dispute) == {}
    ensures forall i, j | 0 <= i < |t.lines| && 0 <= j < |t.lines| && t.lines[i].finding == t.lines[j].finding
                          && t.lines[i].dispute == dispute && Claimed(t, t.lines[j].dispute) ::
                              t.lines[j].dispute == dispute
  {
    DuplicateGuardMeaning(t, account, dispute);
    hide AlreadyClaimed;
    forall i, j | 0 <= i < |t.lines| && 0 <= j < |t.lines| && t.lines[i].finding == t.lines[j].finding
                  && t.lines[i].dispute == dispute && Claimed(t, t.lines[j].dispute)
      ensures t.lines[j].dispute == dispute
    {
      var f := t.lines[i].finding;
      assert f in FindingsOf(t.lines, dispute);
      assert f !in AlreadyClaimed(t, account, dispute);
    }
  }

  /** Opening one claim, seen from the tables. */
  predicate Claiming(t: Tables, u: Tables, c: Id, claim: Claim) {
    && c !in t.claims && ClaimSound(t, claim) && claim.status == ClaimOpen
    && !Claimed(t, claim.dispute) && AlreadyClaimed(t, claim.account, claim.dispute) == {}
    && u == t.(claims := t.claims[c := claim])
  }

  lemma ClaimedAfterClaim(t: Tables, u: Tables, c: Id, claim: Claim)
    requires c !in t.claims && u == t.(claims := t.claims[c := claim])
    ensures forall d :: Claimed(u, d) <==> d == claim.dispute || Claimed(t, d)
  {
    assert Claimed(u, claim.dispute) by { assert c in u.claims && u.claims[c].dispute == claim.dispute; }
    forall d | Claimed(t, d) ensures Claimed(u, d) {
      var k :| k in t.claims && t.claims[k].dispute == d;
      assert k in u.claims && u.claims[k].dispute == d;
    }
    forall d | Claimed(u, d) && d != claim.dispute ensures Claimed(t, d) {
      var k :| k in u.claims && u.claims[k].dispute == d;
      assert k in t.claims && t.claims[k].dispute == d;
    }
  }

  lemma ClaimInvariantAfterClaim(t: Tables, u: Tables, c: Id, claim: Claim)
    requires ClaimInvariant(t) && Claiming(t, u, c, claim)
    ensures ClaimInvariant(u)
  {
    DuplicateGuardPasses(t, claim.account, claim.dispute);
    ClaimedAfterClaim(t, u, c, claim);
    hide AlreadyClaimed;
    assert LinesSound(u) by {
      forall i | 0 <= i < |u.lines| ensures LineSound(u, u.lines[i]) { assert LineSound(t, t.lines[i]); }
    }
    assert ClaimsSound(u) by {
      forall k | k in u.claims ensures ClaimSound(u, u.claims[k]) {
        assert k != c ==> ClaimSound(t, t.claims[k]);
        assert ClaimSound(t, claim);
      }
    }
    assert OneClaimPerDispute(u) by {
      forall k, e | k in u.claims && e in u.claims && u.claims[k].dispute == u.claims[e].dispute ensures k == e {
        assert k != c ==> Claimed(t, t.claims[k].dispute);
        assert e != c ==> Claimed(t, t.claims[e].dispute);
      }
    }
    hide LinesSound;
    hide ClaimsSound;
    hide Claimed;
  }

  lemma RecoveriesAfterClaim(t: Tables, u: Tables, c: Id, claim: Claim)
    requires RecoveriesSound(t) && ResolutionsSound(t) && Claiming(t, u, c, claim)
    ensures RecoveriesSound(u) && ResolutionsSound(u)
  {
    assert claim.amountClaimed > 0 && claim.status == ClaimOpen && c !in t.claims
        && u == t.(claims := t.claims[c := claim]);
    hide Claiming;
    NothingRecovered(t, claim.account, c, |t.recoveries|);
    hide RecoveredOn;
    forall i | 0 <= i < |u.recoveries| ensures RecoverySound(u, u.recoveries[i]) {
      assert RecoverySound(t, t.recoveries[i]);
    }
    forall k | k in u.claims ensures Total(u, k) <= u.claims[k].amountClaimed
        && (u.claims[k].status == Recovered ==> Total(u, k) == u.claims[k].amountClaimed) {
      assert k != c ==> Total(t, k) == Total(u, k);
    }
  }

  lemma NewClaimEffect(t: Tables, account: Id, dispute: Id, newId: Id)
    requires ClaimInvariant(t) && newId !in t.claims
    ensures var (u, r) := CreateClaim(t, account, dispute, newId);
            if r.Done? && r.value.created then newId in u.claims && Claiming(t, u, newId, u.claims[newId]) else u == t
  {
    var (u, r) := CreateClaim(t, account, dispute, newId);
    hide SumOver;
    hide AlreadyClaimed;
    if r.Done? && r.value.created { ClaimsOnMeaning(t, account, dispute); }
  }

  lemma {:induction false} NothingRecovered(t: Tables, account: Id, c: Id, n: nat)
    requires RecoveriesSound(t) && c !in t.claims && n <= |t.recoveries|
    ensures RecoveredOn(t.recoveries[..n], account, c) == 0
    ensures n == |t.recoveries| ==> t.recoveries[..n] == t.recoveries
    decreases n
  {
    if n > 0 {
      NothingRecovered(t, account, c, n - 1);
      assert RecoverySound(t, t.recoveries[n - 1]);
      assert t.recoveries[..n][..n - 1] == t.recoveries[..n - 1];
    }
  }

  // ---- payments and settlements --------------------------------------------------------------

  /** One more recovery event raises the total of its own claim and of no other. */
  lemma OneMoreRecovery(events: seq<RecoveryEvent>, e: RecoveryEvent, account: Id, c: Id)
    ensures RecoveredOn(events + [e], account, c) == RecoveredOn(events, account, c) + if e.account == account
        && e.claim == c then e.amount else 0
  {
    assert (events + [e])[..|events|] == events;
  }

  lemma OneMore(t: Tables, e: RecoveryEvent)
    ensures forall a, c :: RecoveredOn(t.recoveries + [e], a, c)
                        == RecoveredOn(t.recoveries, a, c) + if e.account == a && e.claim == c then e.amount else 0
  {
    forall a, c
      ensures RecoveredOn(t.recoveries + [e], a, c)
           == RecoveredOn(t.recoveries, a, c) + if e.account == a && e.claim == c then e.amount else 0
    {
      OneMoreRecovery(t.recoveries, e, a, c);
    }
  }

  /** A payment, seen from the tables. */
  predicate Paid(t: Tables, u: Tables, e: RecoveryEvent) {
    && RecoverySound(t, e) && Total(t, e.claim) + e.amount <= t.claims[e.claim].amountClaimed
    && u == t.(recoveries := t.recoveries + [e], outbox := u.outbox)
  }

  lemma PaymentEffect(t: Tables, account: Id, claim: Id, amount: nat, currency: Currency, finding: Option<Id>,
                      fails: bool)
    requires ClaimsSound(t)
    ensures var (u, r) := RecordPartialRecovery(t, account, claim, amount, currency, finding, fails);
            if r.Done? then Paid(t, u, RecoveryEvent(account, claim, finding, amount, Some(currency))) else u == t
  {
    assert claim in t.claims ==> ClaimSound(t, t.claims[claim]);
    hide RecoveredOn;
  }

  lemma PaymentKeepsInvariant(t: Tables, u: Tables, e: RecoveryEvent)
    requires Invariant(t) && Paid(t, u, e)
    ensures Invariant(u)
  {
    assert FindingsKept(t, u) && DisputesKept(t, u);
    QuietStepKeepsClaimInvariant(t, u);
    RecoveriesAfterPayment(t, u, e);
    hide ClaimInvariant;
  }

  lemma RecoveriesAfterPayment(t: Tables, u: Tables, e: RecoveryEvent)
    requires RecoveriesSound(t) && ResolutionsSound(t) && Paid(t, u, e)
    ensures RecoveriesSound(u) && ResolutionsSound(u)
  {
    OneMore(t, e);
    hide RecoveredOn;
    forall i | 0 <= i < |u.recoveries| ensures RecoverySound(u, u.recoveries[i]) {
      assert i < |t.recoveries| ==> RecoverySound(t, t.recoveries[i]);
    }
    assert forall c | c in u.claims :: Total(u, c) == Total(t, c) + if c == e.claim then e.amount else 0;
  }

  /** A settlement, seen from the tables. */
  predicate Settled(t: Tables, u: Tables, account: Id, claim: Id, kind: ResolutionKind, amount: Option<Money>,
                    e: RecoveryEvent) {
    && claim in t.claims && t.claims[claim].account == account && t.claims[claim].status == ClaimOpen
    && FindingsKept(t, u) && u.disputes == t.disputes && u.lines == t.lines
    && u.claims == t.claims[claim := t.claims[claim].(status := TargetStatus(kind))]
    && u.recoveries == (if amount == None then t.recoveries else t.recoveries + [e])
    && (amount.Some? ==> e.account == account && e.claim == claim && e.amount == amount.value > 0
                         && e.currency == t.claims[claim].currency
                         && Total(t, claim) + amount.value <= t.claims[claim].amountClaimed)
    && (kind == FullRecovery ==> amount.Some? && Total(t, claim) + amount.value == t.claims[claim].amountClaimed)
    && u.audit.Keys == t.audit.Keys + {AuditKey(account, claim, TargetStatus(kind))}
  }

  /** In a sound state the audit write of a settlement never conflicts. */
  lemma NoAuditConflict(t: Tables, account: Id, claim: Id, kind: ResolutionKind)
    requires ResolutionsSound(t) && claim in t.claims && t.claims[claim].status == ClaimOpen
    ensures AuditKey(account, claim, TargetStatus(kind)) !in t.audit
  {
  }

  /** The checks of a resolution, as the facts they leave behind. */
  lemma ResolutionPasses(c: Claim, kind: ResolutionKind, prior: Money, amount: Option<Money>,
                         currency: Option<Currency>)
    requires c.currency.Some?
    requires ResolutionError(c, kind, prior, amount, currency) == None
    ensures c.status == ClaimOpen
    ensures amount.Some? ==> 0 < amount.value && prior + amount.value <= c.amountClaimed && currency == c.currency
    ensures kind == FullRecovery ==> amount.Some? && prior + amount.value == c.amountClaimed
    ensures kind == WriteOff && amount.Some? ==> prior + amount.value < c.amountClaimed
    ensures kind == Denial ==> amount == None
  {
  }

  /** Exactly when a settlement goes through; in a sound state its audit write never conflicts. */
  lemma SettlementPasses(t: Tables, account: Id, claim: Id, kind: ResolutionKind, amount: Option<nat>,
                         currency: Option<Currency>,
                         finding: Option<Id>, now: int)
    requires ClaimsSound(t) && ResolutionsSound(t)
    ensures SettlementError(t, account, claim, kind, amount, currency, finding, now) != Some(AuditEventConflict)
    ensures SettlementError(t, account, claim, kind, amount, currency, finding, now) == None
       <==> claim in t.claims && t.claims[claim].account == account && (amount != None ==> NamesFinding(t, finding))
            && ResolutionError(t.claims[claim], kind, Total(t, claim), amount, currency) == None
  {
    if claim in t.claims && t.claims[claim].account == account && t.claims[claim].status == ClaimOpen {
      NoAuditConflict(t, account, claim, kind);
    }
    hide ClaimsSound;
    hide ResolutionsSound;
    hide RecoveredOn;
    hide AmountAndCurrencyError;
  }

  lemma SettleEffect(t: Tables, account: Id, claim: Id, kind: ResolutionKind, amount: Option<nat>,
                     currency: Option<Currency>,
                     finding: Option<Id>, now: int)
    requires ClaimsSound(t) && ResolutionsSound(t) && claim in t.claims && t.claims[claim].account == account
    requires ResolutionError(t.claims[claim], kind, Total(t, claim), amount, currency) == None
    ensures Settled(t, Settle(t, account, claim, kind, amount, currency, finding, now), account, claim, kind, amount,
                    RecoveryEvent(account, claim, finding, if amount == None then 0 else amount.value, currency))
  {
    hide RecoveredOn;
    assert ClaimSound(t, t.claims[claim]);
    ResolutionPasses(t.claims[claim], kind, Total(t, claim), amount, currency);
    NoAuditConflict(t, account, claim, kind);
    hide ClaimsSound;
    hide ResolutionsSound;
    hide ResolutionError;
    var resolved := WithRecovery(t, account, claim, amount, currency,
                                 finding).(claims := t.claims[claim := t.claims[claim].(status := TargetStatus(kind))]);
    MirrorKeeps(resolved, account, kind, finding);
    assert FindingsKept(t, WithMirror(resolved, account, kind, finding));
    hide FindingsKept;
    hide WithMirror;
  }

  lemma ResolveClaimEffect(t: Tables, account: Id, claim: Id, kind: ResolutionKind, amount: Option<nat>,
                           currency: Option<Currency>,
                           finding: Option<Id>, now: int)
    requires ClaimsSound(t) && ResolutionsSound(t)
    ensures var (u, r) := ResolveClaim(t, account, claim, kind, amount, currency, finding, now);
            && r != Failed(AuditEventConflict)
            && (r.Failed? ==> u == t)
            && (r.Done? ==> Settled(t, u, account, claim, kind, amount,
                                    RecoveryEvent(account, claim, finding, if amount == None then 0 else amount.value,
                                                  currency)))
  {
    SettlementPasses(t, account, claim, kind, amount, currency, finding, now);
    if SettlementError(t, account, claim, kind, amount, currency, finding, now) == None {
      SettleEffect(t, account, claim, kind, amount, currency, finding, now);
    }
    hide SettlementError;
    hide Settle;
    hide Settled;
  }

  lemma MirrorKeeps(t: Tables, account: Id, kind: ResolutionKind, finding: Option<Id>)
    ensures var u := WithMirror(t, account, kind, finding);
            FindingsKept(t, u) && u == t.(findings := u.findings, history := u.history)
  {
  }

  lemma StatusesDoNotMatter(v: Tables, u: Tables)
    requires ClaimInvariant(v) && u.lines == v.lines && u.findings == v.findings && u.disputes == v.disputes
    requires u.claims.Keys == v.claims.Keys && forall c | c in v.claims ::
        u.claims[c].(status := v.claims[c].status) == v.claims[c]
    ensures ClaimInvariant(u)
  {
    assert LinesSound(u) by {
      forall i | 0 <= i < |u.lines| ensures LineSound(u, u.lines[i]) { assert LineSound(v, v.lines[i]); }
    }
    assert DisputesSound(u);
    assert ClaimsSound(u) by {
      forall c | c in u.claims ensures ClaimSound(u, u.claims[c]) { assert ClaimSound(v, v.claims[c]); }
    }
    hide LinesSound;
    hide ClaimsSound;
    hide DisputesSound;
    forall d ensures Claimed(u, d) <==> Claimed(v, d) {
      if Claimed(v, d) {
        var c :| c in v.claims && v.claims[c].dispute == d;
        assert u.claims[c].dispute == d;
      }
      if Claimed(u, d) {
        var c :| c in u.claims && u.claims[c].dispute == d;
        assert v.claims[c].dispute == d;
      }
    }
    assert OneClaimPerDispute(u) by {
      forall c, e | c in u.claims && e in u.claims && u.claims[c].dispute == u.claims[e].dispute ensures c == e {
        assert v.claims[c].dispute == v.claims[e].dispute;
      }
    }
    hide OneClaimPerDispute;
    hide Claimed;
  }

  lemma ClaimsAfterSettlement(t: Tables, u: Tables, account: Id, claim: Id, kind: ResolutionKind, amount: Option<Money>,
                              e: RecoveryEvent)
    requires ClaimInvariant(t) && Settled(t, u, account, claim, kind, amount, e)
    ensures ClaimInvariant(u)
  {
    hide ClaimInvariant;
    hide RecoveredOn;
    var v := t.(findings := u.findings);
    assert FindingsKept(t, v) && DisputesKept(t, v);
    QuietStepKeepsClaimInvariant(t, v);
    assert u.claims.Keys == v.claims.Keys;
    hide FindingsKept;
    hide DisputesKept;
    StatusesDoNotMatter(v, u);
  }

  lemma RecoveriesAfterSettlement(t: Tables, u: Tables, account: Id, claim: Id, kind: ResolutionKind,
                                  amount: Option<Money>, e: RecoveryEvent)
    requires RecoveriesSound(t) && Settled(t, u, account, claim, kind, amount, e)
    ensures RecoveriesSound(u)
  {
    OneMore(t, e);
    hide RecoveredOn;
    hide FindingsKept;
    assert u.claims.Keys == t.claims.Keys;
    forall i | 0 <= i < |u.recoveries| ensures RecoverySound(u, u.recoveries[i]) {
      assert i < |t.recoveries| ==> RecoverySound(t, t.recoveries[i]);
    }
    forall c | c in u.claims
      ensures Total(u, c) == Total(t, c) + if c == claim && amount.Some? then amount.value else 0
    {
    }
  }

  lemma ResolutionsAfterSettlement(t: Tables, u: Tables, account: Id, claim: Id, kind: ResolutionKind,
                                   amount: Option<Money>, e: RecoveryEvent)
    requires ResolutionsSound(t) && Settled(t, u, account, claim, kind, amount, e)
    ensures ResolutionsSound(u)
  {
    hide RecoveredOn;
    hide FindingsKept;
    var key := AuditKey(account, claim, TargetStatus(kind));
    forall k | k in u.audit
      ensures k.claim in u.claims && k.account == u.claims[k.claim].account && k.status == u.claims[k.claim].status
          && k.status != ClaimOpen
    {
      assert k == key || k in t.audit.Keys;
    }
    forall c | c in u.claims && u.claims[c].status != ClaimOpen
      ensures AuditKey(u.claims[c].account, c, u.claims[c].status) in u.audit
    {
      assert AuditKey(u.claims[c].account, c, u.claims[c].status) in u.audit.Keys;
    }
  }

  // ---- every run -----------------------------------------------------------------------------

  lemma QuietStepEffect(t: Tables, op: Op)
    requires Fresh(t, op) && (op.RecordFinding? || op.FindingAction? || op.DisputeResponse?)
    ensures var u := After(t, op);
      FindingsKept(t, u) && DisputesKept(t, u)
          && u == t.(findings := u.findings, history := u.history, disputes := u.disputes)
  {
  }

  lemma QuietStepKeepsInvariant(t: Tables, op: Op)
    requires Invariant(t) && Fresh(t, op) && (op.RecordFinding? || op.FindingAction? || op.DisputeResponse?)
    ensures Invariant(After(t, op))
  {
    hide *;
    QuietStepEffect(t, op);
    InvariantParts(t);
    InvariantParts(After(t, op));
    QuietStepKeepsClaimInvariant(t, After(t, op));
    QuietStepKeepsRecoveries(t, After(t, op));
  }

  lemma InvariantParts(t: Tables)
    ensures Invariant(t) <==> ClaimInvariant(t) && RecoveriesSound(t) && ResolutionsSound(t)
  {
  }

  lemma StepKeepsInvariant(t: Tables, op: Op)
    requires Invariant(t) && Fresh(t, op)
    ensures Invariant(After(t, op))
  {
    hide ClaimInvariant;
    hide RecoveriesSound;
    hide ResolutionsSound;
    hide CreateDispute;
    hide CreateClaim;
    hide RecordPartialRecovery;
    hide ResolveClaim;
    hide Created;
    hide Claiming;
    hide Paid;
    hide Settled;
    hide Respond;
    hide WithFindingStatus;
    var u := After(t, op);
    ClaimsAreSound(t);
    match op
    case NewDispute(account, ids, newId) =>
      CreateDisputeEffect(t, account, ids, newId);
      if CreateDispute(t, account, ids, newId).1.Done? {
        CreationKeepsInvariant(t, u, account, newId, Claimable(Selected(t.findings, account, Ascending(ids))));
      }
    case NewClaim(account, dispute, newId) =>
      NewClaimEffect(t, account, dispute, newId);
      var r := CreateClaim(t, account, dispute, newId).1;
      if r.Done? && r.value.created {
        ClaimInvariantAfterClaim(t, u, newId, u.claims[newId]);
        RecoveriesAfterClaim(t, u, newId, u.claims[newId]);
      }
    case PartialPayment(account, claim, amount, currency, finding, fails) =>
      PaymentEffect(t, account, claim, amount, currency, finding, fails);
      if RecordPartialRecovery(t, account, claim, amount, currency, finding, fails).1.Done? {
        PaymentKeepsInvariant(t, u, RecoveryEvent(account, claim, finding, amount, Some(currency)));
      }
    case Settlement(account, claim, kind, amount, currency, finding, now) =>
      ResolveClaimEffect(t, account, claim, kind, amount, currency, finding, now);
      if ResolveClaim(t, account, claim, kind, amount, currency, finding, now).1.Done? {
        var e := RecoveryEvent(account, claim, finding, if amount == None then 0 else amount.value, currency);
        ClaimsAfterSettlement(t, u, account, claim, kind, amount, e);
        RecoveriesAfterSettlement(t, u, account, claim, kind, amount, e);
        ResolutionsAfterSettlement(t, u, account, claim, kind, amount, e);
      }
    case _ => QuietStepKeepsInvariant(t, op);
  }

  lemma ClaimsAreSound(t: Tables)
    requires ClaimInvariant(t)
    ensures ClaimsSound(t)
  {
  }

  lemma {:induction false} RunKeepsInvariant(states: seq<Tables>, ops: seq<Op>, i: nat)
    requires Run(states, ops) && i < |states|
    ensures Invariant(states[i])
    decreases i
  {
    if i > 0 {
      RunKeepsInvariant(states, ops, i - 1);
      assert Fresh(states[i - 1], ops[i - 1]) && states[i] == After(states[i - 1], ops[i - 1]);
      StepKeepsInvariant(states[i - 1], ops[i - 1]);
    } else {
      assert Invariant(EMPTY);
    }
  }
}
