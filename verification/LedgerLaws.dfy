/** The laws of the money lifecycle, over every run. */
module LedgerLaws {
  import opened Ledger
  import opened LedgerRuns
  import opened Sums

  // ---- no dollar is claimed twice ------------------------------------------------------------

  /** What a claim asks for, if its tenant and currency are in scope. */
  function Asked(t: Tables, scope: (Id, Currency) -> bool, c: Id): Money {
    if c in t.claims && t.claims[c].currency.Some? && scope(t.claims[c].account, t.claims[c].currency.value)
    then t.claims[c].amountClaimed else 0
  }

  /** What a finding is worth, if its tenant and currency are in scope. */
  function Worth(t: Tables, scope: (Id, Currency) -> bool, f: Id): Money {
    if f in t.findings && t.findings[f].currency.Some? && scope(t.findings[f].account, t.findings[f].currency.value)
    then AmountOf(t.findings[f]) else 0
  }

  ghost function AllAsked(t: Tables, scope: (Id, Currency) -> bool): Id -> int { (c: Id) => Asked(t, scope, c) }

  ghost function AllWorth(t: Tables, scope: (Id, Currency) -> bool): Id -> int { (f: Id) => Worth(t, scope, f) }

  /** The distinct findings on lines of claimed disputes. */
  function ClaimedFindings(t: Tables): set<Id> {
    set i | 0 <= i < |t.lines| && Claimed(t, t.lines[i].dispute) :: t.lines[i].finding
  }

  function FindingsUnder(t: Tables, claims: set<Id>): set<Id>
    requires claims <= t.claims.Keys
  {
    set c, f | c in claims && f in FindingsOf(t.lines, t.claims[c].dispute) :: f
  }

  /** Every finding of a claimed dispute has the tenant and the currency of the claim. */
  lemma FindingOfClaim(t: Tables, c: Id, f: Id)
    requires LinesSound(t) && c in t.claims && ClaimSound(t, t.claims[c])
        && f in FindingsOf(t.lines, t.claims[c].dispute)
    ensures f in t.findings && t.findings[f].account == t.claims[c].account
        && t.findings[f].currency == t.claims[c].currency
    ensures t.claims[c].currency.Some?
  {
    var i :| 0 <= i < |t.lines| && t.lines[i].dispute == t.claims[c].dispute && t.lines[i].finding == f;
    assert LineSound(t, t.lines[i]);
  }

  lemma ClaimIsItsFindings(t: Tables, scope: (Id, Currency) -> bool, c: Id)
    requires ClaimInvariant(t) && c in t.claims
    ensures SumOver(FindingsOf(t.lines, t.claims[c].dispute), AllWorth(t, scope)) == Asked(t, scope, c)
  {
    var claim := t.claims[c];
    assert ClaimSound(t, claim);
    var fs := FindingsOf(t.lines, claim.dispute);
    assert claim.amountClaimed == SumOver(fs, Values(t.findings));
    assert LinesSound(t);
    assert claim.currency.Some?;
    hide SumOver;
    hide ClaimInvariant;
    var inScope := scope(claim.account, claim.currency.value);
    forall f | f in fs ensures AllWorth(t, scope)(f) == if inScope then Values(t.findings)(f) else 0 {
      FindingOfClaim(t, c, f);
    }
    hide LinesSound;
    hide FindingsOf;
    hide ClaimSound;
    hide Worth;
    hide Value;
    if inScope { SumSame(fs, AllWorth(t, scope), Values(t.findings)); } else { SumOfZeros(fs, AllWorth(t, scope)); }
  }

  /** Two claims have no finding in common. */
  lemma ClaimsDisjoint(t: Tables, c: Id, d: Id)
    requires NoDoubleClaim(t) && OneClaimPerDispute(t) && c in t.claims && d in t.claims && c != d
    ensures FindingsOf(t.lines, t.claims[c].dispute) !! FindingsOf(t.lines, t.claims[d].dispute)
  {
    assert Claimed(t, t.claims[c].dispute) && Claimed(t, t.claims[d].dispute);
    assert t.claims[c].dispute != t.claims[d].dispute;
    hide Claimed;
  }

  lemma ClaimsShareNothing(t: Tables, claims: set<Id>, c: Id)
    requires NoDoubleClaim(t) && OneClaimPerDispute(t) && claims <= t.claims.Keys && c in t.claims && c !in claims
    ensures FindingsUnder(t, claims) !! FindingsOf(t.lines, t.claims[c].dispute)
  {
    hide FindingsOf;
    forall f | f in FindingsUnder(t, claims) ensures f !in FindingsOf(t.lines, t.claims[c].dispute) {
      var d :| d in claims && f in FindingsOf(t.lines, t.claims[d].dispute);
      ClaimsDisjoint(t, c, d);
    }
  }

  lemma FindingsUnderSplit(t: Tables, claims: set<Id>, c: Id)
    requires claims <= t.claims.Keys && c in claims
    ensures FindingsUnder(t, claims) == FindingsUnder(t, claims - {c}) + FindingsOf(t.lines, t.claims[c].dispute)
  {
    hide FindingsOf;
  }

  lemma {:induction false} ClaimsAreTheirFindings(t: Tables, scope: (Id, Currency) -> bool, claims: set<Id>)
    requires ClaimInvariant(t) && claims <= t.claims.Keys
    ensures SumOver(claims, AllAsked(t, scope)) == SumOver(FindingsUnder(t, claims), AllWorth(t, scope))
    decreases claims
  {
    if claims == {} {
      assert FindingsUnder(t, claims) == {};
    } else {
      var c :| c in claims;
      ClaimsAreTheirFindings(t, scope, claims - {c});
      OneMoreClaim(t, scope, claims, c);
    }
  }

  lemma OneMoreClaim(t: Tables, scope: (Id, Currency) -> bool, claims: set<Id>, c: Id)
    requires ClaimInvariant(t) && claims <= t.claims.Keys && c in claims
    requires SumOver(claims - {c}, AllAsked(t, scope)) == SumOver(FindingsUnder(t, claims - {c}), AllWorth(t, scope))
    ensures SumOver(claims, AllAsked(t, scope)) == SumOver(FindingsUnder(t, claims), AllWorth(t, scope))
  {
    ClaimIsItsFindings(t, scope, c);
    ClaimsShareNothing(t, claims - {c}, c);
    FindingsUnderSplit(t, claims, c);
    assert AllAsked(t, scope)(c) == Asked(t, scope, c);
    hide *;
    SumTakesOut(claims, AllAsked(t, scope), c);
    SumOfUnion(FindingsUnder(t, claims - {c}), FindingsOf(t.lines, t.claims[c].dispute), AllWorth(t, scope));
  }

  /** In every state of every run: no finding lies under two claimed disputes, and for any choice of tenants
      and currencies the claims ask for exactly what the distinct findings under them are worth. */
  lemma NoDollarClaimedTwice(states: seq<Tables>, ops: seq<Op>, i: nat, scope: (Id, Currency) -> bool)
    requires Run(states, ops) && i < |states|
    ensures NoDoubleClaim(states[i]) && OneClaimPerDispute(states[i])
    ensures SumOver(states[i].claims.Keys, AllAsked(states[i], scope))
         == SumOver(ClaimedFindings(states[i]), AllWorth(states[i], scope))
  {
    RunKeepsInvariant(states, ops, i);
    var t := states[i];
    ClaimsAreTheirFindings(t, scope, t.claims.Keys);
    assert FindingsUnder(t, t.claims.Keys) == ClaimedFindings(t) by {
      forall f | f in FindingsUnder(t, t.claims.Keys) ensures f in ClaimedFindings(t) {
        var c :| c in t.claims && f in FindingsOf(t.lines, t.claims[c].dispute);
        assert Claimed(t, t.claims[c].dispute);
      }
      forall f | f in ClaimedFindings(t) ensures f in FindingsUnder(t, t.claims.Keys) {
        var k :| 0 <= k < |t.lines| && Claimed(t, t.lines[k].dispute) && t.lines[k].finding == f;
        var c :| c in t.claims && t.claims[c].dispute == t.lines[k].dispute;
        assert f in FindingsOf(t.lines, t.claims[c].dispute);
      }
    }
  }

  // ---- recoveries and terminal statuses ------------------------------------------------------

  /** Claims stay, with their amount and currency; a terminal status and the recorded events stay too. */
  predicate ClaimsKept(t: Tables, u: Tables) {
    && t.recoveries <= u.recoveries
    && forall c | c in t.claims ::
         && c in u.claims && u.claims[c].(status := t.claims[c].status) == t.claims[c]
         && (t.claims[c].status != ClaimOpen ==> u.claims[c] == t.claims[c])
  }

  lemma StepKeepsClaims(t: Tables, op: Op)
    requires Invariant(t) && Fresh(t, op)
    ensures ClaimsKept(t, After(t, op))
  {
    hide ClaimInvariant;
    hide RecoveriesSound;
    hide ResolutionsSound;
    hide CreateDispute;
    hide CreateClaim;
    hide RecordPartialRecovery;
    hide ResolveClaim;
    hide RowsOf;
    hide Queued;
    hide FindingsKept;
    hide NewLines;
    hide AlreadyClaimed;
    ClaimsAreSound(t);
    InvariantParts(t);
    match op
    case NewDispute(account, ids, newId) => CreateDisputeEffect(t, account, ids, newId);
    case NewClaim(account, dispute, newId) => NewClaimEffect(t, account, dispute, newId);
    case PartialPayment(account, claim, amount, currency, finding, fails) =>
      PaymentEffect(t, account, claim, amount, currency, finding, fails);
    case Settlement(account, claim, kind, amount, currency, finding, now) =>
      ResolveClaimEffect(t, account, claim, kind, amount, currency, finding, now);
    case _ => QuietStepEffect(t, op);
  }

  lemma ClaimsKeptTwice(t: Tables, u: Tables, v: Tables)
    requires ClaimsKept(t, u) && ClaimsKept(u, v)
    ensures ClaimsKept(t, v)
  {
  }

  lemma {:induction false} RunKeepsClaims(states: seq<Tables>, ops: seq<Op>, i: nat, j: nat)
    requires Run(states, ops) && i <= j < |states|
    ensures ClaimsKept(states[i], states[j])
    decreases j
  {
    hide Invariant;
    hide After;
    hide Fresh;
    if i < j {
      RunKeepsClaims(states, ops, i, j - 1);
      RunKeepsInvariant(states, ops, j - 1);
      assert Fresh(states[j - 1], ops[j - 1]) && states[j] == After(states[j - 1], ops[j - 1]);
      hide Run;
      StepKeepsClaims(states[j - 1], ops[j - 1]);
      ClaimsKeptTwice(states[i], states[j - 1], states[j]);
    }
  }

  /** What holds of a claim from the moment it exists: recoveries never exceed it and carry its currency,
      a terminal status never changes, and `recovered` means recovered in full from then on. */
  lemma RecoveryLaws(states: seq<Tables>, ops: seq<Op>, i: nat, j: nat, c: Id)
    requires Run(states, ops) && i <= j < |states| && c in states[i].claims
    ensures c in states[j].claims && states[j].claims[c].amountClaimed == states[i].claims[c].amountClaimed
    ensures Total(states[j], c) <= states[i].claims[c].amountClaimed
    ensures forall k | 0 <= k < |states[j].recoveries| && states[j].recoveries[k].claim == c ::
              states[j].recoveries[k].currency == states[i].claims[c].currency && states[j].recoveries[k].amount > 0
    ensures states[i].claims[c].status != ClaimOpen ==> states[j].claims[c].status == states[i].claims[c].status
    ensures states[i].claims[c].status == Recovered ==> Total(states[j], c) == states[i].claims[c].amountClaimed
  {
    RunKeepsClaims(states, ops, i, j);
    RunKeepsInvariant(states, ops, j);
    var u := states[j];
    assert RecoveriesSound(u) by { hide ClaimInvariant; hide ResolutionsSound; }
    hide Run;
    hide Invariant;
    assert Total(u, c) <= u.claims[c].amountClaimed;
    forall k | 0 <= k < |u.recoveries| && u.recoveries[k].claim == c
      ensures u.recoveries[k].currency == states[i].claims[c].currency && u.recoveries[k].amount > 0
    {
      assert RecoverySound(u, u.recoveries[k]);
    }
  }

  // ---- the derived status --------------------------------------------------------------------

  /** The derivation picks the first among the latest of the terminal events. */
  lemma {:induction false} LatestMeaning(events: seq<LedgerEvent>)
    ensures Latest(events) == None <==> forall i | 0 <= i < |events| :: TerminalStatus(events[i].event) == None
    ensures Latest(events).Some?
       ==> exists k :: 0 <= k < |events| && IsFirstLatest(events, k) && Latest(events).value == events[k]
    decreases |events|
  {
    hide TerminalStatus;
    if events != [] {
      var n := |events| - 1;
      LatestMeaning(events[..n]);
      var prior := Latest(events[..n]);
      if prior.Some? {
        var k :| 0 <= k < n && IsFirstLatest(events[..n], k) && prior.value == events[..n][k];
        assert forall i | 0 <= i < n :: events[..n][i] == events[i];
        if Latest(events) == prior { assert IsFirstLatest(events, k); } else { assert IsFirstLatest(events, n); }
      } else {
        assert forall i | 0 <= i < n :: events[..n][i] == events[i];
        if Latest(events).Some? { assert IsFirstLatest(events, n); }
      }
    }
  }

  predicate IsFirstLatest(events: seq<LedgerEvent>, k: nat)
    requires k < |events|
  {
    && TerminalStatus(events[k].event).Some?
    && forall i | 0 <= i < |events| && TerminalStatus(events[i].event).Some? ::
         events[i].recordedAt <= events[k].recordedAt && (i < k ==> events[i].recordedAt < events[k].recordedAt)
  }

  /** `events` lists the terminal audit events of claim `c`, in some order. */
  ghost predicate ListsTerminalEvents(t: Tables, c: Id, events: seq<LedgerEvent>)
    requires c in t.claims
  {
    forall e :: e in events <==>
      exists k :: k in t.audit && k.account == t.claims[c].account && k.claim == c
          && e == LedgerEvent(EventName(k.status), t.audit[k].recordedAt)
  }

  lemma NamesOfStatuses(s: ClaimStatus)
    ensures s != ClaimOpen ==> TerminalStatus(EventName(s)) == Some(s)
    ensures s == ClaimOpen ==> TerminalStatus(EventName(s)) == None
  {
    assert "claim.open"[6] == 'o' && "claim.recovered"[6] == 'r' && "claim.denied"[6] == 'd'
        && "claim.written_off"[6] == 'w';
  }

  lemma ListedEvent(t: Tables, c: Id, events: seq<LedgerEvent>, e: LedgerEvent)
    requires ResolutionsSound(t) && c in t.claims && ListsTerminalEvents(t, c, events) && e in events
    ensures t.claims[c].status != ClaimOpen && e.event == EventName(t.claims[c].status)
  {
    hide EventName;
    var k :| k in t.audit && k.account == t.claims[c].account && k.claim == c
        && e == LedgerEvent(EventName(k.status), t.audit[k].recordedAt);
  }

  lemma TerminalEventListed(t: Tables, c: Id, events: seq<LedgerEvent>)
    requires ResolutionsSound(t) && c in t.claims && ListsTerminalEvents(t, c, events)
        && t.claims[c].status != ClaimOpen
    ensures exists e :: e in events && e.event == EventName(t.claims[c].status)
  {
    hide EventName;
    var k := AuditKey(t.claims[c].account, c, t.claims[c].status);
    assert k in t.audit;
    assert LedgerEvent(EventName(k.status), t.audit[k].recordedAt) in events;
  }

  /** In every reachable state the derived status of a claim is its stored one. */
  lemma DerivedStatusAgrees(states: seq<Tables>, ops: seq<Op>, i: nat, c: Id, events: seq<LedgerEvent>)
    requires Run(states, ops) && i < |states| && c in states[i].claims && ListsTerminalEvents(states[i], c, events)
    ensures DerivedStatus(events) == states[i].claims[c].status
  {
    RunKeepsInvariant(states, ops, i);
    InvariantParts(states[i]);
    var t := states[i];
    var status := t.claims[c].status;
    hide *;
    LatestMeaning(events);
    NamesOfStatuses(status);
    forall k | 0 <= k < |events| ensures status != ClaimOpen && events[k].event == EventName(status) {
      ListedEvent(t, c, events, events[k]);
    }
    if status != ClaimOpen {
      TerminalEventListed(t, c, events);
      var e :| e in events && e.event == EventName(status);
      var n :| 0 <= n < |events| && events[n] == e;
      assert TerminalStatus(events[n].event) == Some(status);
    }
    DerivedFromLatest(events);
  }

  lemma DerivedFromLatest(events: seq<LedgerEvent>)
    ensures Latest(events) == None ==> DerivedStatus(events) == ClaimOpen
    ensures Latest(events).Some? && TerminalStatus(Latest(events).value.event).Some? ==>
              DerivedStatus(events) == TerminalStatus(Latest(events).value.event).value
  {
    hide Latest;
    hide TerminalStatus;
  }

  // ---- when a claim can still be recovered ---------------------------------------------------

  /** Exactly when a full recovery goes through: a positive payment of exactly what is missing. */
  lemma FullRecoverySucceeds(t: Tables, account: Id, claim: Id, amount: Option<nat>, currency: Option<Currency>,
                             now: int)
    requires Invariant(t)
    ensures ResolveClaim(t, account, claim, FullRecovery, amount, currency, None, now).1.Done?
       <==> && claim in t.claims && t.claims[claim].account == account && t.claims[claim].status == ClaimOpen
            && amount.Some? && amount.value == t.claims[claim].amountClaimed - Total(t, claim)
                && Total(t, claim) < t.claims[claim].amountClaimed
            && currency == t.claims[claim].currency
  {
    InvariantParts(t);
    ClaimsAreSound(t);
    SettlementPasses(t, account, claim, FullRecovery, amount, currency, None, now);
    if claim in t.claims {
      assert ClaimSound(t, t.claims[claim]);
      FullRecoveryPasses(t.claims[claim], Total(t, claim), amount, currency);
    }
    hide Invariant;
    hide ClaimsSound;
    hide ResolutionsSound;
    hide RecoveredOn;
    hide SettlementError;
    hide ResolutionError;
    hide Settle;
  }

  lemma FullRecoveryPasses(c: Claim, prior: Money, amount: Option<Money>, currency: Option<Currency>)
    requires c.currency.Some?
    ensures ResolutionError(c, FullRecovery, prior, amount, currency) == None
       <==> && c.status == ClaimOpen && amount.Some? && amount.value > 0
            && prior + amount.value == c.amountClaimed && currency == c.currency
  {
  }

  /** Exactly when a partial recovery goes through: the status of the claim is not asked. */
  lemma PartialRecoverySucceeds(t: Tables, account: Id, claim: Id, amount: nat, currency: Currency, finding: Option<Id>,
                                fails: bool)
    requires ClaimsSound(t)
    ensures RecordPartialRecovery(t, account, claim, amount, currency, finding, fails).1.Done?
       <==> && claim in t.claims && t.claims[claim].account == account && NamesFinding(t, finding)
            && amount > 0 && t.claims[claim].currency == Some(currency)
            && Total(t, claim) + amount <= t.claims[claim].amountClaimed
  {
    assert claim in t.claims ==> ClaimSound(t, t.claims[claim]);
    hide RecoveredOn;
  }

  lemma {:induction false} MorePaid(events: seq<RecoveryEvent>, more: seq<RecoveryEvent>, account: Id, c: Id)
    requires events <= more && forall k | 0 <= k < |more| :: more[k].amount > 0
    ensures RecoveredOn(events, account, c) <= RecoveredOn(more, account, c)
    decreases |more|
  {
    if |events| < |more| { MorePaid(events, more[..|more| - 1], account, c); } else { assert events == more; }
  }

  /** Only a payment of what is missing makes a claim `recovered`. */
  predicate RecoveredByPayment(t: Tables, u: Tables) {
    forall c | c in t.claims && c in u.claims && t.claims[c].status != Recovered && u.claims[c].status == Recovered ::
      Total(t, c) < t.claims[c].amountClaimed
  }

  lemma OnlySettlementsTouchClaims(t: Tables, op: Op)
    requires Fresh(t, op) && !op.Settlement?
    ensures forall c | c in t.claims :: c in After(t, op).claims && After(t, op).claims[c] == t.claims[c]
  {
    hide RecoveredOn;
    hide ResolveClaim;
    hide AlreadyClaimed;
    hide ClaimableError;
    hide PartialRecoveryError;
    hide NamesFinding;
    if op.NewDispute? { CreationLeavesClaims(t, op.account, op.ids, op.newId); }
    hide CreateDispute;
  }

  lemma CreationLeavesClaims(t: Tables, account: Id, ids: seq<Id>, newId: Id)
    requires newId !in t.disputes
    ensures CreateDispute(t, account, ids, newId).0.claims == t.claims
  {
    CreateDisputeEffect(t, account, ids, newId);
    hide CreateDispute;
    hide RowsOf;
    hide Queued;
    hide NewLines;
  }

  lemma SettledByPayment(t: Tables, u: Tables, account: Id, claim: Id, kind: ResolutionKind, amount: Option<Money>,
                         e: RecoveryEvent)
    requires Settled(t, u, account, claim, kind, amount, e)
    ensures RecoveredByPayment(t, u)
  {
    hide FindingsKept;
    hide RecoveredOn;
  }

  lemma StepRecoversByPayment(t: Tables, op: Op)
    requires Invariant(t) && Fresh(t, op)
    ensures RecoveredByPayment(t, After(t, op))
  {
    if op.Settlement? {
      InvariantParts(t);
      ClaimsAreSound(t);
      hide Invariant;
      hide ClaimsSound;
      hide ResolutionsSound;
      hide ResolveClaim;
      hide Settled;
      hide RecoveredOn;
      ResolveClaimEffect(t, op.account, op.claim, op.kind, op.paid, op.paidIn, op.finding, op.now);
      if ResolveClaim(t, op.account, op.claim, op.kind, op.paid, op.paidIn, op.finding, op.now).1.Done? {
        SettledByPayment(t, After(t, op), op.account, op.claim, op.kind, op.paid,
                         RecoveryEvent(op.account, op.claim, op.finding, if op.paid == None then 0 else op.paid.value,
                                       op.paidIn));
      }
    } else {
      OnlySettlementsTouchClaims(t, op);
      hide Invariant;
      hide After;
    }
  }

  /** An open claim that partial recoveries already cover stays covered and never becomes `recovered`. */
  lemma {:induction false} CoveredClaimNeverRecovered(states: seq<Tables>, ops: seq<Op>, i: nat, j: nat, c: Id)
    requires Run(states, ops) && i <= j < |states| && c in states[i].claims
    requires states[i].claims[c].status == ClaimOpen && Total(states[i], c) == states[i].claims[c].amountClaimed
    ensures c in states[j].claims && states[j].claims[c].status != Recovered
    ensures Total(states[j], c) == states[i].claims[c].amountClaimed == states[j].claims[c].amountClaimed
    decreases j
  {
    hide Invariant;
    hide After;
    hide Fresh;
    hide RecoveredOn;
    if i < j {
      CoveredClaimNeverRecovered(states, ops, i, j - 1, c);
      RunKeepsInvariant(states, ops, j - 1);
      RunKeepsInvariant(states, ops, j);
      assert Fresh(states[j - 1], ops[j - 1]) && states[j] == After(states[j - 1], ops[j - 1]);
      hide Run;
      CoveredStep(states[j - 1], states[j], ops[j - 1], c);
    }
  }

  lemma CoveredStep(t: Tables, u: Tables, op: Op, c: Id)
    requires Invariant(t) && Fresh(t, op) && u == After(t, op) && Invariant(u)
    requires c in t.claims && t.claims[c].status != Recovered && Total(t, c) == t.claims[c].amountClaimed
    ensures c in u.claims && u.claims[c].status != Recovered && u.claims[c].amountClaimed == t.claims[c].amountClaimed
        && Total(u, c) == Total(t, c)
  {
    StepKeepsClaims(t, op);
    StepRecoversByPayment(t, op);
    InvariantParts(u);
    hide Invariant;
    hide After;
    hide Fresh;
    hide RecoveredOn;
    forall k | 0 <= k < |u.recoveries| ensures u.recoveries[k].amount > 0 { assert RecoverySound(u, u.recoveries[k]); }
    MorePaid(t.recoveries, u.recoveries, t.claims[c].account, c);
  }

  // ---- retries -------------------------------------------------------------------------------

  function ReadRows(findings: map<Id, Finding>, account: Id, ids: seq<Id>): seq<Row> {
    Claimable(Selected(findings, account, Ascending(ids)))
  }

  /** Which findings of a request a dispute can be made of. */
  lemma ReadRowsMeaning(findings: map<Id, Finding>, account: Id, ids: seq<Id>)
    ensures forall r :: r in ReadRows(findings, account, ids) <==>
              r.id in ids && r.id in findings && r.finding == findings[r.id] && r.finding.account == account
              && r.finding.direction != Some(Undercharge)
  {
    var rows := Selected(findings, account, Ascending(ids));
    forall r ensures r in rows
        <==> r.id in ids && r.id in findings && r.finding == findings[r.id] && r.finding.account == account {
      if r in rows {
        var i :| 0 <= i < |rows| && rows[i] == r;
      }
      if r.id in ids && r.id in findings && r.finding == findings[r.id] && r.finding.account == account {
        assert Row(r.id, findings[r.id]) in rows;
      }
    }
    hide Selected;
    hide Ascending;
  }

  /** Once its claimable findings are queued, no row of the same request is accepted. */
  lemma NothingAcceptedAfter(findings: map<Id, Finding>, account: Id, ids: seq<Id>)
    requires ReadRows(findings, account, ids) != []
    ensures var now := ReadRows(Queued(findings, account, IdSet(ReadRows(findings, account, ids))), account, ids);
            now != [] && now[0].finding.status == QueuedForDispute
  {
    var was := ReadRows(findings, account, ids);
    var after := Queued(findings, account, IdSet(was));
    var now := ReadRows(after, account, ids);
    ReadRowsMeaning(findings, account, ids);
    ReadRowsMeaning(after, account, ids);
    hide ReadRows;
    assert was[0] in was;
    assert Row(was[0].id, after[was[0].id]) in now;
    assert now[0] in now;
    var f := now[0].id;
    assert Row(f, findings[f]) in was;
    var i :| 0 <= i < |was| && was[i] == Row(f, findings[f]);
    assert was[i].id in IdSet(was);
  }

  /** A repeated dispute creation fails with NOT_ACCEPTED: every claimable row has left `accepted`. */
  lemma RepeatedCreationFails(t: Tables, account: Id, ids: seq<Id>, newId: Id, otherId: Id)
    requires newId !in t.disputes && CreateDispute(t, account, ids, newId).1.Done?
    ensures CreateDispute(CreateDispute(t, account, ids, newId).0, account, ids, otherId)
         == (CreateDispute(t, account, ids, newId).0, Failed(NotAccepted))
  {
    var u := CreateDispute(t, account, ids, newId).0;
    CreateDisputeEffect(t, account, ids, newId);
    assert ReadRows(t.findings, account, ids) != []
        && u.findings == Queued(t.findings, account, IdSet(ReadRows(t.findings, account, ids)));
    NothingAcceptedAfter(t.findings, account, ids);
    var now := ReadRows(u.findings, account, ids);
    assert RowError(now[0].finding) == Some(NotAccepted);
    FirstErrorIsFirst(Selected(u.findings, account, Ascending(ids)), now);
    hide Created;
    hide DisputableError;
    hide WithLines;
    hide Claimable;
    hide Selected;
    hide Ascending;
  }

  lemma FirstErrorIsFirst(rows: seq<Row>, claimable: seq<Row>)
    requires claimable == Claimable(rows) && claimable != [] && RowError(claimable[0].finding).Some?
    ensures DisputableError(rows) == RowError(claimable[0].finding)
  {
    hide Claimable;
    hide RowError;
  }

  /** A repeated claim creation finds the claim and changes nothing. */
  lemma RepeatedClaimIsFound(t: Tables, account: Id, dispute: Id, newId: Id, otherId: Id)
    requires Invariant(t) && newId !in t.claims && CreateClaim(t, account, dispute, newId).1.Done?
    ensures var (u, r) := CreateClaim(t, account, dispute, newId);
            CreateClaim(u, account, dispute, otherId) == (u, Done(r.value.(created := false)))
  {
    ClaimCreated(t, account, dispute, newId);
    OneClaimAfter(t, account, dispute, newId);
    hide *;
    var (u, r) := CreateClaim(t, account, dispute, newId);
    ClaimIsFound(u, account, dispute, r.value.claim, otherId);
  }

  lemma OneClaimAfter(t: Tables, account: Id, dispute: Id, newId: Id)
    requires Invariant(t) && newId !in t.claims
    ensures OneClaimPerDispute(CreateClaim(t, account, dispute, newId).0)
  {
    var op := NewClaim(account, dispute, newId);
    StepKeepsInvariant(t, op);
    assert After(t, op) == CreateClaim(t, account, dispute, newId).0;
    hide CreateClaim;
    InvariantParts(After(t, op));
    hide After;
    hide Invariant;
    hide OneClaimPerDispute;
  }

  lemma ClaimCreated(t: Tables, account: Id, dispute: Id, newId: Id)
    requires CreateClaim(t, account, dispute, newId).1.Done?
    ensures var (u, r) := CreateClaim(t, account, dispute, newId);
            && dispute in u.disputes && u.disputes[dispute].account == account
                && r.value.claim in ClaimsOn(u, account, dispute)
            && r.value.(created := false)
            == ClaimSummary(r.value.claim, dispute, u.claims[r.value.claim].amountClaimed,
                            u.claims[r.value.claim].currency, false)
  {
    hide AlreadyClaimed;
    hide ClaimableError;
  }

  lemma ClaimIsFound(u: Tables, account: Id, dispute: Id, c: Id, otherId: Id)
    requires OneClaimPerDispute(u) && dispute in u.disputes && u.disputes[dispute].account == account
        && c in ClaimsOn(u, account, dispute)
    ensures CreateClaim(u, account, dispute, otherId)
         == (u, Done(ClaimSummary(c, dispute, u.claims[c].amountClaimed, u.claims[c].currency, false)))
  {
    forall e | e in ClaimsOn(u, account, dispute) ensures e == c {
      assert u.claims[e].dispute == u.claims[c].dispute;
    }
    hide AlreadyClaimed;
  }
}
