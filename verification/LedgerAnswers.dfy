/** What each call of the money lifecycle does, exactly. */
module LedgerAnswers {
  import opened Ledger
  import opened LedgerRuns
  import opened Sums

  // Each answer and each change is said of the rows before and after, under the conditions src/modules/disputes,
  // src/modules/claims and src/modules/findings name. A condition on what is stored together with a dispute is said
  // where it matters: `Invariant` holds in every state of every run.

  // ---- a claim from a dispute ----------------------------------------------------------------

  predicate OwnDispute(t: Tables, account: Id, dispute: Id) {
    dispute in t.disputes && t.disputes[dispute].account == account
  }

  /** A finding of the dispute that another dispute with a claim has a line for, too. */
  predicate ClaimedTwice(t: Tables, dispute: Id, f: Id) {
    exists i, j :: 0 <= i < |t.lines| && 0 <= j < |t.lines| && t.lines[i].finding == t.lines[j].finding == f
                   && t.lines[i].dispute == dispute && t.lines[j].dispute != dispute
                   && Claimed(t, t.lines[j].dispute)
  }

  /** The dispute has all a claim needs. */
  predicate Claimworthy(d: Dispute) {
    d.status == DisputeAccepted && d.amountClaimed.Some? && d.amountClaimed.value > 0 && d.currency.Some?
  }

  lemma HasClaimMeaning(t: Tables, account: Id, dispute: Id)
    requires Invariant(t) && OwnDispute(t, account, dispute)
    ensures HasClaim(t, account, dispute) <==> Claimed(t, dispute)
    ensures forall c :: c in ClaimsOn(t, account, dispute) <==> c in t.claims && t.claims[c].dispute == dispute
  {
    InvariantParts(t);
    forall c | c in t.claims && t.claims[c].dispute == dispute ensures c in ClaimsOn(t, account, dispute) {
      assert ClaimSound(t, t.claims[c]);
    }
    if Claimed(t, dispute) {
      var c :| c in t.claims && t.claims[c].dispute == dispute;
      assert c in ClaimsOn(t, account, dispute);
    }
    if HasClaim(t, account, dispute) { var c :| c in ClaimsOn(t, account, dispute); }
  }

  lemma SharedMeaning(t: Tables, account: Id, dispute: Id, f: Id)
    requires Invariant(t) && OwnDispute(t, account, dispute)
    ensures f in AlreadyClaimed(t, account, dispute) <==> ClaimedTwice(t, dispute, f)
  {
    InvariantParts(t);
    DuplicateGuardMeaning(t, account, dispute);
    hide Invariant;
    hide ClaimInvariant;
    hide AlreadyClaimed;
    hide LinesSound;
    hide ClaimsSound;
    hide Claimed;
  }

  ghost predicate SharesFindings(t: Tables, dispute: Id) { exists f :: ClaimedTwice(t, dispute, f) }

  lemma GuardMeaning(t: Tables, account: Id, dispute: Id)
    requires Invariant(t) && OwnDispute(t, account, dispute)
    ensures forall f :: f in AlreadyClaimed(t, account, dispute) <==> ClaimedTwice(t, dispute, f)
    ensures AlreadyClaimed(t, account, dispute) == {} <==> !SharesFindings(t, dispute)
  {
    forall f ensures f in AlreadyClaimed(t, account, dispute) <==> ClaimedTwice(t, dispute, f) {
      SharedMeaning(t, account, dispute, f);
    }
    hide Invariant;
    hide AlreadyClaimed;
    hide ClaimedTwice;
  }

  /** A claim is opened exactly for an accepted dispute of the tenant that has a positive amount, a currency and no
      claim, and shares no finding with another claimed dispute. A dispute that has a claim gives that claim; anything
      else is refused by the first of the stated reasons, and nothing changes. */
  lemma ClaimAnswer(t: Tables, account: Id, dispute: Id, newId: Id)
    requires Invariant(t)
    ensures var (u, r) := CreateClaim(t, account, dispute, newId); var mine := OwnDispute(t, account, dispute);
      && (r.Done? && r.value.created
          <==> mine && !Claimed(t, dispute) && Claimworthy(t.disputes[dispute]) && !SharesFindings(t, dispute))
      && (r.Done? && r.value.created ==>
            var d := t.disputes[dispute];
            && u == t.(claims := t.claims[newId := Claim(account, dispute, d.amountClaimed.value, d.currency,
                                                         ClaimOpen)])
            && r.value == ClaimSummary(newId, dispute, d.amountClaimed.value, d.currency, true))
      && (r.Failed? || !r.value.created ==> u == t)
      && (mine && Claimed(t, dispute) ==>
            exists c :: c in t.claims && t.claims[c].dispute == dispute
                        && r == Done(ClaimSummary(c, dispute, t.claims[c].amountClaimed, t.claims[c].currency, false)))
  {
    if OwnDispute(t, account, dispute) {
      HasClaimMeaning(t, account, dispute);
      GuardMeaning(t, account, dispute);
    }
    hide Invariant;
    hide AlreadyClaimed;
    hide SharesFindings;
    hide Claimed;
    hide ClaimsOn;
  }

  /** Why a claim is refused. */
  lemma ClaimRefusals(t: Tables, account: Id, dispute: Id, newId: Id)
    requires Invariant(t)
    ensures var r := CreateClaim(t, account, dispute, newId).1;
      if !OwnDispute(t, account, dispute) then r == Failed(DisputeNotFound)
      else if Claimed(t, dispute) then r.Done?
      else
        var d := t.disputes[dispute];
        if d.status != DisputeAccepted then r == Failed(NotAccepted)
        else if d.amountClaimed.None? then r == Failed(MissingAmount)
        else if d.currency.None? then r == Failed(MissingCurrency)
        else if d.amountClaimed.value <= 0 then r == Failed(NonPositiveAmount)
        else if SharesFindings(t, dispute)
        then r.Failed? && r.error.DuplicateClaimedFinding?
             && forall f :: f in r.error.conflicting <==> ClaimedTwice(t, dispute, f)
        else r.Done?
  {
    if OwnDispute(t, account, dispute) {
      HasClaimMeaning(t, account, dispute);
      GuardMeaning(t, account, dispute);
    }
    ClaimReplies(t, account, dispute, newId);
    hide Invariant;
    hide AlreadyClaimed;
    hide SharesFindings;
    hide ClaimedTwice;
    hide Claimed;
    hide HasClaim;
    hide CreateClaim;
  }

  lemma ClaimReplies(t: Tables, account: Id, dispute: Id, newId: Id)
    ensures var r := CreateClaim(t, account, dispute, newId).1;
      if !OwnDispute(t, account, dispute) then r == Failed(DisputeNotFound)
      else if HasClaim(t, account, dispute) then r.Done?
      else
        var d := t.disputes[dispute];
        if d.status != DisputeAccepted then r == Failed(NotAccepted)
        else if d.amountClaimed.None? then r == Failed(MissingAmount)
        else if d.currency.None? then r == Failed(MissingCurrency)
        else if d.amountClaimed.value <= 0 then r == Failed(NonPositiveAmount)
        else if AlreadyClaimed(t, account, dispute) != {}
        then r == Failed(DuplicateClaimedFinding(AlreadyClaimed(t, account, dispute)))
        else r.Done?
  {
    hide AlreadyClaimed;
    hide ClaimsOn;
  }

  // ---- what the carrier answers --------------------------------------------------------------

  /** The transitions there are. */
  predicate Moves(response: Response, from: DisputeStatus, to: DisputeStatus) {
    || (response == Approve && from == Draft && to == Sent)
    || (response == Accept && from in {Sent, InProgress} && to == DisputeAccepted)
    || (response == Reject && from in {Sent, InProgress} && to == Rejected)
    || (response.PartiallyAccept? && from in {Sent, InProgress} && to == Partial)
    || (response == Close && from in {DisputeAccepted, Rejected, Partial} && to == Closed)
  }

  predicate Answerable(t: Tables, account: Id, dispute: Id, response: Response) {
    OwnDispute(t, account, dispute) && exists to :: Moves(response, t.disputes[dispute].status, to)
  }

  /** More is accepted than the dispute claims. */
  predicate TooMuch(d: Dispute, response: Response) {
    response.PartiallyAccept? && d.amountClaimed.Some? && response.acceptedAmount > d.amountClaimed.value
  }

  lemma AnswerableMeaning(t: Tables, account: Id, dispute: Id, response: Response)
    ensures Answerable(t, account, dispute, response)
        <==> OwnDispute(t, account, dispute) && MayFollow(response, t.disputes[dispute].status)
    ensures Answerable(t, account, dispute, response)
        ==> Moves(response, t.disputes[dispute].status, StatusAfter(response))
  {
    if OwnDispute(t, account, dispute) {
      var from := t.disputes[dispute].status;
      assert MayFollow(response, from) ==> Moves(response, from, StatusAfter(response));
    }
  }

  /** A response moves the dispute along one of the transitions, and records how much was partially accepted; it is
      refused if that is more than was claimed, and reports nothing found otherwise. */
  lemma ResponseAnswer(t: Tables, account: Id, dispute: Id, response: Response)
    ensures var (u, r) := Respond(t, account, dispute, response);
      if !Answerable(t, account, dispute, response) then u == t && r == Done(false)
      else if TooMuch(t.disputes[dispute], response) then u == t && r == Failed(AcceptedAmountExceedsClaimed)
      else
        && r == Done(true)
        && u == t.(disputes := u.disputes) && u.disputes.Keys == t.disputes.Keys
        && (forall d | d in t.disputes && d != dispute :: u.disputes[d] == t.disputes[d])
        && Moves(response, t.disputes[dispute].status, u.disputes[dispute].status)
        && u.disputes[dispute]
           == t.disputes[dispute].(status := u.disputes[dispute].status,
                                   acceptedAmount := match response
                                                     case PartiallyAccept(amount) => Some(amount)
                                                     case _ => t.disputes[dispute].acceptedAmount)
  {
    AnswerableMeaning(t, account, dispute, response);
    hide Moves;
    hide MayFollow;
    hide StatusAfter;
    hide Answerable;
  }

  // ---- disputes over every run ---------------------------------------------------------------

  /** How far a dispute has come. */
  function Stage(status: DisputeStatus): nat {
    match status
    case Draft => 0
    case Sent => 1
    case InProgress => 2
    case DisputeAccepted | Rejected | Partial => 3
    case Closed => 4
  }

  predicate Progress(from: DisputeStatus, to: DisputeStatus) {
    to == from || (Stage(from) < Stage(to) && (Stage(from) == 3 ==> to == Closed))
  }

  /** What holds of a dispute at any time. */
  predicate DisputeFair(d: Dispute) {
    && d.status != InProgress && (d.status == Partial ==> d.acceptedAmount.Some?)
    && (d.acceptedAmount.Some? ==>
          && d.status in {Partial, Closed}
          && d.amountClaimed.Some? && d.acceptedAmount.value <= d.amountClaimed.value)
  }

  predicate DisputesFair(t: Tables) { forall d | d in t.disputes :: DisputeFair(t.disputes[d]) }

  /** Every claim rests on a dispute that was accepted, and may be closed since. */
  predicate ClaimsRest(t: Tables) {
    forall c | c in t.claims ::
      t.claims[c].dispute in t.disputes && t.disputes[t.claims[c].dispute].status in {DisputeAccepted, Closed}
  }

  predicate AllHaveAmounts(t: Tables) { forall d | d in t.disputes :: t.disputes[d].amountClaimed.Some? }

  /** One step: disputes stay and go forward, and only new ones, drafts, are added. */
  ghost predicate DisputesStep(t: Tables, u: Tables) {
    && (forall d | d in t.disputes :: d in u.disputes && Progress(t.disputes[d].status, u.disputes[d].status)
                                      && (u.disputes[d] == t.disputes[d] || DisputeFair(u.disputes[d])))
    && forall d | d in u.disputes && d !in t.disputes :: u.disputes[d].status == Draft
                                                         && u.disputes[d].acceptedAmount.None?
  }

  lemma ResponseStep(t: Tables, account: Id, dispute: Id, response: Response)
    requires DisputesFair(t) && AllHaveAmounts(t)
    ensures DisputesStep(t, Respond(t, account, dispute, response).0)
    ensures Respond(t, account, dispute, response).0.claims == t.claims
  {
    ResponseAnswer(t, account, dispute, response);
    hide Respond;
    var u := Respond(t, account, dispute, response).0;
    forall d | d in t.disputes ensures d in u.disputes && Progress(t.disputes[d].status, u.disputes[d].status)
        && (u.disputes[d] == t.disputes[d] || DisputeFair(u.disputes[d]))
    {
      assert DisputeFair(t.disputes[d]) && t.disputes[d].amountClaimed.Some?;
    }
  }

  lemma CreationStep(t: Tables, account: Id, ids: seq<Id>, newId: Id)
    requires newId !in t.disputes
    ensures DisputesStep(t, CreateDispute(t, account, ids, newId).0)
    ensures CreateDispute(t, account, ids, newId).0.claims == t.claims
  {
    CreateDisputeEffect(t, account, ids, newId);
    var u := CreateDispute(t, account, ids, newId).0;
    var rows := Claimable(Selected(t.findings, account, Ascending(ids)));
    if CreateDispute(t, account, ids, newId).1.Done? { DraftAdded(t, u, account, newId, rows); }
    hide *;
    NoStep(t);
  }

  lemma DraftAdded(t: Tables, u: Tables, account: Id, dispute: Id, rows: seq<Row>)
    requires Created(t, u, account, dispute, rows)
    ensures DisputesStep(t, u) && u.claims == t.claims
  {
    hide RowsOf;
    hide TotalOf;
    hide Queued;
    hide NewLines;
  }

  lemma NoStep(t: Tables)
    ensures DisputesStep(t, t)
  {
  }

  /** The claims of `u` are those of `t`, on the same disputes, and perhaps one more on an accepted dispute. */
  predicate ClaimsStep(t: Tables, u: Tables) {
    forall c | c in u.claims ::
      || (c in t.claims && t.claims[c].dispute == u.claims[c].dispute)
      || (u.claims[c].dispute in t.disputes && t.disputes[u.claims[c].dispute].status == DisputeAccepted)
  }

  lemma ClaimStep(t: Tables, account: Id, dispute: Id, newId: Id)
    requires Invariant(t)
    ensures var u := CreateClaim(t, account, dispute, newId).0; u.disputes == t.disputes && ClaimsStep(t, u)
  {
    ClaimAnswer(t, account, dispute, newId);
    hide CreateClaim;
    hide Invariant;
    hide SharesFindings;
    hide Claimed;
  }

  lemma SettlementStep(t: Tables, account: Id, claim: Id, kind: ResolutionKind, amount: Option<nat>,
                       currency: Option<Currency>, finding: Option<Id>, now: int)
    ensures var u := ResolveClaim(t, account, claim, kind, amount, currency, finding, now).0;
            u.disputes == t.disputes && ClaimsStep(t, u)
  {
    hide ResolutionError;
    hide AuditConflicts;
    hide WithAudit;
    hide SettlementRow;
    hide RecoveredOn;
  }

  lemma PaymentStep(t: Tables, account: Id, claim: Id, amount: nat, currency: Currency, finding: Option<Id>,
                    fails: bool)
    ensures var u := RecordPartialRecovery(t, account, claim, amount, currency, finding, fails).0;
            u.disputes == t.disputes && ClaimsStep(t, u)
  {
    hide PartialRecoveryError;
    hide RecoveredOn;
  }

  /** No other step touches disputes; a new claim is one on an accepted dispute. */
  lemma OtherStep(t: Tables, op: Op)
    requires Invariant(t) && Fresh(t, op) && !op.NewDispute? && !op.DisputeResponse?
    ensures After(t, op).disputes == t.disputes && ClaimsStep(t, After(t, op))
  {
    hide Invariant;
    hide CreateClaim;
    hide ResolveClaim;
    hide RecordPartialRecovery;
    match op
    case NewClaim(account, dispute, newId) => ClaimStep(t, account, dispute, newId);
    case Settlement(account, claim, kind, amount, currency, finding, now) =>
      SettlementStep(t, account, claim, kind, amount, currency, finding, now);
    case PartialPayment(account, claim, amount, currency, finding, fails) =>
      PaymentStep(t, account, claim, amount, currency, finding, fails);
    case _ =>
  }

  lemma StepKeepsFair(t: Tables, op: Op)
    requires Invariant(t) && Fresh(t, op) && DisputesFair(t) && ClaimsRest(t)
    ensures DisputesFair(After(t, op)) && ClaimsRest(After(t, op)) && DisputesStep(t, After(t, op))
  {
    HaveAmounts(t);
    hide Invariant;
    hide Respond;
    hide CreateDispute;
    var u := After(t, op);
    match op
    case NewDispute(account, ids, newId) =>
      CreationStep(t, account, ids, newId);
      StepFair(t, u);
    case DisputeResponse(account, dispute, response) =>
      ResponseStep(t, account, dispute, response);
      StepFair(t, u);
    case _ =>
      OtherStep(t, op);
      hide After;
  }

  lemma StepFair(t: Tables, u: Tables)
    requires DisputesFair(t) && ClaimsRest(t) && DisputesStep(t, u) && u.claims == t.claims
    ensures DisputesFair(u) && ClaimsRest(u)
  {
  }

  lemma HaveAmounts(t: Tables)
    requires Invariant(t)
    ensures AllHaveAmounts(t)
  {
    InvariantParts(t);
    hide SumOver;
  }

  lemma {:induction false} RunKeepsFair(states: seq<Tables>, ops: seq<Op>, i: nat)
    requires Run(states, ops) && i < |states|
    ensures DisputesFair(states[i]) && ClaimsRest(states[i])
    ensures i > 0 ==> DisputesStep(states[i - 1], states[i])
    decreases i
  {
    hide Invariant;
    hide After;
    if i > 0 {
      RunKeepsFair(states, ops, i - 1);
      RunKeepsInvariant(states, ops, i - 1);
      assert Fresh(states[i - 1], ops[i - 1]) && states[i] == After(states[i - 1], ops[i - 1]);
      StepKeepsFair(states[i - 1], ops[i - 1]);
    }
  }

  /** Over every run: the dispute of every claim is accepted, or closed since; no dispute is ever in progress; what is
      partially accepted is at most what was claimed, and only a partial dispute, or one closed since, has such an
      amount. */
  lemma ClaimsRestOnAcceptance(states: seq<Tables>, ops: seq<Op>, i: nat)
    requires Run(states, ops) && i < |states|
    ensures forall c | c in states[i].claims ::
              states[i].claims[c].dispute in states[i].disputes
              && states[i].disputes[states[i].claims[c].dispute].status in {DisputeAccepted, Closed}
    ensures forall d | d in states[i].disputes :: DisputeFair(states[i].disputes[d])
  {
    RunKeepsFair(states, ops, i);
  }

  /** Over every run a dispute goes draft, sent, then accepted, rejected or partial, then closed: it never goes back,
      and once resolved it is only ever closed. */
  lemma {:induction false} DisputesGoForward(states: seq<Tables>, ops: seq<Op>, i: nat, j: nat, d: Id)
    requires Run(states, ops) && i <= j < |states| && d in states[i].disputes
    ensures d in states[j].disputes && Progress(states[i].disputes[d].status, states[j].disputes[d].status)
    decreases j
  {
    hide Run;
    hide DisputesFair;
    hide ClaimsRest;
    hide DisputeFair;
    if i < j {
      DisputesGoForward(states, ops, i, j - 1, d);
      RunKeepsFair(states, ops, j);
    }
  }

  // ---- payments ------------------------------------------------------------------------------

  ghost function EventsOn(events: seq<RecoveryEvent>, account: Id, claim: Id): set<nat> {
    set i: nat | i < |events| && events[i].account == account && events[i].claim == claim
  }

  ghost function AmountAt(events: seq<RecoveryEvent>): nat -> int {
    (i: nat) => if i < |events| then events[i].amount else 0
  }

  /** What was recovered on a claim is the sum over its events. */
  lemma {:induction false} RecoveredIsSum(events: seq<RecoveryEvent>, account: Id, claim: Id)
    ensures RecoveredOn(events, account, claim) == SumOver(EventsOn(events, account, claim), AmountAt(events))
    decreases |events|
  {
    if events == [] {
      assert EventsOn(events, account, claim) == {};
    } else {
      var n := |events| - 1;
      var before := events[..n];
      RecoveredIsSum(before, account, claim);
      SumSame(EventsOn(before, account, claim), AmountAt(before), AmountAt(events));
      var mine := events[n].account == account && events[n].claim == claim;
      assert EventsOn(events, account, claim) == EventsOn(before, account, claim) + if mine then {n} else {};
      if mine { SumPutsIn(EventsOn(before, account, claim), AmountAt(events), n); }
      else { assert EventsOn(events, account, claim) == EventsOn(before, account, claim); }
    }
  }

  predicate OwnClaim(t: Tables, account: Id, claim: Id) { claim in t.claims && t.claims[claim].account == account }

  predicate KnownFinding(t: Tables, finding: Option<Id>) { finding.Some? ==> finding.value in t.findings }

  /** A partial recovery: refused for the first of the stated reasons, or one event of that amount, whose export is
      enqueued exactly if that did not fail; it is final exactly when the claim is now recovered in full. */
  lemma PaymentAnswer(t: Tables, account: Id, claim: Id, amount: nat, currency: Currency, finding: Option<Id>,
                      enqueueFails: bool)
    ensures var (u, r) := RecordPartialRecovery(t, account, claim, amount, currency, finding, enqueueFails);
      && (r.Failed? ==> u == t)
      && if !OwnClaim(t, account, claim) then r == Failed(ClaimNotFound)
         else
           var c, paid := t.claims[claim], RecoveredOn(t.recoveries, account, claim);
           if amount == 0 then r == Failed(NonPositiveAmount)
           else if c.currency.Some? && c.currency.value != currency then r == Failed(MixedCurrency)
           else if paid + amount > c.amountClaimed then r == Failed(ExceedsClaimedAmount)
           else if !KnownFinding(t, finding) then r == Failed(ForeignKeyViolation)
           else
             && u == t.(recoveries := t.recoveries + [RecoveryEvent(account, claim, finding, amount, Some(currency))],
                        outbox := u.outbox)
             && (u.outbox == t.outbox + [|t.recoveries|] <==> !enqueueFails) && (enqueueFails ==> u.outbox == t.outbox)
             && r == Done(RecoverySummary(|t.recoveries|, RecoveredOn(u.recoveries, account, claim),
                                          RecoveredOn(u.recoveries, account, claim) == c.amountClaimed))
  {
    OneMoreRecovery(t.recoveries, RecoveryEvent(account, claim, finding, amount, Some(currency)), account, claim);
    hide RecoveredOn;
  }

  // ---- settlements ---------------------------------------------------------------------------

  /** The amount of a resolution, if it pays anything, is positive and in the currency of the claim. */
  predicate WellPaid(c: Claim, amount: Option<nat>, currency: Option<Currency>) {
    amount.Some? && amount.value > 0 && currency.Some? && currency == c.currency
  }

  /** When an open claim can be resolved: a denial pays nothing; a full recovery pays precisely what is missing; a
      write-off pays nothing, or less than what is missing. */
  predicate Resolvable(c: Claim, kind: ResolutionKind, paid: Money, amount: Option<nat>, currency: Option<Currency>) {
    match kind
    case Denial => amount.None?
    case FullRecovery => WellPaid(c, amount, currency) && paid + amount.value == c.amountClaimed
    case WriteOff => amount.None? || (WellPaid(c, amount, currency) && paid + amount.value < c.amountClaimed)
  }

  lemma ResolutionMeaning(c: Claim, kind: ResolutionKind, paid: Money, amount: Option<nat>, currency: Option<Currency>)
    requires c.currency.Some?
    ensures ResolutionError(c, kind, paid, amount, currency) == None
       <==> c.status == ClaimOpen && Resolvable(c, kind, paid, amount, currency)
  {
  }

  /** Why a resolution is refused. */
  lemma ResolutionRefusals(c: Claim, kind: ResolutionKind, paid: Money, amount: Option<nat>,
                           currency: Option<Currency>)
    requires c.currency.Some?
    ensures ResolutionError(c, kind, paid, amount, currency)
         == if c.status != ClaimOpen then Some(AlreadyTerminal)
            else if kind == Denial && amount.Some? then Some(DenialMustNotIncludeAmount)
            else if kind == FullRecovery && amount.None? then Some(NonPositiveAmount)
            else if amount.None? then None
            else if amount.value == 0 then Some(NonPositiveAmount)
            else if currency.None? then Some(MissingCurrency)
            else if currency != c.currency then Some(MixedCurrency)
            else if kind == FullRecovery && paid + amount.value != c.amountClaimed then Some(FullRecoveryAmountMismatch)
            else if kind == WriteOff && paid + amount.value >= c.amountClaimed then Some(WriteOffExceedsClaimedAmount)
            else None
  {
  }

  lemma OwnClaimSound(t: Tables, account: Id, claim: Id)
    requires Invariant(t) && OwnClaim(t, account, claim)
    ensures t.claims[claim].currency.Some? && Total(t, claim) == RecoveredOn(t.recoveries, account, claim)
  {
    InvariantParts(t);
    assert ClaimSound(t, t.claims[claim]);
  }

  lemma SettlementIs(t: Tables, account: Id, claim: Id, kind: ResolutionKind, amount: Option<nat>,
                     currency: Option<Currency>, finding: Option<Id>, now: int)
    requires Invariant(t)
    ensures var (u, r) := ResolveClaim(t, account, claim, kind, amount, currency, finding, now);
      if !OwnClaim(t, account, claim) then u == t && r == Failed(ClaimNotFound)
      else
        var paid := RecoveredOn(t.recoveries, account, claim);
        var error := ResolutionError(t.claims[claim], kind, paid, amount, currency);
        if error.Some? then u == t && r == Failed(error.value)
        else if amount.Some? && !KnownFinding(t, finding) then u == t && r == Failed(ForeignKeyViolation)
        else u == Settle(t, account, claim, kind, amount, currency, finding, now)
             && r == Done(Resolution(TargetStatus(kind), SettlementEvent(t, amount)))
  {
    InvariantParts(t);
    SettlementPasses(t, account, claim, kind, amount, currency, finding, now);
    hide Invariant;
    hide ClaimInvariant;
    hide RecoveriesSound;
    hide ResolutionsSound;
    hide RecoveredOn;
    hide Settle;
    hide AuditConflicts;
    hide SettlementRow;
    hide SettlementEvent;
    hide ResolutionError;
    hide ClaimsSound;
  }

  /** Exactly when a settlement goes through. */
  lemma SettledExactly(t: Tables, account: Id, claim: Id, kind: ResolutionKind, amount: Option<nat>,
                       currency: Option<Currency>, finding: Option<Id>, now: int)
    requires Invariant(t)
    ensures ResolveClaim(t, account, claim, kind, amount, currency, finding, now).1.Done?
       <==> && OwnClaim(t, account, claim) && t.claims[claim].status == ClaimOpen
            && Resolvable(t.claims[claim], kind, RecoveredOn(t.recoveries, account, claim), amount, currency)
            && (amount.Some? ==> KnownFinding(t, finding))
  {
    SettlementIs(t, account, claim, kind, amount, currency, finding, now);
    if OwnClaim(t, account, claim) {
      OwnClaimSound(t, account, claim);
      ResolutionMeaning(t.claims[claim], kind, RecoveredOn(t.recoveries, account, claim), amount, currency);
    }
    hide Invariant;
    hide ResolveClaim;
    hide RecoveredOn;
    hide ResolutionError;
    hide Resolvable;
    hide Settle;
  }

  /** Why a settlement is refused. */
  lemma SettlementRefusals(t: Tables, account: Id, claim: Id, kind: ResolutionKind, amount: Option<nat>,
                           currency: Option<Currency>, finding: Option<Id>, now: int)
    requires Invariant(t)
    ensures var (u, r) := ResolveClaim(t, account, claim, kind, amount, currency, finding, now);
      && (r.Failed? ==> u == t)
      && if !OwnClaim(t, account, claim) then r == Failed(ClaimNotFound)
         else
           var c, paid := t.claims[claim], RecoveredOn(t.recoveries, account, claim);
           if c.status != ClaimOpen then r == Failed(AlreadyTerminal)
           else if kind == Denial && amount.Some? then r == Failed(DenialMustNotIncludeAmount)
           else if kind == FullRecovery && amount.None? then r == Failed(NonPositiveAmount)
           else if amount.None? then r.Done?
           else if amount.value == 0 then r == Failed(NonPositiveAmount)
           else if currency.None? then r == Failed(MissingCurrency)
           else if currency != c.currency then r == Failed(MixedCurrency)
           else if kind == FullRecovery && paid + amount.value != c.amountClaimed
           then r == Failed(FullRecoveryAmountMismatch)
           else if kind == WriteOff && paid + amount.value >= c.amountClaimed
           then r == Failed(WriteOffExceedsClaimedAmount)
           else if !KnownFinding(t, finding) then r == Failed(ForeignKeyViolation)
           else r.Done?
  {
    SettlementIs(t, account, claim, kind, amount, currency, finding, now);
    if OwnClaim(t, account, claim) {
      OwnClaimSound(t, account, claim);
      ResolutionRefusals(t.claims[claim], kind, RecoveredOn(t.recoveries, account, claim), amount, currency);
    }
    hide Invariant;
    hide ResolveClaim;
    hide RecoveredOn;
    hide ResolutionError;
    hide Settle;
  }

  /** The status each kind of resolution leaves the claim in, and the one it leaves a named finding in, if any. */
  predicate Leaves(kind: ResolutionKind, claim: ClaimStatus, finding: Option<FindingStatus>) {
    || (kind == FullRecovery && claim == Recovered && finding == Some(FindingRecovered))
    || (kind == WriteOff && claim == WrittenOff && finding == Some(FindingWrittenOff))
    || (kind == Denial && claim == Denied && finding == None)
  }

  /** The recovery event if something was paid, the status of the claim, and one row of audit. */
  predicate MoneyWritten(t: Tables, u: Tables, account: Id, claim: Id, status: ClaimStatus, kind: ResolutionKind,
                         amount: Option<nat>, currency: Option<Currency>, finding: Option<Id>, now: int)
    requires claim in t.claims
  {
    && u.claims == t.claims[claim := t.claims[claim].(status := status)]
    && u.recoveries == (if amount.Some?
                        then t.recoveries + [RecoveryEvent(account, claim, finding, amount.value, currency)]
                        else t.recoveries)
    && u.audit == t.audit[AuditKey(account, claim, status) :=
                            AuditRow(now, kind, amount, if amount.Some? then currency else None,
                                     if amount.Some? then Some(|t.recoveries|) else None)]
    && u.disputes == t.disputes && u.lines == t.lines && u.outbox == t.outbox
  }

  /** The status of a named finding of the tenant with its history; no other finding. */
  predicate MirrorWritten(t: Tables, u: Tables, account: Id, finding: Option<Id>, mirror: Option<FindingStatus>) {
    if mirror.Some? && finding.Some? && finding.value in t.findings && t.findings[finding.value].account == account
    then && u.findings == t.findings[finding.value := t.findings[finding.value].(status := mirror.value)]
         && u.history == t.history
              + [StatusEvent(account, finding.value, t.findings[finding.value].status, mirror.value)]
    else u.findings == t.findings && u.history == t.history
  }

  /** What a settlement writes, all of it: the money, and the mirrored status of the named finding; a denial leaves the
      finding as it is. */
  lemma SettlementEffect(t: Tables, account: Id, claim: Id, kind: ResolutionKind, amount: Option<nat>,
                         currency: Option<Currency>, finding: Option<Id>, now: int)
    returns (status: ClaimStatus, mirror: Option<FindingStatus>)
    requires Invariant(t) && ResolveClaim(t, account, claim, kind, amount, currency, finding, now).1.Done?
    ensures Leaves(kind, status, mirror) && claim in t.claims
    ensures var (u, r) := ResolveClaim(t, account, claim, kind, amount, currency, finding, now);
      && MoneyWritten(t, u, account, claim, status, kind, amount, currency, finding, now)
      && MirrorWritten(t, u, account, finding, mirror)
      && r.value == Resolution(status, if amount.Some? then Some(|t.recoveries|) else None)
  {
    status := match kind case FullRecovery => Recovered case WriteOff => WrittenOff case Denial => Denied;
    mirror := match kind
      case FullRecovery => Some(FindingRecovered)
      case WriteOff => Some(FindingWrittenOff)
      case Denial => None;
    SettlementIs(t, account, claim, kind, amount, currency, finding, now);
    FreshAudit(t, account, claim, kind, amount, currency);
    assert status == TargetStatus(kind);
    hide Invariant;
    hide ResolveClaim;
    hide RecoveredOn;
    hide ResolutionError;
    hide MoneyWritten;
    hide MirrorWritten;
    hide Settle;
    SettleMoney(t, account, claim, kind, amount, currency, finding, now);
    SettleMirror(t, account, claim, kind, amount, currency, finding, mirror, now);
  }

  lemma SettleMoney(t: Tables, account: Id, claim: Id, kind: ResolutionKind, amount: Option<nat>,
                    currency: Option<Currency>, finding: Option<Id>, now: int)
    requires claim in t.claims && AuditKey(account, claim, TargetStatus(kind)) !in t.audit
    ensures MoneyWritten(t, Settle(t, account, claim, kind, amount, currency, finding, now), account, claim,
                         TargetStatus(kind), kind, amount, currency, finding, now)
  {
    hide TargetStatus;
  }

  lemma SettleMirror(t: Tables, account: Id, claim: Id, kind: ResolutionKind, amount: Option<nat>,
                     currency: Option<Currency>, finding: Option<Id>, mirror: Option<FindingStatus>, now: int)
    requires claim in t.claims
    requires mirror == match kind
             case FullRecovery => Some(FindingRecovered)
             case WriteOff => Some(FindingWrittenOff)
             case Denial => None
    ensures MirrorWritten(t, Settle(t, account, claim, kind, amount, currency, finding, now), account, finding, mirror)
  {
    hide WithAudit;
    hide SettlementRow;
  }

  /** The audit row of a settlement that goes through is a new one. */
  lemma FreshAudit(t: Tables, account: Id, claim: Id, kind: ResolutionKind, amount: Option<nat>,
                   currency: Option<Currency>)
    requires Invariant(t)
    ensures OwnClaim(t, account, claim)
            && ResolutionError(t.claims[claim], kind, RecoveredOn(t.recoveries, account, claim), amount,
                               currency) == None
        ==> AuditKey(account, claim, TargetStatus(kind)) !in t.audit
  {
    InvariantParts(t);
    if OwnClaim(t, account, claim) && t.claims[claim].status == ClaimOpen { NoAuditConflict(t, account, claim, kind); }
    hide Invariant;
    hide ResolutionsSound;
  }

  // ---- findings and dispute creation ---------------------------------------------------------

  /** A finding of the tenant gets the status, and its history one row that says from what to what; no other row
      changes, and a finding that is not the tenant's is left alone. */
  lemma StatusAnswer(t: Tables, account: Id, f: Id, to: FindingStatus)
    ensures var u := WithFindingStatus(t, account, f, to);
      && u == t.(findings := u.findings, history := u.history) && u.findings.Keys == t.findings.Keys
      && (forall g | g in t.findings && g != f :: u.findings[g] == t.findings[g])
      && if f in t.findings && t.findings[f].account == account
         then && u.findings[f].status == to && u.findings[f].(status := t.findings[f].status) == t.findings[f]
              && u.history == t.history + [StatusEvent(account, f, t.findings[f].status, to)]
         else u == t
  {
  }

  /** A finding a dispute could be made of: requested, the tenant's, and no undercharge. */
  predicate Wanted(t: Tables, account: Id, ids: seq<Id>, f: Id) {
    f in ids && f in t.findings && t.findings[f].account == account && t.findings[f].direction != Some(Undercharge)
  }

  predicate Ascends(order: seq<Id>) { forall i, j | 0 <= i < j < |order| :: order[i] < order[j] }

  /** Why a finding is not ready for a dispute, if it is not. */
  predicate Unready(f: Finding, e: Error) {
    || (f.status != Accepted && e == NotAccepted)
    || (f.status == Accepted && f.carrier.None? && e == MissingCarrier)
    || (f.status == Accepted && f.carrier.Some? && (f.amount.None? || f.currency.None?) && e == MissingAmount)
  }

  predicate Ready(f: Finding) { f.status == Accepted && f.carrier.Some? && f.amount.Some? && f.currency.Some? }

  predicate AllKnown(t: Tables, order: seq<Id>) { forall k | 0 <= k < |order| :: order[k] in t.findings }

  /** The first finding that is not ready, with the reason. */
  predicate FirstUnready(t: Tables, order: seq<Id>, k: int, e: Error)
    requires AllKnown(t, order)
  {
    && 0 <= k < |order| && Unready(t.findings[order[k]], e)
    && forall j | 0 <= j < k :: Ready(t.findings[order[j]])
  }

  predicate AllReady(t: Tables, order: seq<Id>)
    requires AllKnown(t, order)
  {
    forall k | 0 <= k < |order| :: Ready(t.findings[order[k]])
  }

  predicate OneCarrier(t: Tables, order: seq<Id>)
    requires AllKnown(t, order)
  {
    forall k | 0 <= k < |order| :: t.findings[order[k]].carrier == t.findings[order[0]].carrier
  }

  predicate OneCurrency(t: Tables, order: seq<Id>)
    requires AllKnown(t, order)
  {
    forall k | 0 <= k < |order| :: t.findings[order[k]].currency == t.findings[order[0]].currency
  }

  /** A draft over the findings together, a line for each, and each moved on with its history; nothing else. */
  ghost predicate CreationWritten(t: Tables, u: Tables, account: Id, order: seq<Id>, dispute: Id)
    requires AllKnown(t, order) && order != []
  {
    && u.disputes == t.disputes[dispute :=
         Dispute(account, t.findings[order[0]].carrier, Draft, Some(SumOver(Elements(order), Values(t.findings))),
                 t.findings[order[0]].currency, None)]
    && LinesAdded(t, u, account, order, dispute) && StatusesMoved(t, u, account, order)
    && u.claims == t.claims && u.recoveries == t.recoveries && u.audit == t.audit && u.outbox == t.outbox
  }

  ghost function Elements(order: seq<Id>): set<Id> { set f | f in order }

  predicate LinesAdded(t: Tables, u: Tables, account: Id, order: seq<Id>, dispute: Id)
    requires AllKnown(t, order)
  {
    && |u.lines| == |t.lines| + |order| && u.lines[..|t.lines|] == t.lines
    && forall k | 0 <= k < |order| :: u.lines[|t.lines| + k]
         == DisputeLine(account, dispute, order[k], t.findings[order[k]].amount, t.findings[order[k]].currency)
  }

  predicate StatusesMoved(t: Tables, u: Tables, account: Id, order: seq<Id>)
    requires AllKnown(t, order)
  {
    && u.findings.Keys == t.findings.Keys
    && (forall f | f in t.findings :: u.findings[f] == if f in order then t.findings[f].(status := QueuedForDispute)
                                                       else t.findings[f])
    && |u.history| == |t.history| + |order| && u.history[..|t.history|] == t.history
    && forall k | 0 <= k < |order| ::
         u.history[|t.history| + k] == StatusEvent(account, order[k], t.findings[order[k]].status, QueuedForDispute)
  }

  // ---- the same, of the rows the statement reads ---------------------------------------------

  lemma {:induction false} LinesHistory(t: Tables, account: Id, dispute: Id, rows: seq<Row>)
    requires RowsRead(t, account, rows)
    ensures var u := WithLines(t, account, dispute, rows);
            u.history == t.history + Events(account, rows) && u.outbox == t.outbox
    decreases |rows|
  {
    if rows != [] {
      var n := |rows| - 1;
      var before, row := rows[..n], rows[n];
      LinesHistory(t, account, dispute, before);
      WithLinesEffect(t, account, dispute, before);
      assert row.id !in IdSet(before);
      OneMoreLine(WithLines(t, account, dispute, before), account, dispute, row);
      assert Events(account, rows) == Events(account, before)
          + [StatusEvent(account, row.id, row.finding.status, QueuedForDispute)];
      hide WithLine;
      hide IdSet;
      hide NewLines;
    }
  }

  function Events(account: Id, rows: seq<Row>): seq<StatusEvent> {
    seq(|rows|, i requires 0 <= i < |rows| => StatusEvent(account, rows[i].id, rows[i].finding.status,
                                                          QueuedForDispute))
  }

  lemma OneMoreLine(t: Tables, account: Id, dispute: Id, row: Row)
    requires row.id in t.findings && t.findings[row.id] == row.finding && row.finding.account == account
    ensures WithLine(t, account, dispute, row).history
         == t.history + [StatusEvent(account, row.id, row.finding.status, QueuedForDispute)]
    ensures WithLine(t, account, dispute, row).outbox == t.outbox
  {
  }

  lemma WantedRows(t: Tables, account: Id, ids: seq<Id>) returns (rows: seq<Row>)
    ensures rows == Claimable(Selected(t.findings, account, Ascending(ids)))
    ensures RowsRead(t, account, rows) && Ascends(IdsOf(rows)) && AllKnown(t, IdsOf(rows))
    ensures forall f :: f in IdsOf(rows) <==> Wanted(t, account, ids, f)
  {
    rows := Claimable(Selected(t.findings, account, Ascending(ids)));
    ClaimableRowsRead(t, account, ids);
    RowsAscend(t, account, rows);
    forall f ensures f in IdsOf(rows) <==> Wanted(t, account, ids, f) { WantedRow(t, account, ids, rows, f); }
    hide Wanted;
    hide Claimable;
    hide Selected;
    hide Ascending;
  }

  lemma RowsAscend(t: Tables, account: Id, rows: seq<Row>)
    requires RowsRead(t, account, rows)
    ensures Ascends(IdsOf(rows)) && AllKnown(t, IdsOf(rows))
  {
  }

  lemma WantedRow(t: Tables, account: Id, ids: seq<Id>, rows: seq<Row>, f: Id)
    requires rows == Claimable(Selected(t.findings, account, Ascending(ids)))
    ensures f in IdsOf(rows) <==> Wanted(t, account, ids, f)
  {
    var order := IdsOf(rows);
    var all := Selected(t.findings, account, Ascending(ids));
    if Wanted(t, account, ids, f) {
      assert Row(f, t.findings[f]) in all;
      assert Row(f, t.findings[f]) in rows;
      var k :| 0 <= k < |rows| && rows[k] == Row(f, t.findings[f]);
      assert order[k] == f;
    }
    if f in order {
      var k :| 0 <= k < |order| && order[k] == f;
      assert rows[k] in rows;
      assert rows[k] in all;
      var j :| 0 <= j < |all| && all[j] == rows[k];
      assert f in Ascending(ids);
    }
  }

  lemma {:induction false} FirstErrorMeaning(t: Tables, account: Id, rows: seq<Row>, k: nat)
    requires RowsRead(t, account, rows) && k < |rows| && RowError(rows[k].finding).Some?
    requires forall j | 0 <= j < k :: RowError(rows[j].finding).None?
    ensures FirstRowError(rows) == RowError(rows[k].finding)
    decreases |rows|
  {
    if k > 0 {
      assert RowError(rows[0].finding).None?;
      assert forall j | 0 <= j < |rows[1..]| :: rows[1..][j] == rows[j + 1];
      FirstErrorMeaning(t, account, rows[1..], k - 1);
    }
    hide RowError;
  }

  lemma ReadyMeaning(f: Finding)
    ensures RowError(f).None? <==> Ready(f)
    ensures forall e :: Unready(f, e) <==> RowError(f) == Some(e)
  {
  }

  lemma DisputableMeaning(t: Tables, account: Id, all: seq<Row>)
    requires RowsRead(t, account, Claimable(all))
    ensures AllKnown(t, IdsOf(Claimable(all)))
    ensures var order := IdsOf(Claimable(all));
      && (order == [] ==> DisputableError(all) == Some(EmptySet))
      && (order != [] && AllReady(t, order) ==>
            DisputableError(all) == if !OneCarrier(t, order) then Some(MixedCarrier)
                                    else if !OneCurrency(t, order) then Some(MixedCurrency) else None)
      && (forall k, e | FirstUnready(t, order, k, e) :: DisputableError(all) == Some(e))
  {
    var rows := Claimable(all);
    var order := IdsOf(rows);
    forall k | 0 <= k < |rows|
      ensures t.findings[order[k]] == rows[k].finding
      ensures RowError(rows[k].finding).None? <==> Ready(t.findings[order[k]])
      ensures forall e :: Unready(t.findings[order[k]], e) <==> RowError(rows[k].finding) == Some(e)
    {
      ReadyMeaning(rows[k].finding);
    }
    hide Claimable;
    hide RowError;
    hide Ready;
    hide Unready;
    forall k, e | FirstUnready(t, order, k, e) ensures FirstRowError(rows) == Some(e) {
      forall j | 0 <= j < k ensures RowError(rows[j].finding).None? { assert Ready(t.findings[order[j]]); }
      FirstErrorMeaning(t, account, rows, k);
    }
    hide RowsRead;
    hide FirstUnready;
  }

  /** Why a dispute is refused: nothing to claim, the first finding in id order that is not ready, or findings of
      several carriers or currencies. Then nothing changes. */
  lemma CreationRefusals(t: Tables, account: Id, ids: seq<Id>, newId: Id) returns (order: seq<Id>)
    ensures Ascends(order) && AllKnown(t, order) && forall f :: f in order <==> Wanted(t, account, ids, f)
    ensures var (u, r) := CreateDispute(t, account, ids, newId);
      && (r.Failed? ==> u == t)
      && (order == [] ==> r == Failed(EmptySet))
      && (forall k, e | FirstUnready(t, order, k, e) :: r == Failed(e))
      && (order != [] && AllReady(t, order) ==>
            if !OneCarrier(t, order) then r == Failed(MixedCarrier)
            else if !OneCurrency(t, order) then r == Failed(MixedCurrency) else r.Done?)
  {
    var rows := WantedRows(t, account, ids);
    order := IdsOf(rows);
    DisputableMeaning(t, account, Selected(t.findings, account, Ascending(ids)));
    hide DisputableError;
    hide Claimable;
    hide Selected;
    hide Ascending;
    hide IdsOf;
    hide WithLines;
    hide FirstUnready;
    hide AllReady;
    hide OneCarrier;
    hide OneCurrency;
    hide Wanted;
    hide TotalOf;
    hide RowsRead;
  }

  /** A dispute that is created: exactly for a nonempty set of ready findings of one carrier and one currency; and all
      that is written then. */
  lemma CreationAnswer(t: Tables, account: Id, ids: seq<Id>, newId: Id) returns (order: seq<Id>)
    requires newId !in t.disputes
    ensures Ascends(order) && AllKnown(t, order) && forall f :: f in order <==> Wanted(t, account, ids, f)
    ensures var (u, r) := CreateDispute(t, account, ids, newId);
      && (r.Done? <==> order != [] && AllReady(t, order) && OneCarrier(t, order) && OneCurrency(t, order))
      && (r.Done? ==>
            && CreationWritten(t, u, account, order, newId)
            && r.value == DisputeSummary(newId, order, SumOver(Elements(order), Values(t.findings)),
                                         t.findings[order[0]].currency))
  {
    order := CreationRefusals(t, account, ids, newId);
    var rows := WantedRows(t, account, ids);
    SameOrder(order, IdsOf(rows));
    var (u, r) := CreateDispute(t, account, ids, newId);
    SomeUnready(t, order);
    if r.Done? {
      CreateDisputeEffect(t, account, ids, newId);
      CreatedWritten(t, u, account, ids, newId, rows);
    }
    hide *;
  }

  /** Ascending sequences with the same elements are the same. */
  lemma {:induction false} SameOrder(a: seq<Id>, b: seq<Id>)
    requires Ascends(a) && Ascends(b) && forall f :: f in a <==> f in b
    ensures a == b
    decreases |a|
  {
    if a != [] {
      assert a[0] in b;
      assert b[0] in a;
      var i :| 0 <= i < |b| && b[i] == a[0];
      var j :| 0 <= j < |a| && a[j] == b[0];
      assert a[0] == b[0];
      forall f ensures f in a[1..] <==> f in b[1..] {
        assert f in a[1..] <==> f in a && f != a[0];
        assert f in b[1..] <==> f in b && f != b[0];
      }
      SameOrder(a[1..], b[1..]);
      assert a == [a[0]] + a[1..] && b == [b[0]] + b[1..];
    } else if b != [] {
      HeadIn(b);
      assert false;
    }
  }

  lemma HeadIn(order: seq<Id>)
    requires order != []
    ensures order[0] in order
  {
  }

  lemma SomeUnready(t: Tables, order: seq<Id>)
    requires AllKnown(t, order)
    ensures AllReady(t, order) || exists k, e :: FirstUnready(t, order, k, e)
  {
    if !AllReady(t, order) {
      var k := LeastUnready(t, order, |order|);
      var f := t.findings[order[k]];
      var e := if f.status != Accepted then NotAccepted else if f.carrier.None? then MissingCarrier else MissingAmount;
      assert FirstUnready(t, order, k, e);
    }
  }

  lemma {:induction false} LeastUnready(t: Tables, order: seq<Id>, n: nat) returns (k: nat)
    requires AllKnown(t, order) && n <= |order| && exists j :: 0 <= j < n && !Ready(t.findings[order[j]])
    ensures k < n && !Ready(t.findings[order[k]]) && forall j | 0 <= j < k :: Ready(t.findings[order[j]])
    decreases n
  {
    hide Ready;
    if exists j :: 0 <= j < n - 1 && !Ready(t.findings[order[j]]) {
      k := LeastUnready(t, order, n - 1);
    } else {
      k := n - 1;
    }
  }

  lemma CreatedWritten(t: Tables, u: Tables, account: Id, ids: seq<Id>, dispute: Id, rows: seq<Row>)
    requires u == CreateDispute(t, account, ids, dispute).0 && CreateDispute(t, account, ids, dispute).1.Done?
    requires rows == Claimable(Selected(t.findings, account, Ascending(ids))) && Created(t, u, account, dispute, rows)
    ensures AllKnown(t, IdsOf(rows)) && rows != [] && CreationWritten(t, u, account, IdsOf(rows), dispute)
    ensures CreateDispute(t, account, ids, dispute).1.value
         == DisputeSummary(dispute, IdsOf(rows), SumOver(Elements(IdsOf(rows)), Values(t.findings)),
                           t.findings[IdsOf(rows)[0]].currency)
  {
    var order := IdsOf(rows);
    TotalIsWorth(t, account, rows);
    assert IdSet(rows) == Elements(order) by {
      forall f | f in Elements(order) ensures f in IdSet(rows) { var k :| 0 <= k < |order| && order[k] == f; }
      forall f | f in IdSet(rows) ensures f in Elements(order) {
        var k :| 0 <= k < |rows| && rows[k].id == f;
        assert order[k] in order;
      }
    }
    CreationHistory(t, account, ids, dispute, rows);
    hide CreateDispute;
    hide TotalOf;
    hide SumOver;
    hide IdSet;
    hide Claimable;
    hide Selected;
    hide Ascending;
    hide Agreeing;
    QueuedStatuses(t, u, account, rows);
    NewLinesAdded(t, u, account, dispute, rows);
    hide LinesAdded;
    hide StatusesMoved;
    hide Queued;
    hide NewLines;
  }

  lemma CreationHistory(t: Tables, account: Id, ids: seq<Id>, dispute: Id, rows: seq<Row>)
    requires CreateDispute(t, account, ids, dispute).1.Done? && dispute !in t.disputes
    requires rows == Claimable(Selected(t.findings, account, Ascending(ids))) && RowsRead(t, account, rows)
    requires rows != []
    ensures var (u, r) := CreateDispute(t, account, ids, dispute);
      && u.history == t.history + Events(account, rows) && u.outbox == t.outbox
      && r.value == DisputeSummary(dispute, IdsOf(rows), TotalOf(rows), rows[0].finding.currency)
  {
    var drafted := t.(disputes := t.disputes[dispute := FirstDraft(account, rows)]);
    hide *;
    SameRowsRead(t, drafted, account, rows);
    LinesHistory(drafted, account, dispute, rows);
    CreationIs(t, account, ids, dispute, rows);
  }

  lemma SameRowsRead(t: Tables, u: Tables, account: Id, rows: seq<Row>)
    requires RowsRead(t, account, rows) && u.findings == t.findings
    ensures RowsRead(u, account, rows)
  {
  }

  lemma CreationIs(t: Tables, account: Id, ids: seq<Id>, dispute: Id, rows: seq<Row>)
    requires CreateDispute(t, account, ids, dispute).1.Done?
    requires rows == Claimable(Selected(t.findings, account, Ascending(ids))) && rows != []
    ensures var drafted := t.(disputes := t.disputes[dispute := FirstDraft(account, rows)]);
            CreateDispute(t, account, ids, dispute)
            == (WithLines(drafted, account, dispute, rows),
                Done(DisputeSummary(dispute, IdsOf(rows), TotalOf(rows), rows[0].finding.currency)))
  {
    hide WithLines;
    hide Claimable;
    hide Selected;
    hide Ascending;
    hide DisputableError;
    hide TotalOf;
    hide IdsOf;
  }

  lemma QueuedStatuses(t: Tables, u: Tables, account: Id, rows: seq<Row>)
    requires RowsRead(t, account, rows) && u.findings == Queued(t.findings, account, IdSet(rows))
    requires u.history == t.history + Events(account, rows)
    ensures AllKnown(t, IdsOf(rows)) && StatusesMoved(t, u, account, IdsOf(rows))
  {
    var order := IdsOf(rows);
    forall f | f in t.findings ensures f in IdSet(rows) <==> f in order {
      if f in order { var k :| 0 <= k < |order| && order[k] == f; assert rows[k].id == f; }
      if f in IdSet(rows) { var k :| 0 <= k < |rows| && rows[k].id == f; assert order[k] in order; }
    }
    forall f | f in order ensures f in t.findings && t.findings[f].account == account {
      var k :| 0 <= k < |order| && order[k] == f;
      assert rows[k].id == f;
    }
  }

  lemma NewLinesAdded(t: Tables, u: Tables, account: Id, dispute: Id, rows: seq<Row>)
    requires RowsRead(t, account, rows) && u.lines == t.lines + NewLines(account, dispute, rows)
    ensures AllKnown(t, IdsOf(rows)) && LinesAdded(t, u, account, IdsOf(rows), dispute)
  {
  }
}
