/** The tables as fields, and one method per transaction that runs its statements on them. */
module LedgerStore {
  import opened Ledger
  import opened LedgerRuns
  import opened Sums

  class Store {
    var findings: map<Id, Finding>
    var history: seq<StatusEvent>
    var disputes: map<Id, Dispute>
    var lines: seq<DisputeLine>
    var claims: map<Id, Claim>
    var recoveries: seq<RecoveryEvent>
    var audit: map<AuditKey, AuditRow>
    var outbox: seq<Id>

    function State(): Tables
      reads this
    {
      Tables(findings, history, disputes, lines, claims, recoveries, audit, outbox)
    }

    constructor ()
      ensures State() == EMPTY
    {
      findings, disputes, claims, audit := map[], map[], map[], map[];
      history, lines, recoveries, outbox := [], [], [], [];
    }

    /** `updateFindingStatus`, also under `applyFindingAction` and the status route. */
    method UpdateFindingStatus(account: Id, finding: Id, to: FindingStatus) returns (found: bool)
      modifies `findings, `history
      ensures State() == WithFindingStatus(old(State()), account, finding, to)
      ensures found == (finding in old(findings) && old(findings)[finding].account == account)
    {
      found := false;
      if finding in findings && findings[finding].account == account {
        var from := findings[finding].status;
        findings := findings[finding := findings[finding].(status := to)];
        history := history + [StatusEvent(account, finding, from, to)];
        found := true;
      }
    }

    /** One line per claimable finding, each finding moved on with it. */
    method AddLines(account: Id, dispute: Id, rows: seq<Row>)
      modifies this
      ensures State() == WithLines(old(State()), account, dispute, rows)
    {
      for i := 0 to |rows|
        invariant State() == WithLines(old(State()), account, dispute, rows[..i])
      {
        var row := rows[i];
        lines := lines + [DisputeLine(account, dispute, row.id, row.finding.amount, row.finding.currency)];
        var _ := UpdateFindingStatus(account, row.id, QueuedForDispute);
        assert rows[..i + 1][..i] == rows[..i];
      }
      assert rows[..|rows|] == rows;
    }

    method CreateDisputeFromFindings(account: Id, ids: seq<Id>, newId: Id) returns (r: Reply<DisputeSummary>)
      requires newId !in disputes
      modifies this
      ensures (State(), r) == CreateDispute(old(State()), account, ids, newId)
      ensures Invariant(old(State())) ==> Invariant(State())
    {
      ghost var before := State();
      if Invariant(before) { StepKeepsInvariant(before, NewDispute(account, ids, newId)); }
      assert After(before, NewDispute(account, ids, newId)) == CreateDispute(before, account, ids, newId).0;
      var rows := Selected(findings, account, Ascending(ids));
      var claimable := Claimable(rows);
      CreateDisputeInSteps(before, account, ids, newId);
      hide *;
      if DisputableError(rows) != None { return Failed(DisputableError(rows).value); }
      var first := claimable[0].finding;
      disputes := disputes[newId := Dispute(account, first.carrier, Draft, Some(TotalOf(claimable)), first.currency,
                                            None)];
      AddLines(account, newId, claimable);
      r := Done(DisputeSummary(newId, IdsOf(claimable), TotalOf(claimable), first.currency));
    }

    /** A transition: read the row, check the state it starts from, then the guarded update. */
    method RespondToDispute(account: Id, dispute: Id, response: Response) returns (r: Reply<bool>)
      modifies `disputes
      ensures (State(), r) == Respond(old(State()), account, dispute, response)
      ensures Invariant(old(State())) ==> Invariant(State())
    {
      ghost var before := State();
      r := Done(false);
      if dispute in disputes && disputes[dispute].account == account && MayFollow(response, disputes[dispute].status) {
        var d := disputes[dispute];
        if response.PartiallyAccept? && d.amountClaimed.Some? && response.acceptedAmount > d.amountClaimed.value {
          return Failed(AcceptedAmountExceedsClaimed);
        }
        disputes := disputes[dispute := d.(status := StatusAfter(response))];
        if response.PartiallyAccept? {
          disputes := disputes[dispute := disputes[dispute].(acceptedAmount := Some(response.acceptedAmount))];
        }
        assert disputes == before.disputes[dispute := disputes[dispute]];
        r := Done(true);
      }
      assert (State(), r) == Respond(before, account, dispute, response);
      hide Invariant;
      if Invariant(before) { StepKeepsInvariant(before, DisputeResponse(account, dispute, response)); }
    }

    /** `selectExistingClaim`: the row of the unique index, if any. */
    method SelectExistingClaim(account: Id, dispute: Id) returns (existing: Option<Id>)
      ensures existing == None <==> !HasClaim(State(), account, dispute)
      ensures existing.Some? ==> existing.value in ClaimsOn(State(), account, dispute)
    {
      existing := None;
      var rest := claims.Keys;
      while rest != {}
        invariant rest <= claims.Keys
        invariant existing == None ==> forall c | c in ClaimsOn(State(), account, dispute) :: c in rest
        invariant existing.Some? ==> existing.value in ClaimsOn(State(), account, dispute)
        decreases rest
      {
        var c :| c in rest;
        if claims[c].account == account && claims[c].dispute == dispute {
          assert c in ClaimsOn(State(), account, dispute);
          return Some(c);
        }
        rest := rest - {c};
      }
    }

    method CreateClaimFromDispute(account: Id, dispute: Id, newId: Id) returns (r: Reply<ClaimSummary>)
      requires newId !in claims && OneClaimPerDispute(State())
      modifies `claims
      ensures (State(), r) == CreateClaim(old(State()), account, dispute, newId)
      ensures Invariant(old(State())) ==> Invariant(State())
    {
      ghost var before := State();
      hide Invariant;
      if !(dispute in disputes && disputes[dispute].account == account) { return Failed(DisputeNotFound); }
      var existing := SelectExistingClaim(account, dispute);
      if existing.Some? {
        var c := claims[existing.value];
        assert forall e | e in ClaimsOn(State(), account, dispute) :: claims[e].dispute == c.dispute;
        return Done(ClaimSummary(existing.value, dispute, c.amountClaimed, c.currency, false));
      }
      var d := disputes[dispute];
      if ClaimableError(d) != None { return Failed(ClaimableError(d).value); }
      var conflicting := AlreadyClaimed(State(), account, dispute);
      if conflicting != {} { return Failed(DuplicateClaimedFinding(conflicting)); }
      claims := claims[newId := Claim(account, dispute, d.amountClaimed.value, d.currency, ClaimOpen)];
      r := Done(ClaimSummary(newId, dispute, d.amountClaimed.value, d.currency, true));
      assert (State(), r) == CreateClaim(before, account, dispute, newId);
      if Invariant(before) { StepKeepsInvariant(before, NewClaim(account, dispute, newId)); }
    }

    /** The `SUM` over the recovery events of a claim. */
    method SumRecovered(account: Id, claim: Id) returns (total: Money)
      ensures total == RecoveredOn(recoveries, account, claim)
    {
      total := 0;
      for i := 0 to |recoveries|
        invariant total == RecoveredOn(recoveries[..i], account, claim)
      {
        assert recoveries[..i + 1][..i] == recoveries[..i];
        if recoveries[i].account == account && recoveries[i].claim == claim { total := total + recoveries[i].amount; }
      }
      assert recoveries[..|recoveries|] == recoveries;
    }

    /** The recovery stays whether or not its export could be enqueued: a failed enqueue, after any
        write of its own, is rolled back to the savepoint only. */
    method RecordRecovery(account: Id, claim: Id, amount: nat, currency: Currency, finding: Option<Id>,
                          enqueueFails: bool)
      returns (r: Reply<RecoverySummary>)
      modifies `recoveries, `outbox
      ensures (State(), r) == RecordPartialRecovery(old(State()), account, claim, amount, currency, finding,
                                                    enqueueFails)
      ensures Invariant(old(State())) ==> Invariant(State())
    {
      ghost var before := State();
      PartialRecoveryInSteps(before, account, claim, amount, currency, finding, enqueueFails);
      PartialRecoveryKeeps(before, account, claim, amount, currency, finding, enqueueFails);
      hide Invariant;
      hide RecordPartialRecovery;
      hide RecoveredOn;
      hide PartialRecoveryError;
      hide NamesFinding;
      if !(claim in claims && claims[claim].account == account) { return Failed(ClaimNotFound); }
      var c := claims[claim];
      var prior := SumRecovered(account, claim);
      var error := PartialRecoveryError(c, prior, amount, Some(currency));
      if error != None { return Failed(error.value); }
      if !NamesFinding(State(), finding) { return Failed(ForeignKeyViolation); }
      var event := |recoveries|;
      recoveries := recoveries + [RecoveryEvent(account, claim, finding, amount, Some(currency))];
      var savepoint := outbox;
      outbox := outbox + [event];
      if enqueueFails { outbox := savepoint; }
      r := Done(RecoverySummary(event, prior + amount, prior + amount == c.amountClaimed));
    }

    /** `writeAuditEvent`: insert, or find the same evidence under the id. */
    method WriteAuditEvent(key: AuditKey, row: AuditRow) returns (conflict: bool)
      modifies `audit
      ensures conflict == AuditConflicts(old(audit), key, row)
      ensures audit == if conflict then old(audit) else WithAudit(old(audit), key, row)
    {
      conflict := false;
      if key !in audit { audit := audit[key := row]; }
      else if audit[key].(recordedAt := row.recordedAt) != row { conflict := true; }
    }

    /** The recovery event, the status of the claim and the status of the named finding, in this order. */
    method WriteSettlement(account: Id, claim: Id, kind: ResolutionKind, amount: Option<nat>,
                           currency: Option<Currency>, finding: Option<Id>)
      requires claim in claims
      modifies `recoveries, `claims, `findings, `history
      ensures State()
           == WithMirror(WithRecovery(old(State()), account, claim, amount, currency, finding)
                           .(claims := old(claims)[claim := old(claims)[claim].(status := TargetStatus(kind))]),
                               account, kind, finding)
    {
      if amount.Some? {
        recoveries := recoveries + [RecoveryEvent(account, claim, finding, amount.value, currency)];
      }
      claims := claims[claim := claims[claim].(status := TargetStatus(kind))];
      if finding.Some? && (kind == FullRecovery || kind == WriteOff) {
        var _ := UpdateFindingStatus(account, finding.value, if kind == FullRecovery then FindingRecovered
            else FindingWrittenOff);
      }
    }

    method Resolve(account: Id, claim: Id, kind: ResolutionKind, amount: Option<nat>, currency: Option<Currency>,
                   finding: Option<Id>, now: int) returns (r: Reply<Resolution>)
      modifies this
      ensures (State(), r) == ResolveClaim(old(State()), account, claim, kind, amount, currency, finding, now)
      ensures Invariant(old(State())) ==> Invariant(State())
    {
      ghost var before := State();
      ResolveInSteps(before, account, claim, kind, amount, currency, finding, now);
      ResolveKeeps(before, account, claim, kind, amount, currency, finding, now);
      hide Invariant;
      hide ResolveClaim;
      hide RecoveredOn;
      hide ResolutionError;
      hide NamesFinding;
      hide AuditConflicts;
      hide WithAudit;
      hide WithRecovery;
      hide WithMirror;
      hide TargetStatus;
      hide StoredCurrency;
      if !(claim in claims && claims[claim].account == account) { return Failed(ClaimNotFound); }
      var c := claims[claim];
      var prior := SumRecovered(account, claim);
      var error := ResolutionError(c, kind, prior, amount, currency);
      if error != None { return Failed(error.value); }
      if amount != None && !NamesFinding(State(), finding) { return Failed(ForeignKeyViolation); }
      var savedRecoveries, savedClaims, savedFindings, savedHistory := recoveries, claims, findings, history;
      WriteSettlement(account, claim, kind, amount, currency, finding);
      var event := if amount == None then None else Some(|savedRecoveries|);
      var row := AuditRow(now, kind, amount, StoredCurrency(amount, currency), event);
      var conflict := WriteAuditEvent(AuditKey(account, claim, TargetStatus(kind)), row);
      if conflict {
        recoveries, claims, findings, history := savedRecoveries, savedClaims, savedFindings, savedHistory;
        return Failed(AuditEventConflict);
      }
      r := Done(Resolution(TargetStatus(kind), event));
    }
  }

  lemma CreateDisputeInSteps(t: Tables, account: Id, ids: seq<Id>, newId: Id)
    ensures var rows := Selected(t.findings, account, Ascending(ids));
            var claimable := Claimable(rows);
            var result := CreateDispute(t, account, ids, newId);
            if DisputableError(rows) != None then result == (t, Failed(DisputableError(rows).value))
            else
              && claimable != []
              && var first := claimable[0].finding;
                 result == (WithLines(t.(disputes := t.disputes[newId := Dispute(account, first.carrier, Draft,
                     Some(TotalOf(claimable)), first.currency, None)]),
                                      account, newId, claimable),
                            Done(DisputeSummary(newId, IdsOf(claimable), TotalOf(claimable), first.currency)))
  {
    hide WithLines;
    hide Claimable;
    hide Selected;
    hide Ascending;
  }

  lemma PartialRecoveryKeeps(t: Tables, account: Id, claim: Id, amount: nat, currency: Currency, finding: Option<Id>,
                             fails: bool)
    ensures Invariant(t) ==> Invariant(RecordPartialRecovery(t, account, claim, amount, currency, finding, fails).0)
  {
    hide RecordPartialRecovery;
    hide Invariant;
    if Invariant(t) { StepKeepsInvariant(t, PartialPayment(account, claim, amount, currency, finding, fails)); }
  }

  lemma ResolveKeeps(t: Tables, account: Id, claim: Id, kind: ResolutionKind, amount: Option<nat>,
                     currency: Option<Currency>,
                     finding: Option<Id>, now: int)
    ensures Invariant(t) ==> Invariant(ResolveClaim(t, account, claim, kind, amount, currency, finding, now).0)
  {
    hide ResolveClaim;
    hide Invariant;
    if Invariant(t) { StepKeepsInvariant(t, Settlement(account, claim, kind, amount, currency, finding, now)); }
  }

  lemma PartialRecoveryInSteps(t: Tables, account: Id, claim: Id, amount: nat, currency: Currency, finding: Option<Id>,
                               fails: bool)
    ensures var result := RecordPartialRecovery(t, account, claim, amount, currency, finding, fails);
            if !(claim in t.claims && t.claims[claim].account == account) then result == (t, Failed(ClaimNotFound))
            else
              var prior := RecoveredOn(t.recoveries, account, claim);
              var error := PartialRecoveryError(t.claims[claim], prior, amount, Some(currency));
              var event := |t.recoveries|;
              if error != None then result == (t, Failed(error.value))
              else if !NamesFinding(t, finding) then result == (t, Failed(ForeignKeyViolation))
              else result == (t.(recoveries := t.recoveries
                  + [RecoveryEvent(account, claim, finding, amount, Some(currency))],
                                 outbox := if fails then t.outbox else t.outbox + [event]),
                              Done(RecoverySummary(event, prior + amount,
                                                   prior + amount == t.claims[claim].amountClaimed)))
  {
    hide RecoveredOn;
    hide PartialRecoveryError;
    hide NamesFinding;
  }

  /** The settlement transaction, statement by statement. */
  lemma ResolveInSteps(t: Tables, account: Id, claim: Id, kind: ResolutionKind, amount: Option<nat>,
                       currency: Option<Currency>,
                       finding: Option<Id>, now: int)
    ensures var result := ResolveClaim(t, account, claim, kind, amount, currency, finding, now);
            if !(claim in t.claims && t.claims[claim].account == account) then result == (t, Failed(ClaimNotFound))
            else
              var error := ResolutionError(t.claims[claim], kind, RecoveredOn(t.recoveries, account, claim), amount,
                                           currency);
              var event := if amount == None then None else Some(|t.recoveries|);
              var row := AuditRow(now, kind, amount, StoredCurrency(amount, currency), event);
              var key := AuditKey(account, claim, TargetStatus(kind));
              if error != None then result == (t, Failed(error.value))
              else if amount != None && !NamesFinding(t, finding) then result == (t, Failed(ForeignKeyViolation))
              else if AuditConflicts(t.audit, key, row) then result == (t, Failed(AuditEventConflict))
              else result == (WithMirror(
                                WithRecovery(t, account, claim, amount, currency, finding)
                                  .(claims := t.claims[claim := t.claims[claim].(status := TargetStatus(kind))]),
                                account, kind, finding)
                                .(audit := WithAudit(t.audit, key, row)),
                              Done(Resolution(TargetStatus(kind), event)))
  {
    hide RecoveredOn;
    hide ResolutionError;
    hide WithMirror;
    hide WithRecovery;
    hide NamesFinding;
    hide AuditConflicts;
    hide WithAudit;
  }
}
