/** The claims of the money ledger and the claims of the aging jobs are the same rows: every run of the ledger is, seen
    from `claim` and the terminal rows of `audit_event`, a run of the aging model without jobs. */
module LedgerAging {
  import A = ClaimAging
  import L = Ledger
  import R = LedgerRuns
  import opened Sums

  function StatusOf(status: L.ClaimStatus): A.ClaimStatus {
    match status
    case ClaimOpen => A.Open
    case Recovered => A.Recovered
    case Denied => A.Denied
    case WrittenOff => A.WrittenOff
  }

  /** One set of claims with one status each, and one set of terminal rows. */
  ghost predicate Matches(t: L.Tables, s: A.State) {
    && t.claims.Keys == s.claims.Keys
    && (forall c | c in t.claims ::
         s.claims[c].account == t.claims[c].account && s.claims[c].status == StatusOf(t.claims[c].status))
    && forall account, c, status: L.ClaimStatus | status != L.ClaimOpen ::
         L.AuditKey(account, c, status) in t.audit <==> A.Has(s.audit, account, c, A.Terminal(StatusOf(status)))
  }

  predicate SameClaims(t: L.Tables, u: L.Tables) { u.claims == t.claims && u.audit.Keys == t.audit.Keys }

  predicate Opened(t: L.Tables, u: L.Tables, c: L.Id) {
    && c !in t.claims && c in u.claims && u.claims[c].status == L.ClaimOpen
    && u.claims == t.claims[c := u.claims[c]] && u.audit == t.audit
  }

  predicate Closed(t: L.Tables, u: L.Tables, account: L.Id, c: L.Id, status: L.ClaimStatus) {
    && c in t.claims && t.claims[c].account == account && t.claims[c].status == L.ClaimOpen && status != L.ClaimOpen
    && u.claims == t.claims[c := t.claims[c].(status := status)]
    && u.audit.Keys == t.audit.Keys + {L.AuditKey(account, c, status)}
  }

  /** What a step of the ledger does to claims and terminal rows. */
  lemma KindsOfSteps(t: L.Tables, op: R.Op)
    requires R.Invariant(t) && R.Fresh(t, op)
    ensures var u := R.After(t, op);
      || SameClaims(t, u)
      || (op.NewClaim? && Opened(t, u, op.newId))
      || (op.Settlement? && Closed(t, u, op.account, op.claim, L.TargetStatus(op.kind)))
  {
    FreshIds(t, op);
    hide *;
    R.InvariantParts(t);
    R.ClaimsAreSound(t);
    match op
    case NewClaim(account, dispute, newId) => ClaimStep(t, account, dispute, newId);
    case Settlement(account, claim, kind, amount, currency, finding, now) =>
      SettlementStep(t, account, claim, kind, amount, currency, finding, now);
    case NewDispute(account, ids, newId) => DisputeStep(t, account, ids, newId);
    case PartialPayment(account, claim, amount, currency, finding, fails) =>
      PaymentStep(t, account, claim, amount, currency, finding, fails);
    case _ => QuietStep(t, op);
  }

  lemma FreshIds(t: L.Tables, op: R.Op)
    requires R.Fresh(t, op)
    ensures (op.NewDispute? ==> op.newId !in t.disputes) && (op.NewClaim? ==> op.newId !in t.claims)
  {
  }

  lemma QuietStep(t: L.Tables, op: R.Op)
    requires R.Fresh(t, op) && (op.RecordFinding? || op.FindingAction? || op.DisputeResponse?)
    ensures SameClaims(t, R.After(t, op))
  {
    R.QuietStepEffect(t, op);
  }

  lemma ClaimStep(t: L.Tables, account: L.Id, dispute: L.Id, newId: L.Id)
    requires R.ClaimInvariant(t) && newId !in t.claims
    ensures var u := R.After(t, R.NewClaim(account, dispute, newId)); SameClaims(t, u) || Opened(t, u, newId)
  {
    R.NewClaimEffect(t, account, dispute, newId);
  }

  lemma SettlementStep(t: L.Tables, account: L.Id, claim: L.Id, kind: L.ResolutionKind, amount: Option<nat>,
                       currency: Option<L.Currency>, finding: Option<L.Id>, now: int)
    requires R.ClaimsSound(t) && R.ResolutionsSound(t)
    ensures var u := R.After(t, R.Settlement(account, claim, kind, amount, currency, finding, now));
            SameClaims(t, u) || Closed(t, u, account, claim, L.TargetStatus(kind))
  {
    R.ResolveClaimEffect(t, account, claim, kind, amount, currency, finding, now);
    hide L.ResolveClaim;
  }

  lemma DisputeStep(t: L.Tables, account: L.Id, ids: seq<L.Id>, newId: L.Id)
    requires newId !in t.disputes
    ensures SameClaims(t, R.After(t, R.NewDispute(account, ids, newId)))
  {
    R.CreateDisputeEffect(t, account, ids, newId);
    hide L.CreateDispute;
  }

  lemma PaymentStep(t: L.Tables, account: L.Id, claim: L.Id, amount: nat, currency: L.Currency, finding: Option<L.Id>,
                    fails: bool)
    requires R.ClaimsSound(t)
    ensures SameClaims(t, R.After(t, R.PartialPayment(account, claim, amount, currency, finding, fails)))
  {
    R.PaymentEffect(t, account, claim, amount, currency, finding, fails);
    hide L.RecordPartialRecovery;
  }

  lemma OpeningMatches(t: L.Tables, u: L.Tables, c: L.Id, s: A.State)
    requires Matches(t, s) && Opened(t, u, c)
    ensures var op := A.OpenClaim(c, u.claims[c].account, 0); A.Enabled(s, op) && Matches(u, A.After(s, op))
  {
  }

  lemma ClosingMatches(t: L.Tables, u: L.Tables, account: L.Id, c: L.Id, status: L.ClaimStatus, s: A.State, now: int)
    requires A.Invariant(s) && Matches(t, s) && Closed(t, u, account, c, status)
    ensures var op := A.Resolve(account, c, StatusOf(status), now); A.Enabled(s, op) && Matches(u, A.After(s, op))
  {
    var e := A.Event(account, c, A.Terminal(StatusOf(status)), now, A.NoDetail, now);
    A.KnownMeaning(s.audit, e);
    assert !A.HasTerminal(s.audit, account, c);
    forall i | 0 <= i < |s.audit| ensures !A.SameId(s.audit[i], e) {}
    var v := A.After(s, A.Resolve(account, c, StatusOf(status), now));
    assert v.audit == s.audit + [e];
    hide A.Invariant;
    forall a, d, other: L.ClaimStatus | other != L.ClaimOpen
      ensures A.Has(v.audit, a, d, A.Terminal(StatusOf(other)))
         <==> A.Has(s.audit, a, d, A.Terminal(StatusOf(other))) || (a == account && d == c && other == status)
    {
      HasOneMore(s.audit, e, a, d, A.Terminal(StatusOf(other)));
    }
  }

  lemma HasOneMore(audit: seq<A.Event>, e: A.Event, account: A.Id, c: A.Id, name: A.EventName)
    ensures A.Has(audit + [e], account, c, name)
       <==> A.Has(audit, account, c, name) || (e.account == account && e.claim == c && e.name == name)
  {
    var more := audit + [e];
    assert more[|audit|] == e;
    assert forall i | 0 <= i < |audit| :: more[i] == audit[i];
  }

  lemma OneStepMore(states: seq<A.State>, ops: seq<A.Op>, op: A.Op)
    requires A.Run(states, ops) && |states| == |ops| + 1 && A.Enabled(states[|ops|], op)
    ensures A.Run(states + [A.After(states[|ops|], op)], ops + [op])
  {
    hide A.After;
    hide A.Enabled;
  }

  lemma NothingMatches(states: seq<L.Tables>, ops: seq<R.Op>)
    requires R.Run(states, ops)
    ensures A.Run([A.EMPTY], []) && Matches(states[0], A.EMPTY)
  {
  }

  lemma LedgerRunStep(states: seq<L.Tables>, ops: seq<R.Op>, i: nat)
    requires R.Run(states, ops) && i < |ops|
    ensures R.Invariant(states[i]) && R.Fresh(states[i], ops[i]) && states[i + 1] == R.After(states[i], ops[i])
  {
    R.RunKeepsInvariant(states, ops, i);
    hide R.Invariant;
    hide R.Fresh;
    hide R.After;
  }

  /** Every run of the ledger is matched by a run of the aging model. */
  lemma {:induction false} LedgerRunsAge(states: seq<L.Tables>, ops: seq<R.Op>, i: nat)
    returns (ages: seq<A.State>, steps: seq<A.Op>)
    requires R.Run(states, ops) && i < |states| == |ops| + 1
    ensures A.Run(ages, steps) && |ages| == |steps| + 1 && Matches(states[i], ages[|steps|])
    decreases i
  {
    hide *;
    if i == 0 {
      NothingMatches(states, ops);
      ages, steps := [A.EMPTY], [];
    } else {
      ages, steps := LedgerRunsAge(states, ops, i - 1);
      LedgerRunStep(states, ops, i - 1);
      ages, steps := LedgerStepAges(states[i - 1], ops[i - 1], ages, steps);
    }
  }

  lemma LedgerStepAges(t: L.Tables, op: R.Op, ages: seq<A.State>, steps: seq<A.Op>)
    returns (more: seq<A.State>, done: seq<A.Op>)
    requires R.Invariant(t) && R.Fresh(t, op) && A.Run(ages, steps) && |ages| == |steps| + 1
        && Matches(t, ages[|steps|])
    ensures A.Run(more, done) && |more| == |done| + 1 && Matches(R.After(t, op), more[|done|])
  {
    hide *;
    A.RunKeeps(ages, steps, |steps|);
    KindsOfSteps(t, op);
    var u, s := R.After(t, op), ages[|steps|];
    if SameClaims(t, u) {
      more, done := ages, steps;
      SameMatches(t, u, s);
    } else if op.NewClaim? {
      InClaims(t, u, op.newId);
      OpeningMatches(t, u, op.newId, s);
      var step := A.OpenClaim(op.newId, u.claims[op.newId].account, 0);
      OneStepMore(ages, steps, step);
      more, done := ages + [A.After(s, step)], steps + [step];
    } else {
      var status := L.TargetStatus(op.kind);
      ClosingMatches(t, u, op.account, op.claim, status, s, op.now);
      var step := A.Resolve(op.account, op.claim, StatusOf(status), op.now);
      OneStepMore(ages, steps, step);
      more, done := ages + [A.After(s, step)], steps + [step];
    }
  }

  lemma SameMatches(t: L.Tables, u: L.Tables, s: A.State)
    requires Matches(t, s) && SameClaims(t, u)
    ensures Matches(u, s)
  {
  }

  lemma InClaims(t: L.Tables, u: L.Tables, c: L.Id)
    requires Opened(t, u, c)
    ensures c in u.claims
  {
  }
}
