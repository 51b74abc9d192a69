/** The money lifecycle: findings, disputes, claims and recoveries. */
module Ledger {
  import opened Sums

  // Each transaction has a specification function on the tables as a value; a method of class `Store` performs the same
  // statements on the fields. A failed transaction is rolled back.

  /** Row ids; those of an append-only table without references are the positions in it. */
  type Id = nat

  /** Ten-thousandths: `numeric(18,4)`. */
  type Money = int

  type Currency = string

  datatype Direction = Overcharge | Undercharge | IntegrityOnly

  datatype FindingStatus =
    Open | InReview | Accepted | Waived | QueuedForDispute | Disputed | FindingRecovered | FindingWrittenOff
        | FindingClosed

  /** A variance finding with the carrier of its invoice. */
  datatype Finding = Finding(account: Id, carrier: Option<Id>, currency: Option<Currency>, amount: Option<Money>,
                             direction: Option<Direction>, status: FindingStatus)

  datatype StatusEvent = StatusEvent(account: Id, finding: Id, from: FindingStatus, to: FindingStatus)

  datatype DisputeStatus = Draft | Sent | InProgress | DisputeAccepted | Rejected | Partial | Closed

  datatype Dispute = Dispute(account: Id, carrier: Option<Id>, status: DisputeStatus, amountClaimed: Option<Money>,
                             currency: Option<Currency>, acceptedAmount: Option<Money>)

  datatype DisputeLine = DisputeLine(account: Id, dispute: Id, finding: Id, amount: Option<Money>,
                                     currency: Option<Currency>)

  datatype ClaimStatus = ClaimOpen | Recovered | Denied | WrittenOff

  datatype Claim = Claim(account: Id, dispute: Id, amountClaimed: Money, currency: Option<Currency>,
                         status: ClaimStatus)

  datatype RecoveryEvent = RecoveryEvent(account: Id, claim: Id, finding: Option<Id>, amount: Money,
                                         currency: Option<Currency>)

  /** What a deterministic audit id is the hash of: tenant, claim and the event `claim.<status>`. */
  datatype AuditKey = AuditKey(account: Id, claim: Id, status: ClaimStatus)

  datatype AuditRow = AuditRow(recordedAt: int, kind: ResolutionKind, amount: Option<Money>, currency: Option<Currency>,
                               event: Option<Id>)

  datatype ResolutionKind = FullRecovery | Denial | WriteOff

  datatype Tables = Tables(
    findings: map<Id, Finding>, history: seq<StatusEvent>,
    disputes: map<Id, Dispute>, lines: seq<DisputeLine>,
    claims: map<Id, Claim>, recoveries: seq<RecoveryEvent>,
    audit: map<AuditKey, AuditRow>, outbox: seq<Id>)

  datatype Error =
    | EmptySet | NotAccepted | MissingCarrier | MissingAmount | MixedCarrier | MixedCurrency
    | DisputeNotFound | MissingCurrency | NonPositiveAmount | DuplicateClaimedFinding(conflicting: set<Id>)
    | AcceptedAmountExceedsClaimed
    | ClaimNotFound | ExceedsClaimedAmount | AlreadyTerminal | FullRecoveryAmountMismatch
    | WriteOffExceedsClaimedAmount | DenialMustNotIncludeAmount
    | ForeignKeyViolation | AuditEventConflict

  datatype Reply<+T> = Done(value: T) | Failed(error: Error)

  // ---- findings ------------------------------------------------------------------------------

  /** `updateFindingStatus`: the status row and its history in one statement. */
  function WithFindingStatus(t: Tables, account: Id, finding: Id, to: FindingStatus): Tables {
    if finding in t.findings && t.findings[finding].account == account then
      var f := t.findings[finding];
      t.(findings := t.findings[finding := f.(status := to)],
         history := t.history + [StatusEvent(account, finding, f.status, to)])
    else t
  }

  // ---- disputes ------------------------------------------------------------------------------

  datatype Row = Row(id: Id, finding: Finding)

  /** The ids of a request in ascending order, each once. */
  function Ascending(ids: seq<Id>): (r: seq<Id>)
    ensures forall i, j | 0 <= i < j < |r| :: r[i] < r[j]
    ensures forall x :: x in r <==> x in ids
  {
    if ids == [] then [] else
      var r := PutId(Ascending(ids[1..]), ids[0]);
      assert forall x :: x in ids <==> x == ids[0] || x in ids[1..];
      r
  }

  function PutId(ids: seq<Id>, x: Id): (r: seq<Id>)
    requires forall i, j | 0 <= i < j < |ids| :: ids[i] < ids[j]
    ensures forall i, j | 0 <= i < j < |r| :: r[i] < r[j]
    ensures forall y :: y in r <==> y == x || y in ids
  {
    if ids == [] || x < ids[0] then [x] + ids
    else if x == ids[0] then ids
    else
      var r := PutId(ids[1..], x);
      assert forall y :: y in ids <==> y == ids[0] || y in ids[1..];
      assert forall i | 0 <= i < |r| :: r[i] in r && (r[i] == x || exists k :: 0 < k < |ids| && ids[k] == r[i]);
      [ids[0]] + r
  }

  /** The rows of the requested findings that the tenant sees, in id order. */
  function Selected(findings: map<Id, Finding>, account: Id, ids: seq<Id>): (rows: seq<Row>)
    ensures forall i | 0 <= i < |rows| ::
              rows[i].id in ids && rows[i].id in findings && rows[i].finding == findings[rows[i].id]
              && rows[i].finding.account == account
    ensures forall x | x in ids && x in findings && findings[x].account == account :: Row(x, findings[x]) in rows
  {
    if ids == [] then []
    else if ids[0] in findings && findings[ids[0]].account == account then
      [Row(ids[0], findings[ids[0]])] + Selected(findings, account, ids[1..])
    else Selected(findings, account, ids[1..])
  }

  function Claimable(rows: seq<Row>): (r: seq<Row>)
    ensures forall x :: x in r <==> x in rows && x.finding.direction != Some(Undercharge)
  {
    if rows == [] then []
    else
      assert forall x :: x in rows <==> x == rows[0] || x in rows[1..];
      if rows[0].finding.direction != Some(Undercharge) then [rows[0]] + Claimable(rows[1..]) else Claimable(rows[1..])
  }

  function RowError(f: Finding): Option<Error> {
    if f.status != Accepted then Some(NotAccepted)
    else if f.carrier == None then Some(MissingCarrier)
    else if f.amount == None || f.currency == None then Some(MissingAmount)
    else None
  }

  function FirstRowError(rows: seq<Row>): (r: Option<Error>)
    ensures r == None <==> forall i | 0 <= i < |rows| :: RowError(rows[i].finding) == None
  {
    if rows == [] then None
    else if RowError(rows[0].finding) != None then RowError(rows[0].finding)
    else
      var r := FirstRowError(rows[1..]);
      assert forall i | 0 < i < |rows| :: rows[i] == rows[1..][i - 1];
      r
  }

  function AmountOf(f: Finding): Money { if f.amount == None then 0 else f.amount.value }

  function TotalOf(rows: seq<Row>): Money {
    if rows == [] then 0 else TotalOf(rows[..|rows| - 1]) + AmountOf(rows[|rows| - 1].finding)
  }

  /** `validateDisputableFindings` on the selected rows, as the error it throws. */
  function DisputableError(rows: seq<Row>): Option<Error> {
    var claimable := Claimable(rows);
    if claimable == [] then Some(EmptySet)
    else if FirstRowError(claimable) != None then FirstRowError(claimable)
    else if exists i | 0 <= i < |claimable| :: claimable[i].finding.carrier != claimable[0].finding.carrier
        then Some(MixedCarrier)
    else if exists i | 0 <= i < |claimable| :: claimable[i].finding.currency != claimable[0].finding.currency
        then Some(MixedCurrency)
    else None
  }

  datatype DisputeSummary = DisputeSummary(dispute: Id, findings: seq<Id>, amount: Money, currency: Option<Currency>)

  function IdsOf(rows: seq<Row>): (r: seq<Id>)
    ensures |r| == |rows| && forall i | 0 <= i < |r| :: r[i] == rows[i].id
  {
    seq(|rows|, i requires 0 <= i < |rows| => rows[i].id)
  }

  function WithLine(t: Tables, account: Id, dispute: Id, row: Row): Tables {
    var lined := t.(lines := t.lines
        + [DisputeLine(account, dispute, row.id, row.finding.amount, row.finding.currency)]);
    WithFindingStatus(lined, account, row.id, QueuedForDispute)
  }

  function WithLines(t: Tables, account: Id, dispute: Id, rows: seq<Row>): Tables {
    if rows == [] then t
    else WithLine(WithLines(t, account, dispute, rows[..|rows| - 1]), account, dispute, rows[|rows| - 1])
  }

  function CreateDispute(t: Tables, account: Id, ids: seq<Id>, newId: Id): (Tables, Reply<DisputeSummary>) {
    var rows := Selected(t.findings, account, Ascending(ids));
    var claimable := Claimable(rows);
    if DisputableError(rows) != None then (t, Failed(DisputableError(rows).value))
    else
      var first := claimable[0].finding;
      var drafted := t.(disputes := t.disputes[newId := Dispute(account, first.carrier, Draft, Some(TotalOf(claimable)),
                                                                first.currency, None)]);
      (WithLines(drafted, account, newId, claimable),
       Done(DisputeSummary(newId, IdsOf(claimable), TotalOf(claimable), first.currency)))
  }

  datatype Response = Approve | Accept | Reject | PartiallyAccept(acceptedAmount: Money) | Close

  predicate MayFollow(response: Response, status: DisputeStatus) {
    match response
    case Approve => status == Draft
    case Accept | Reject | PartiallyAccept(_) => status == Sent || status == InProgress
    case Close => status == DisputeAccepted || status == Rejected || status == Partial
  }

  function StatusAfter(response: Response): DisputeStatus {
    match response
    case Approve => Sent
    case Accept => DisputeAccepted
    case Reject => Rejected
    case PartiallyAccept(_) => Partial
    case Close => Closed
  }

  /** `approveDispute`, `acceptDispute`, `rejectDispute`, `partiallyAcceptDispute`, `closeDispute`;
      the value says whether the dispute was found in a state the transition starts from. */
  function Respond(t: Tables, account: Id, dispute: Id, response: Response): (Tables, Reply<bool>) {
    if !(dispute in t.disputes && t.disputes[dispute].account == account
        && MayFollow(response, t.disputes[dispute].status))
    then (t, Done(false))
    else
      var d := t.disputes[dispute];
      if response.PartiallyAccept? && d.amountClaimed.Some? && response.acceptedAmount > d.amountClaimed.value
      then (t, Failed(AcceptedAmountExceedsClaimed))
      else
        var accepted := if response.PartiallyAccept? then Some(response.acceptedAmount) else d.acceptedAmount;
        (t.(disputes := t.disputes[dispute := d.(status := StatusAfter(response), acceptedAmount := accepted)]),
         Done(true))
  }

  // ---- claims --------------------------------------------------------------------------------

  /** The claims under the unique index on (account, dispute). */
  function ClaimsOn(t: Tables, account: Id, dispute: Id): set<Id> {
    set c | c in t.claims && t.claims[c].account == account && t.claims[c].dispute == dispute
  }

  predicate HasClaim(t: Tables, account: Id, dispute: Id) { ClaimsOn(t, account, dispute) != {} }

  /** The join of `detectDuplicateClaimedFinding`. */
  function AlreadyClaimed(t: Tables, account: Id, dispute: Id): set<Id> {
    set i, j | 0 <= i < |t.lines| && 0 <= j < |t.lines|
               && t.lines[i].account == account && t.lines[i].dispute == dispute
               && t.lines[j].account == t.lines[i].account && t.lines[j].finding == t.lines[i].finding
               && t.lines[j].dispute != t.lines[i].dispute
               && HasClaim(t, t.lines[j].account, t.lines[j].dispute) :: t.lines[i].finding
  }

  function ClaimableError(d: Dispute): Option<Error> {
    if d.status != DisputeAccepted then Some(NotAccepted)
    else if d.amountClaimed == None then Some(MissingAmount)
    else if d.currency == None then Some(MissingCurrency)
    else if d.amountClaimed.value <= 0 then Some(NonPositiveAmount)
    else None
  }

  datatype ClaimSummary = ClaimSummary(claim: Id, dispute: Id, amount: Money, currency: Option<Currency>, created: bool)

  ghost function CreateClaim(t: Tables, account: Id, dispute: Id, newId: Id): (Tables, Reply<ClaimSummary>) {
    if !(dispute in t.disputes && t.disputes[dispute].account == account) then (t, Failed(DisputeNotFound))
    else if HasClaim(t, account, dispute) then
      var c :| c in ClaimsOn(t, account, dispute);
      (t, Done(ClaimSummary(c, dispute, t.claims[c].amountClaimed, t.claims[c].currency, false)))
    else
      var d := t.disputes[dispute];
      if ClaimableError(d) != None then (t, Failed(ClaimableError(d).value))
      else if AlreadyClaimed(t, account, dispute) != {}
          then (t, Failed(DuplicateClaimedFinding(AlreadyClaimed(t, account, dispute))))
      else
        (t.(claims := t.claims[newId := Claim(account, dispute, d.amountClaimed.value, d.currency, ClaimOpen)]),
         Done(ClaimSummary(newId, dispute, d.amountClaimed.value, d.currency, true)))
  }

  // ---- recoveries ----------------------------------------------------------------------------

  /** `SUM(amount_recovered)` over the events of one claim. */
  function RecoveredOn(events: seq<RecoveryEvent>, account: Id, claim: Id): Money {
    if events == [] then 0
    else
      var e := events[|events| - 1];
      RecoveredOn(events[..|events| - 1], account, claim)
      + if e.account == account && e.claim == claim then e.amount else 0
  }

  function AmountAndCurrencyError(amount: Money, currency: Option<Currency>,
                                  existing: Option<Currency>): Option<Error> {
    if amount <= 0 then Some(NonPositiveAmount)
    else if currency == None then Some(MissingCurrency)
    else if existing != None && currency != existing then Some(MixedCurrency)
    else None
  }

  function PartialRecoveryError(c: Claim, prior: Money, amount: Money, currency: Option<Currency>): Option<Error> {
    if AmountAndCurrencyError(amount, currency, c.currency) != None
        then AmountAndCurrencyError(amount, currency, c.currency)
    else if prior + amount > c.amountClaimed then Some(ExceedsClaimedAmount)
    else None
  }

  /** Every named finding must exist: a foreign key. */
  predicate NamesFinding(t: Tables, finding: Option<Id>) { finding == None || finding.value in t.findings }

  datatype RecoverySummary = RecoverySummary(event: Id, cumulative: Money, isFinal: bool)

  function RecordPartialRecovery(t: Tables, account: Id, claim: Id, amount: nat, currency: Currency,
                                 finding: Option<Id>, enqueueFails: bool): (Tables, Reply<RecoverySummary>) {
    if !(claim in t.claims && t.claims[claim].account == account) then (t, Failed(ClaimNotFound))
    else
      var c := t.claims[claim];
      var prior := RecoveredOn(t.recoveries, account, claim);
      if PartialRecoveryError(c, prior, amount, Some(currency)) != None
      then (t, Failed(PartialRecoveryError(c, prior, amount, Some(currency)).value))
      else if !NamesFinding(t, finding) then (t, Failed(ForeignKeyViolation))
      else
        var event := |t.recoveries|;
        (t.(recoveries := t.recoveries + [RecoveryEvent(account, claim, finding, amount, Some(currency))],
            outbox := if enqueueFails then t.outbox else t.outbox + [event]),
         Done(RecoverySummary(event, prior + amount, prior + amount == c.amountClaimed)))
  }

  function TargetStatus(kind: ResolutionKind): ClaimStatus {
    match kind
    case FullRecovery => Recovered
    case Denial => Denied
    case WriteOff => WrittenOff
  }

  /** `validateClaimResolution`, as the error it throws. */
  function ResolutionError(c: Claim, kind: ResolutionKind, prior: Money, amount: Option<Money>,
                           currency: Option<Currency>): Option<Error> {
    if c.status != ClaimOpen then Some(AlreadyTerminal)
    else if kind == Denial then if amount != None then Some(DenialMustNotIncludeAmount) else None
    else if kind == WriteOff && amount == None then None
    else if amount == None then Some(NonPositiveAmount)
    else if AmountAndCurrencyError(amount.value, currency, c.currency) != None
    then AmountAndCurrencyError(amount.value, currency, c.currency)
    else if kind == FullRecovery then
      if prior + amount.value != c.amountClaimed then Some(FullRecoveryAmountMismatch) else None
    else if prior + amount.value >= c.amountClaimed then Some(WriteOffExceedsClaimedAmount)
    else None
  }

  datatype Resolution = Resolution(status: ClaimStatus, event: Option<Id>)

  /** `writeAuditEvent`: a known id must carry the same evidence. */
  predicate AuditConflicts(audit: map<AuditKey, AuditRow>, key: AuditKey, row: AuditRow) {
    key in audit && audit[key].(recordedAt := row.recordedAt) != row
  }

  function WithAudit(audit: map<AuditKey, AuditRow>, key: AuditKey, row: AuditRow): map<AuditKey, AuditRow> {
    if key in audit then audit else audit[key := row]
  }

  /** The currency stored with a resolution: none without an amount. */
  function StoredCurrency(amount: Option<Money>, currency: Option<Currency>): Option<Currency> {
    if amount == None then None else currency
  }

  function WithRecovery(t: Tables, account: Id, claim: Id, amount: Option<Money>, currency: Option<Currency>,
                        finding: Option<Id>): Tables {
    if amount == None then t
    else t.(recoveries := t.recoveries + [RecoveryEvent(account, claim, finding, amount.value, currency)])
  }

  function WithMirror(t: Tables, account: Id, kind: ResolutionKind, finding: Option<Id>): Tables {
    if finding == None || kind == Denial then t
    else WithFindingStatus(t, account, finding.value, if kind == FullRecovery then FindingRecovered
        else FindingWrittenOff)
  }

  /** Every way a settlement fails, in the order the statements run. */
  function SettlementError(t: Tables, account: Id, claim: Id, kind: ResolutionKind, amount: Option<nat>,
                           currency: Option<Currency>,
                           finding: Option<Id>, now: int): Option<Error> {
    if !(claim in t.claims && t.claims[claim].account == account) then Some(ClaimNotFound)
    else
      var c := t.claims[claim];
      var prior := RecoveredOn(t.recoveries, account, claim);
      if ResolutionError(c, kind, prior, amount, currency) != None
          then ResolutionError(c, kind, prior, amount, currency)
      else if amount != None && !NamesFinding(t, finding) then Some(ForeignKeyViolation)
      else if AuditConflicts(t.audit, AuditKey(account, claim, TargetStatus(kind)),
                             SettlementRow(t, kind, amount, currency, now))
      then Some(AuditEventConflict)
      else None
  }

  /** The id of the recovery event a settlement writes, if it writes one. */
  function SettlementEvent(t: Tables, amount: Option<Money>): Option<Id> {
    if amount == None then None else Some(|t.recoveries|)
  }

  function SettlementRow(t: Tables, kind: ResolutionKind, amount: Option<Money>, currency: Option<Currency>,
                         now: int): AuditRow {
    AuditRow(now, kind, amount, StoredCurrency(amount, currency), SettlementEvent(t, amount))
  }

  function Settle(t: Tables, account: Id, claim: Id, kind: ResolutionKind, amount: Option<nat>,
                  currency: Option<Currency>,
                  finding: Option<Id>, now: int): Tables
    requires claim in t.claims
  {
    var recovered := WithRecovery(t, account, claim, amount, currency, finding);
    var resolved := recovered.(claims := t.claims[claim := t.claims[claim].(status := TargetStatus(kind))]);
    var mirrored := WithMirror(resolved, account, kind, finding);
    mirrored.(audit := WithAudit(t.audit, AuditKey(account, claim, TargetStatus(kind)),
                                 SettlementRow(t, kind, amount, currency, now)))
  }

  function ResolveClaim(t: Tables, account: Id, claim: Id, kind: ResolutionKind, amount: Option<nat>,
                        currency: Option<Currency>,
                        finding: Option<Id>, now: int): (Tables, Reply<Resolution>) {
    var error := SettlementError(t, account, claim, kind, amount, currency, finding, now);
    if error != None then (t, Failed(error.value))
    else (Settle(t, account, claim, kind, amount, currency, finding, now),
          Done(Resolution(TargetStatus(kind), SettlementEvent(t, amount))))
  }

  // ---- reading a claim back ------------------------------------------------------------------

  datatype LedgerEvent = LedgerEvent(event: string, recordedAt: int)

  function EventName(status: ClaimStatus): string {
    match status
    case Recovered => "claim.recovered"
    case Denied => "claim.denied"
    case WrittenOff => "claim.written_off"
    case ClaimOpen => "claim.open"
  }

  function TerminalStatus(event: string): Option<ClaimStatus> {
    if event == EventName(Recovered) then Some(Recovered)
    else if event == EventName(Denied) then Some(Denied)
    else if event == EventName(WrittenOff) then Some(WrittenOff)
    else None
  }

  /** The reduction of `deriveClaimStatus` over the events it knows. */
  function Latest(events: seq<LedgerEvent>): Option<LedgerEvent> {
    if events == [] then None
    else
      var latest, e := Latest(events[..|events| - 1]), events[|events| - 1];
      if TerminalStatus(e.event) == None then latest
      else if latest == None || e.recordedAt > latest.value.recordedAt then Some(e)
      else latest
  }

  function DerivedStatus(events: seq<LedgerEvent>): ClaimStatus {
    var latest := Latest(events);
    if latest == None || TerminalStatus(latest.value.event) == None then ClaimOpen
        else TerminalStatus(latest.value.event).value
  }
}
