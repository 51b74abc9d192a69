/** Claim aging: the scan, its jobs and their handlers. */
module ClaimAging {
  import opened Sums

  // The handlers write to the append-only audit ledger: src/modules/claims/schedule-claim-aging-jobs.ts and the files
  // it calls. Database times are microseconds, JavaScript times milliseconds; reading a database time truncates it.

  type Id = nat

  const GRACE_PERIOD_DAYS: nat := 7
  const MS_PER_DAY: nat := 86_400_000
  const GRACE_MS: nat := 604_800_000
  const GRACE_US: nat := 604_800_000_000

  datatype ClaimStatus = Open | Recovered | Denied | WrittenOff

  /** `deadline` in microseconds. */
  datatype Claim = Claim(account: Id, status: ClaimStatus, openedAt: int, deadline: Option<int>)

  datatype EventName = Terminal(status: ClaimStatus) | FollowUpSent | Escalated

  /** The JSON detail: the deadline or the follow-up time as an ISO string, that is in milliseconds. */
  datatype Detail = NoDetail | DeadlineDetail(ms: int) | FollowUpDetail(ms: int)

  /** An audit row; `clock` is what the writer's clock showed, which no column stores. */
  datatype Event = Event(account: Id, claim: Id, name: EventName, recordedAt: int, detail: Detail, clock: int)

  datatype JobName = FollowUpClaim | EscalateClaim

  /** What a deterministic job id is the hash of. */
  datatype JobId = JobId(name: JobName, account: Id, claim: Id)

  /** `jobs` keeps every id the queue has known, with the time in the payload. */
  datatype State = State(claims: map<Id, Claim>, audit: seq<Event>, jobs: map<JobId, int>)

  datatype Error =
    | ClaimNotFound | ClaimTerminal | NoDeadlineSet | DeadlineNotPassed | NoFollowUpSent | GracePeriodNotElapsed
        | AuditEventConflict

  datatype Reply = Created | AlreadyThere | Failed(error: Error)

  function Ms(us: int): int { us / 1000 }

  // ---- the ledger ----------------------------------------------------------------------------

  predicate SameId(a: Event, b: Event) { a.account == b.account && a.claim == b.claim && a.name == b.name }

  function Known(audit: seq<Event>, e: Event): Option<Event> {
    if audit == [] then None
    else if SameId(audit[|audit| - 1], e) then Some(audit[|audit| - 1])
    else Known(audit[..|audit| - 1], e)
  }

  /** `writeAuditEvent`: append, or find the same evidence under the id, or conflict. */
  function Written(audit: seq<Event>, e: Event): (seq<Event>, Reply) {
    match Known(audit, e)
    case None => (audit + [e], Created)
    case Some(known) => (audit, if known.detail == e.detail then AlreadyThere else Failed(AuditEventConflict))
  }

  predicate Has(audit: seq<Event>, account: Id, claim: Id, name: EventName) {
    exists i :: 0 <= i < |audit| && audit[i].account == account && audit[i].claim == claim && audit[i].name == name
  }

  predicate HasTerminal(audit: seq<Event>, account: Id, claim: Id) {
    exists i :: 0 <= i < |audit| && audit[i].account == account && audit[i].claim == claim && audit[i].name.Terminal?
  }

  /** The latest follow-up of a claim: `ORDER BY recorded_at DESC LIMIT 1`. */
  function LatestFollowUp(audit: seq<Event>, account: Id, claim: Id): Option<Event> {
    if audit == [] then None
    else
      var rest, e := LatestFollowUp(audit[..|audit| - 1], account, claim), audit[|audit| - 1];
      if !(e.account == account && e.claim == claim && e.name == FollowUpSent) then rest
      else if rest.Some? && rest.value.recordedAt >= e.recordedAt then rest
      else Some(e)
  }

  // ---- the scan ------------------------------------------------------------------------------

  /** `listClaimsDueForFollowUp` at `now` milliseconds. */
  predicate DueForFollowUp(s: State, account: Id, c: Id, now: int) {
    && c in s.claims && s.claims[c].account == account
    && s.claims[c].deadline.Some? && s.claims[c].deadline.value <= now * 1000
    && !HasTerminal(s.audit, account, c) && !Has(s.audit, account, c, FollowUpSent)
  }

  /** `listClaimsDueForEscalation`, with the default grace period. */
  predicate DueForEscalation(s: State, account: Id, c: Id, now: int) {
    && c in s.claims && s.claims[c].account == account
    && LatestFollowUp(s.audit, account, c).Some?
    && LatestFollowUp(s.audit, account, c).value.recordedAt <= now * 1000 - GRACE_US
    && !HasTerminal(s.audit, account, c)
  }

  function Due(s: State, name: JobName, account: Id, now: int): set<Id> {
    match name
    case FollowUpClaim => set c | c in s.claims && DueForFollowUp(s, account, c, now)
    case EscalateClaim => set c | c in s.claims && DueForEscalation(s, account, c, now)
  }

  /** `enqueueInTransaction`: a known id is not sent again. */
  function Sent(jobs: map<JobId, int>, id: JobId, now: int): map<JobId, int> {
    if id in jobs then jobs else jobs[id := now]
  }

  function JobsFor(name: JobName, account: Id, claims: set<Id>): set<JobId> {
    set c | c in claims :: JobId(name, account, c)
  }

  function WithJobs(jobs: map<JobId, int>, ids: set<JobId>, now: int): map<JobId, int> {
    map id | id in jobs.Keys + ids :: if id in jobs then jobs[id] else now
  }

  function DueJobs(s: State, account: Id, now: int): set<JobId> {
    JobsFor(FollowUpClaim, account, Due(s, FollowUpClaim, account, now))
    + JobsFor(EscalateClaim, account, Due(s, EscalateClaim, account, now))
  }

  function AllDueJobs(s: State, accounts: set<Id>, now: int): set<JobId> {
    set a, id | a in accounts && id in DueJobs(s, a, now) :: id
  }

  /** All jobs of one scan: the due claims of the active accounts. */
  function Scanned(s: State, accounts: set<Id>, now: int): map<JobId, int> {
    WithJobs(s.jobs, AllDueJobs(s, accounts, now), now)
  }

  // ---- the handlers --------------------------------------------------------------------------

  function FollowUpEvent(s: State, account: Id, c: Id, now: int, txStart: int): Event
    requires c in s.claims && s.claims[c].deadline.Some?
  {
    Event(account, c, FollowUpSent, txStart, DeadlineDetail(Ms(s.claims[c].deadline.value)), now)
  }

  /** `generateClaimFollowUp`; `txStart` is the transaction time the row is stamped with. */
  function FollowUp(s: State, account: Id, c: Id, now: int, txStart: int): (State, Reply) {
    if !(c in s.claims && s.claims[c].account == account) then (s, Failed(ClaimNotFound))
    else if s.claims[c].status != Open then (s, Failed(ClaimTerminal))
    else if s.claims[c].deadline == None then (s, Failed(NoDeadlineSet))
    else if Ms(s.claims[c].deadline.value) > now then (s, Failed(DeadlineNotPassed))
    else
      var (audit, reply) := Written(s.audit, FollowUpEvent(s, account, c, now, txStart));
      (s.(audit := audit), reply)
  }

  /** `generateClaimEscalation` */
  function Escalate(s: State, account: Id, c: Id, now: int, txStart: int): (State, Reply) {
    if !(c in s.claims && s.claims[c].account == account) then (s, Failed(ClaimNotFound))
    else if s.claims[c].status != Open then (s, Failed(ClaimTerminal))
    else
      var followUp := LatestFollowUp(s.audit, account, c);
      if followUp == None then (s, Failed(NoFollowUpSent))
      else if Ms(followUp.value.recordedAt) + GRACE_MS > now then (s, Failed(GracePeriodNotElapsed))
      else
        var (audit, reply) := Written(s.audit,
                                      Event(account, c, Escalated, txStart,
                                            FollowUpDetail(Ms(followUp.value.recordedAt)), now));
        (s.(audit := audit), reply)
  }

  // ---- the fields and the statements on them -------------------------------------------------

  /** How many jobs a scan reports for the accounts, whether or not the queue knew them. */
  function DueCount(s: State, name: JobName, accounts: seq<Id>, now: int): nat {
    if accounts == [] then 0
    else DueCount(s, name, accounts[..|accounts| - 1], now) + |Due(s, name, accounts[|accounts| - 1], now)|
  }

  class AgingStore {
    var claims: map<Id, Claim>
    var audit: seq<Event>
    var jobs: map<JobId, int>

    function View(): State
      reads this
    {
      State(claims, audit, jobs)
    }

    method WriteAuditEvent(e: Event) returns (r: Reply)
      modifies `audit
      ensures (audit, r) == Written(old(audit), e)
    {
      var known := Known(audit, e);
      if known == None {
        audit := audit + [e];
        return Created;
      }
      r := if known.value.detail == e.detail then AlreadyThere else Failed(AuditEventConflict);
    }

    method GenerateClaimFollowUp(account: Id, claim: Id, now: int, txStart: int) returns (r: Reply)
      modifies `audit
      ensures (View(), r) == FollowUp(old(View()), account, claim, now, txStart)
    {
      if !(claim in claims && claims[claim].account == account) { return Failed(ClaimNotFound); }
      var c := claims[claim];
      if c.status != Open { return Failed(ClaimTerminal); }
      if c.deadline == None { return Failed(NoDeadlineSet); }
      if Ms(c.deadline.value) > now { return Failed(DeadlineNotPassed); }
      r := WriteAuditEvent(Event(account, claim, FollowUpSent, txStart, DeadlineDetail(Ms(c.deadline.value)), now));
    }

    method GenerateClaimEscalation(account: Id, claim: Id, now: int, txStart: int) returns (r: Reply)
      modifies `audit
      ensures (View(), r) == Escalate(old(View()), account, claim, now, txStart)
    {
      if !(claim in claims && claims[claim].account == account) { return Failed(ClaimNotFound); }
      if claims[claim].status != Open { return Failed(ClaimTerminal); }
      var followUp := LatestFollowUp(audit, account, claim);
      if followUp == None { return Failed(NoFollowUpSent); }
      var graceDeadline := Ms(followUp.value.recordedAt);
      graceDeadline := graceDeadline + GRACE_PERIOD_DAYS * MS_PER_DAY;
      if graceDeadline > now { return Failed(GracePeriodNotElapsed); }
      r := WriteAuditEvent(Event(account, claim, Escalated, txStart, FollowUpDetail(Ms(followUp.value.recordedAt)),
                                 now));
    }

    method Send(id: JobId, now: int)
      modifies `jobs
      ensures jobs == Sent(old(jobs), id, now)
    {
      if id !in jobs { jobs := jobs[id := now]; }
    }

    /** One of the two inner loops: a job for every due claim of one account. */
    method SendDue(name: JobName, account: Id, now: int) returns (count: nat)
      modifies `jobs
      ensures count == |Due(old(View()), name, account, now)|
      ensures jobs == WithJobs(old(jobs), JobsFor(name, account, Due(old(View()), name, account, now)), now)
    {
      ghost var before := jobs;
      var due := Due(View(), name, account, now);
      hide *;
      var rest := due;
      count := 0;
      NothingSent(before, name, account, due, now);
      while rest != {}
        invariant rest <= due && count + |rest| == |due|
        invariant jobs == SentSoFar(before, name, account, due, rest, now)
        decreases rest
      {
        var c :| c in rest;
        OneMoreSent(before, name, account, due, rest, c, now);
        Send(JobId(name, account, c), now);
        rest := rest - {c};
        count := count + 1;
      }
      AllSent(before, name, account, due, now);
    }

    /** `scheduleClaimAgingJobs`: every active account, follow-ups first. */
    method ScheduleClaimAgingJobs(accounts: seq<Id>, now: int) returns (followUps: nat, escalations: nat)
      modifies `jobs
      ensures View() == old(View()).(jobs := Scanned(old(View()), AccountSet(accounts), now))
      ensures followUps == DueCount(old(View()), FollowUpClaim, accounts, now)
      ensures escalations == DueCount(old(View()), EscalateClaim, accounts, now)
    {
      followUps, escalations := 0, 0;
      ghost var before := View();
      NothingScanned(before, now);
      hide Due;
      hide Scanned;
      hide AccountSet;
      hide WithJobs;
      hide JobsFor;
      for i := 0 to |accounts|
        invariant followUps == DueCount(before, FollowUpClaim, accounts[..i], now)
        invariant escalations == DueCount(before, EscalateClaim, accounts[..i], now)
        invariant jobs == Scanned(before, AccountSet(accounts[..i]), now)
      {
        assert accounts[..i + 1][..i] == accounts[..i];
        DueIgnoresJobs(before, View(), accounts[i], now);
        var n := SendDue(FollowUpClaim, accounts[i], now);
        followUps := followUps + n;
        DueIgnoresJobs(before, View(), accounts[i], now);
        n := SendDue(EscalateClaim, accounts[i], now);
        escalations := escalations + n;
        ScannedOneMore(before, AccountSet(accounts[..i]), accounts[i], now);
        OneMoreAccount(accounts[..i], accounts[i]);
        assert accounts[..i + 1] == accounts[..i] + [accounts[i]];
      }
      assert accounts[..|accounts|] == accounts;
    }
  }

  function AccountSet(accounts: seq<Id>): set<Id> { set a | a in accounts }

  lemma OneMoreAccount(accounts: seq<Id>, a: Id)
    ensures AccountSet(accounts + [a]) == AccountSet(accounts) + {a}
  {
  }

  /** The jobs after the due claims but `rest` were sent. */
  function SentSoFar(jobs: map<JobId, int>, name: JobName, account: Id, due: set<Id>, rest: set<Id>,
                     now: int): map<JobId, int> {
    WithJobs(jobs, JobsFor(name, account, due - rest), now)
  }

  lemma NothingSent(jobs: map<JobId, int>, name: JobName, account: Id, due: set<Id>, now: int)
    ensures SentSoFar(jobs, name, account, due, due, now) == jobs
  {
    assert JobsFor(name, account, due - due) == {};
  }

  lemma OneMoreSent(jobs: map<JobId, int>, name: JobName, account: Id, due: set<Id>, rest: set<Id>, c: Id, now: int)
    requires c in rest && rest <= due
    ensures SentSoFar(jobs, name, account, due, rest - {c}, now)
         == Sent(SentSoFar(jobs, name, account, due, rest, now), JobId(name, account, c), now)
  {
    assert due - (rest - {c}) == (due - rest) + {c};
    assert JobsFor(name, account, (due - rest) + {c}) == JobsFor(name, account, due - rest) + {JobId(name, account, c)};
    hide JobsFor;
  }

  lemma AllSent(jobs: map<JobId, int>, name: JobName, account: Id, due: set<Id>, now: int)
    ensures SentSoFar(jobs, name, account, due, {}, now) == WithJobs(jobs, JobsFor(name, account, due), now)
  {
    assert due - {} == due;
    hide JobsFor;
    hide WithJobs;
  }

  lemma DueIgnoresJobs(s: State, t: State, account: Id, now: int)
    requires t == s.(jobs := t.jobs)
    ensures Due(t, FollowUpClaim, account, now) == Due(s, FollowUpClaim, account, now)
    ensures Due(t, EscalateClaim, account, now) == Due(s, EscalateClaim, account, now)
  {
  }

  lemma NothingScanned(s: State, now: int)
    ensures Scanned(s, AccountSet([]), now) == s.jobs
  {
    assert AccountSet([]) == {};
    assert AllDueJobs(s, {}, now) == {};
  }

  lemma ScannedOneMore(s: State, accounts: set<Id>, account: Id, now: int)
    ensures Scanned(s, accounts + {account}, now)
         == WithJobs(WithJobs(Scanned(s, accounts, now),
                              JobsFor(FollowUpClaim, account, Due(s, FollowUpClaim, account, now)), now),
                     JobsFor(EscalateClaim, account, Due(s, EscalateClaim, account, now)), now)
  {
    var all, first, second := AllDueJobs(s, accounts, now),
        JobsFor(FollowUpClaim, account, Due(s, FollowUpClaim, account, now)),
                              JobsFor(EscalateClaim, account, Due(s, EscalateClaim, account, now));
    assert AllDueJobs(s, accounts + {account}, now) == all + DueJobs(s, account, now) by { hide DueJobs; }
    assert all + first + second == all + (first + second);
    WithJobsTwice(s.jobs, all, first, now);
    WithJobsTwice(s.jobs, all + first, second, now);
    hide Due;
    hide JobsFor;
    hide AllDueJobs;
    hide WithJobs;
  }

  lemma WithJobsTwice(jobs: map<JobId, int>, a: set<JobId>, b: set<JobId>, now: int)
    ensures WithJobs(WithJobs(jobs, a, now), b, now) == WithJobs(jobs, a + b, now)
  {
  }

  // ---- every schedule ------------------------------------------------------------------------

  datatype Op =
    | OpenClaim(id: Id, account: Id, openedAt: int)
    | SetDeadline(account: Id, claim: Id, agingDays: nat)
    | Resolve(account: Id, claim: Id, status: ClaimStatus, txStart: int)
    | Scan(accounts: set<Id>, now: int)
    | Deliver(job: JobId, now: int, txStart: int)
    | RolledBack(job: JobId)

  /** A job is delivered, as often as the queue likes, after the scan that sent it: by its clock not before. */
  predicate Enabled(s: State, op: Op) {
    match op
    case OpenClaim(id, _, _) => id !in s.claims
    case SetDeadline(_, _, days) => 0 < days <= 3650
    case Resolve(account, c, status, _) => c in s.claims && s.claims[c].account == account && s.claims[c].status == Open
        && status != Open
    case Scan(_, _) => true
    case Deliver(job, now, txStart) => job in s.jobs && s.jobs[job] <= now && txStart <= now * 1000 + 999
    case RolledBack(job) => job in s.jobs
  }

  function After(s: State, op: Op): State
    requires Enabled(s, op)
  {
    match op
    case OpenClaim(id, account, openedAt) => s.(claims := s.claims[id := Claim(account, Open, openedAt, None)])
    case SetDeadline(account, c, days) =>
      if c in s.claims && s.claims[c].account == account
      then s.(claims := s.claims[c := s.claims[c].(deadline := Some((Ms(s.claims[c].openedAt)
          + days * MS_PER_DAY) * 1000))])
      else s
    case Resolve(account, c, status, txStart) =>
      s.(claims := s.claims[c := s.claims[c].(status := status)],
         audit := Written(s.audit, Event(account, c, Terminal(status), txStart, NoDetail, txStart)).0)
    case Scan(accounts, now) => s.(jobs := Scanned(s, accounts, now))
    case Deliver(job, now, txStart) =>
      if job.name == FollowUpClaim then FollowUp(s, job.account, job.claim, now, txStart).0
      else Escalate(s, job.account, job.claim, now, txStart).0
    case RolledBack(_) => s
  }

  const EMPTY := State(map[], [], map[])

  ghost predicate Run(states: seq<State>, ops: seq<Op>) {
    && |states| == |ops| + 1 && states[0] == EMPTY
    && forall i | 0 <= i < |ops| :: Enabled(states[i], ops[i]) && states[i + 1] == After(states[i], ops[i])
  }

  predicate OncePerId(audit: seq<Event>) { forall i, j | 0 <= i < j < |audit| :: !SameId(audit[i], audit[j]) }

  /** Rows are about claims of their tenant, and a terminal row names the status of its claim. */
  predicate EventSound(s: State, e: Event) {
    && e.claim in s.claims && e.account == s.claims[e.claim].account
    && (e.name.Terminal? ==> e.name.status == s.claims[e.claim].status != Open)
  }

  /** An escalation follows a follow-up of the same claim, by the grace period on the writer's clock, which
      sees the follow-up truncated to the millisecond. */
  predicate GraceKept(audit: seq<Event>, i: nat) {
    i < |audit| && (audit[i].name == Escalated ==>
      exists j :: 0 <= j < i && audit[j].account == audit[i].account && audit[j].claim == audit[i].claim
          && audit[j].name == FollowUpSent
                  && audit[i].detail == FollowUpDetail(Ms(audit[j].recordedAt))
                  && Ms(audit[j].recordedAt) + GRACE_MS <= audit[i].clock)
  }

  ghost predicate Invariant(s: State) {
    && OncePerId(s.audit)
    && (forall i | 0 <= i < |s.audit| :: EventSound(s, s.audit[i]))
    && (forall c | c in s.claims :: s.claims[c].status != Open <==> HasTerminal(s.audit, s.claims[c].account, c))
    && forall i | 0 <= i < |s.audit| :: GraceKept(s.audit, i)
  }

  lemma {:induction false} KnownMeaning(audit: seq<Event>, e: Event)
    ensures Known(audit, e) == None <==> forall i | 0 <= i < |audit| :: !SameId(audit[i], e)
    ensures Known(audit, e).Some? ==> Known(audit, e).value in audit && SameId(Known(audit, e).value, e)
    decreases |audit|
  {
    if audit != [] {
      var n := |audit| - 1;
      KnownMeaning(audit[..n], e);
      assert forall i | 0 <= i < n :: audit[..n][i] == audit[i];
    }
  }

  lemma {:induction false} LatestIsThere(audit: seq<Event>, account: Id, c: Id)
    ensures LatestFollowUp(audit, account, c).Some? <==> Has(audit, account, c, FollowUpSent)
    ensures LatestFollowUp(audit, account, c).Some? ==>
              exists j :: 0 <= j < |audit| && audit[j] == LatestFollowUp(audit, account, c).value
                          && audit[j].account == account && audit[j].claim == c && audit[j].name == FollowUpSent
    decreases |audit|
  {
    if audit != [] {
      var n := |audit| - 1;
      LatestIsThere(audit[..n], account, c);
      var rest := LatestFollowUp(audit[..n], account, c);
      assert forall i | 0 <= i < n :: audit[..n][i] == audit[i];
      if rest.Some? {
        var j :| 0 <= j < n && audit[..n][j] == rest.value && audit[..n][j].name == FollowUpSent;
        assert audit[j] == rest.value;
      }
      if Has(audit, account, c, FollowUpSent) {
        var i :| 0 <= i < |audit| && audit[i].account == account && audit[i].claim == c
            && audit[i].name == FollowUpSent;
        assert i < n ==> audit[..n][i] == audit[i];
      }
    }
  }

  /** Appending one sound row keeps the ledger sound. */
  lemma Appended(s: State, e: Event)
    requires Invariant(s) && Known(s.audit, e) == None && EventSound(s, e) && !e.name.Terminal?
    requires GraceKept(s.audit + [e], |s.audit|)
    ensures Invariant(s.(audit := s.audit + [e]))
  {
    KnownMeaning(s.audit, e);
    var u := s.(audit := s.audit + [e]);
    forall i | 0 <= i < |u.audit| ensures EventSound(u, u.audit[i]) {
      assert i < |s.audit| ==> EventSound(s, s.audit[i]);
    }
    forall i | 0 <= i < |u.audit| ensures GraceKept(u.audit, i) {
      if i < |s.audit| { assert GraceKept(s.audit, i); EarlierGrace(s.audit, e, i); }
    }
    forall c | c in u.claims ensures u.claims[c].status != Open <==> HasTerminal(u.audit, u.claims[c].account, c) {
      TerminalKept(s.audit, e, s.claims[c].account, c);
    }
  }

  lemma EarlierGrace(audit: seq<Event>, e: Event, i: nat)
    requires i < |audit| && GraceKept(audit, i)
    ensures GraceKept(audit + [e], i)
  {
    var more := audit + [e];
    assert more[i] == audit[i];
    if audit[i].name == Escalated {
      var j :| 0 <= j < i && audit[j].account == audit[i].account && audit[j].claim == audit[i].claim
          && audit[j].name == FollowUpSent
               && audit[i].detail == FollowUpDetail(Ms(audit[j].recordedAt))
                   && Ms(audit[j].recordedAt) + GRACE_MS <= audit[i].clock;
      assert more[j] == audit[j];
    }
  }

  lemma TerminalKept(audit: seq<Event>, e: Event, account: Id, c: Id)
    ensures HasTerminal(audit + [e], account, c)
       <==> HasTerminal(audit, account, c) || (e.account == account && e.claim == c && e.name.Terminal?)
  {
    var more := audit + [e];
    assert more[|audit|] == e;
    assert forall i | 0 <= i < |audit| :: more[i] == audit[i];
  }

  lemma FollowUpKeeps(s: State, account: Id, c: Id, now: int, txStart: int)
    requires Invariant(s)
    ensures Invariant(FollowUp(s, account, c, now, txStart).0)
  {
    if FollowUp(s, account, c, now, txStart).1 == Created {
      Appended(s, FollowUpEvent(s, account, c, now, txStart));
    }
  }

  lemma EscalateKeeps(s: State, account: Id, c: Id, now: int, txStart: int)
    requires Invariant(s)
    ensures Invariant(Escalate(s, account, c, now, txStart).0)
  {
    if Escalate(s, account, c, now, txStart).1 == Created {
      var f := LatestFollowUp(s.audit, account, c);
      var e := Event(account, c, Escalated, txStart, FollowUpDetail(Ms(f.value.recordedAt)), now);
      LatestIsThere(s.audit, account, c);
      var more := s.audit + [e];
      assert GraceKept(more, |s.audit|) by {
        var j :| 0 <= j < |s.audit| && s.audit[j] == f.value && s.audit[j].account == account && s.audit[j].claim == c
                 && s.audit[j].name == FollowUpSent;
        assert more[j] == s.audit[j] && more[|s.audit|] == e;
      }
      Appended(s, e);
    }
  }

  lemma ResolveKeeps(s: State, op: Op)
    requires Invariant(s) && Enabled(s, op) && op.Resolve?
    ensures Invariant(After(s, op))
  {
    var e := Event(op.account, op.claim, Terminal(op.status), op.txStart, NoDetail, op.txStart);
    KnownMeaning(s.audit, e);
    assert !HasTerminal(s.audit, op.account, op.claim);
    forall i | 0 <= i < |s.audit| ensures !SameId(s.audit[i], e) {}
    var u := After(s, op);
    assert u.audit == s.audit + [e];
    forall i | 0 <= i < |u.audit| ensures EventSound(u, u.audit[i]) {
      if i < |s.audit| {
        assert EventSound(s, s.audit[i]);
      }
    }
    forall i | 0 <= i < |u.audit| ensures GraceKept(u.audit, i) {
      if i < |s.audit| { assert GraceKept(s.audit, i); EarlierGrace(s.audit, e, i); }
    }
    forall c | c in u.claims ensures u.claims[c].status != Open <==> HasTerminal(u.audit, u.claims[c].account, c) {
      TerminalKept(s.audit, e, s.claims[c].account, c);
    }
  }

  lemma StepKeeps(s: State, op: Op)
    requires Invariant(s) && Enabled(s, op)
    ensures Invariant(After(s, op)) && s.audit <= After(s, op).audit
  {
    match op
    case Resolve(_, _, _, _) => ResolveKeeps(s, op);
    case Deliver(job, now, txStart) =>
      FollowUpKeeps(s, job.account, job.claim, now, txStart);
      EscalateKeeps(s, job.account, job.claim, now, txStart);
    case OpenClaim(id, account, _) =>
      var u := After(s, op);
      forall i | 0 <= i < |s.audit| ensures EventSound(u, u.audit[i]) { assert EventSound(s, s.audit[i]); }
      assert !HasTerminal(s.audit, account, id) by {
        assert forall i | 0 <= i < |s.audit| :: EventSound(s, s.audit[i]);
      }
    case _ =>
      var u := After(s, op);
      forall i | 0 <= i < |s.audit| ensures EventSound(u, u.audit[i]) { assert EventSound(s, s.audit[i]); }
  }

  lemma {:induction false} RunKeeps(states: seq<State>, ops: seq<Op>, i: nat)
    requires Run(states, ops) && i < |states|
    ensures Invariant(states[i])
    decreases i
  {
    if i > 0 {
      RunKeeps(states, ops, i - 1);
      StepKeeps(states[i - 1], ops[i - 1]);
    }
  }

  /** The guard on the grace period, exactly: it lets an escalation through up to 999 microseconds early. */
  lemma GraceGuard(recordedAt: int, now: int)
    ensures Ms(recordedAt) + GRACE_MS <= now <==> recordedAt + GRACE_US <= now * 1000 + 999
  {
  }

  /** Under every schedule of scans, duplicate deliveries and rolled-back attempts: one follow-up and one escalation
      at most per claim, and each escalation at least the grace period after its follow-up, to the millisecond. */
  lemma AtMostOnceAndAfterGrace(states: seq<State>, ops: seq<Op>, i: nat)
    requires Run(states, ops) && i < |states|
    ensures forall m, n | 0 <= m < n < |states[i].audit| && states[i].audit[m].claim == states[i].audit[n].claim ::
              states[i].audit[m].name != states[i].audit[n].name
    ensures forall n | 0 <= n < |states[i].audit| && states[i].audit[n].name == Escalated ::
              exists m :: 0 <= m < n && states[i].audit[m].claim == states[i].audit[n].claim
                  && states[i].audit[m].name == FollowUpSent
                          && states[i].audit[m].recordedAt + GRACE_US <= states[i].audit[n].clock * 1000 + 999
  {
    RunKeeps(states, ops, i);
    var s := states[i];
    forall m, n | 0 <= m < n < |s.audit| && s.audit[m].claim == s.audit[n].claim
        ensures s.audit[m].name != s.audit[n].name {
      assert EventSound(s, s.audit[m]) && EventSound(s, s.audit[n]);
      assert !SameId(s.audit[m], s.audit[n]);
    }
    forall n | 0 <= n < |s.audit| && s.audit[n].name == Escalated
      ensures exists m :: 0 <= m < n && s.audit[m].claim == s.audit[n].claim && s.audit[m].name == FollowUpSent
                          && s.audit[m].recordedAt + GRACE_US <= s.audit[n].clock * 1000 + 999
    {
      assert GraceKept(s.audit, n);
      var m :| 0 <= m < n && s.audit[m].account == s.audit[n].account && s.audit[m].claim == s.audit[n].claim
          && s.audit[m].name == FollowUpSent
               && s.audit[n].detail == FollowUpDetail(Ms(s.audit[m].recordedAt))
                   && Ms(s.audit[m].recordedAt) + GRACE_MS <= s.audit[n].clock;
      GraceGuard(s.audit[m].recordedAt, s.audit[n].clock);
    }
  }

  // ---- the scan and the handlers agree -------------------------------------------------------

  /** A claim the follow-up scan lists passes the guards of the handler, then or later that instant, and gets its event.
      */
  lemma ListedClaimIsFollowedUp(s: State, account: Id, c: Id, scanned: int, now: int, txStart: int)
    requires Invariant(s) && DueForFollowUp(s, account, c, scanned) && scanned <= now
    ensures FollowUp(s, account, c, now, txStart).1 == Created
  {
    var e := FollowUpEvent(s, account, c, now, txStart);
    KnownMeaning(s.audit, e);
    forall i | 0 <= i < |s.audit| ensures !SameId(s.audit[i], e) {
      assert SameId(s.audit[i], e) ==> Has(s.audit, account, c, FollowUpSent);
    }
  }

  /** A claim the escalation scan lists passes the guards too: escalated then, unless it already was. */
  lemma ListedClaimIsEscalated(s: State, account: Id, c: Id, scanned: int, now: int, txStart: int)
    requires Invariant(s) && DueForEscalation(s, account, c, scanned) && scanned <= now
    ensures Escalate(s, account, c, now, txStart).1 == if Has(s.audit, account, c, Escalated) then AlreadyThere
        else Created
  {
    var f := LatestFollowUp(s.audit, account, c).value;
    GraceGuard(f.recordedAt, now);
    var e := Event(account, c, Escalated, txStart, FollowUpDetail(Ms(f.recordedAt)), now);
    KnownMeaning(s.audit, e);
    if Has(s.audit, account, c, Escalated) {
      var n :| 0 <= n < |s.audit| && s.audit[n].account == account && s.audit[n].claim == c
          && s.audit[n].name == Escalated;
      assert SameId(s.audit[n], e);
      var known := Known(s.audit, e).value;
      var k :| 0 <= k < |s.audit| && s.audit[k] == known;
      assert GraceKept(s.audit, k);
      var m :| 0 <= m < k && s.audit[m].account == account && s.audit[m].claim == c && s.audit[m].name == FollowUpSent
               && known.detail == FollowUpDetail(Ms(s.audit[m].recordedAt));
      LatestIsThere(s.audit, account, c);
      var j :| 0 <= j < |s.audit| && s.audit[j] == f && f.account == account && f.claim == c && f.name == FollowUpSent;
      assert SameId(s.audit[m], s.audit[j]);
      assert m == j;
    }
  }

  /** A redelivered follow-up is recognised exactly while the deadline is still the recorded one, to the millisecond;
      after a change of the deadline it fails on the ledger instead. */
  lemma RedeliveredFollowUp(s: State, account: Id, c: Id, now: int, txStart: int, first: Event)
    requires Invariant(s) && first in s.audit && first.account == account && first.claim == c
        && first.name == FollowUpSent
    requires s.claims[c].status == Open && s.claims[c].deadline.Some? && Ms(s.claims[c].deadline.value) <= now
    ensures FollowUp(s, account, c, now, txStart)
         == (s, if first.detail == DeadlineDetail(Ms(s.claims[c].deadline.value)) then AlreadyThere
             else Failed(AuditEventConflict))
  {
    var e := FollowUpEvent(s, account, c, now, txStart);
    KnownMeaning(s.audit, e);
    var i :| 0 <= i < |s.audit| && s.audit[i] == first;
    assert EventSound(s, s.audit[i]);
    assert SameId(s.audit[i], e);
    var k :| 0 <= k < |s.audit| && s.audit[k] == Known(s.audit, e).value;
    assert SameId(s.audit[i], s.audit[k]);
  }

  // ---- the stored time of an escalation ------------------------------------------------------

  /** When the job was first sent, the grace period since a follow-up of its claim was over. */
  ghost predicate EarnedJob(audit: seq<Event>, id: JobId, at: int) {
    exists j :: 0 <= j < |audit| && audit[j].account == id.account && audit[j].claim == id.claim
        && audit[j].name == FollowUpSent
                && audit[j].recordedAt + GRACE_US <= at * 1000
  }

  ghost predicate JobsEarned(s: State) {
    forall id | id in s.jobs && id.name == EscalateClaim :: EarnedJob(s.audit, id, s.jobs[id])
  }

  lemma EarnedStays(audit: seq<Event>, later: seq<Event>, id: JobId, at: int)
    requires EarnedJob(audit, id, at) && audit <= later
    ensures EarnedJob(later, id, at)
  {
    var j :| 0 <= j < |audit| && audit[j].account == id.account && audit[j].claim == id.claim
        && audit[j].name == FollowUpSent
             && audit[j].recordedAt + GRACE_US <= at * 1000;
    assert later[j] == audit[j];
  }

  lemma DueIsEarned(s: State, account: Id, c: Id, now: int)
    requires DueForEscalation(s, account, c, now)
    ensures EarnedJob(s.audit, JobId(EscalateClaim, account, c), now)
  {
    LatestIsThere(s.audit, account, c);
  }

  lemma ScanEarns(s: State, accounts: set<Id>, now: int)
    requires JobsEarned(s)
    ensures JobsEarned(s.(jobs := Scanned(s, accounts, now)))
  {
    var jobs := Scanned(s, accounts, now);
    forall id | id in jobs && id.name == EscalateClaim ensures EarnedJob(s.audit, id, jobs[id]) {
      if id !in s.jobs {
        assert id in AllDueJobs(s, accounts, now);
        DueIsEarned(s, id.account, id.claim, now);
      }
    }
    hide EarnedJob;
    hide DueForEscalation;
    hide DueForFollowUp;
  }

  lemma StepEarns(s: State, op: Op)
    requires Invariant(s) && JobsEarned(s) && Enabled(s, op)
    ensures JobsEarned(After(s, op))
  {
    StepKeeps(s, op);
    if op.Scan? {
      ScanEarns(s, op.accounts, op.now);
    } else {
      StepKeepsJobs(s, op);
      var u := After(s, op);
      hide *;
      JobsEarnedLater(s, u);
    }
  }

  lemma StepKeepsJobs(s: State, op: Op)
    requires Enabled(s, op) && !op.Scan?
    ensures After(s, op).jobs == s.jobs
  {
    hide Written;
  }

  lemma JobsEarnedLater(s: State, u: State)
    requires JobsEarned(s) && u.jobs == s.jobs && s.audit <= u.audit
    ensures JobsEarned(u)
  {
    forall id | id in u.jobs && id.name == EscalateClaim ensures EarnedJob(u.audit, id, u.jobs[id]) {
      EarnedStays(s.audit, u.audit, id, s.jobs[id]);
    }
    hide EarnedJob;
  }

  lemma {:induction false} RunEarns(states: seq<State>, ops: seq<Op>, i: nat)
    requires Run(states, ops) && i < |states|
    ensures JobsEarned(states[i])
    decreases i
  {
    if i > 0 {
      RunEarns(states, ops, i - 1);
      RunKeeps(states, ops, i - 1);
      hide Invariant;
      hide JobsEarned;
      StepEarns(states[i - 1], ops[i - 1]);
    }
  }

  /** The delivery that writes this escalation. */
  predicate WrittenAs(op: Op, e: Event) {
    op.Deliver? && op.job == JobId(EscalateClaim, e.account, e.claim) && op.txStart == e.recordedAt && op.now == e.clock
  }

  lemma StepWritesEscalation(s: State, op: Op)
    requires Enabled(s, op) && |After(s, op).audit| > |s.audit| && After(s, op).audit[|s.audit|].name == Escalated
    ensures WrittenAs(op, After(s, op).audit[|s.audit|])
  {
  }

  lemma {:induction false} EscalationWritten(states: seq<State>, ops: seq<Op>, i: nat, n: nat) returns (k: nat)
    requires Run(states, ops) && i < |states| && n < |states[i].audit| && states[i].audit[n].name == Escalated
    ensures k < i && WrittenAs(ops[k], states[i].audit[n]) && states[k].audit == states[i].audit[..n]
    decreases i
  {
    hide *;
    RunStarts(states, ops);
    RunStep(states, ops, i - 1);
    var s, u := states[i - 1], states[i];
    assert s.audit <= u.audit && |u.audit| <= |s.audit| + 1;
    if n < |s.audit| {
      k := EscalationWritten(states, ops, i - 1, n);
      assert s.audit[n] == u.audit[n] && s.audit[..n] == u.audit[..n];
    } else {
      k := i - 1;
      StepWritesEscalation(s, ops[k]);
    }
  }

  lemma RunStarts(states: seq<State>, ops: seq<Op>)
    requires Run(states, ops)
    ensures |states| == |ops| + 1 && states[0].audit == []
  {
  }

  lemma RunStep(states: seq<State>, ops: seq<Op>, i: nat)
    requires Run(states, ops) && i < |ops|
    ensures Enabled(states[i], ops[i]) && states[i + 1] == After(states[i], ops[i])
    ensures states[i].audit <= states[i + 1].audit && |states[i + 1].audit| <= |states[i].audit| + 1
  {
    RunKeeps(states, ops, i);
    hide Invariant;
    hide Enabled;
    hide After;
    StepKeeps(states[i], ops[i]);
    StepAppendsOne(states[i], ops[i]);
  }

  lemma StepAppendsOne(s: State, op: Op)
    requires Enabled(s, op)
    ensures |After(s, op).audit| <= |s.audit| + 1
  {
  }

  /** Over every run: an escalation is stamped with the start of the delivery that wrote it, and so lies at least the
      grace period after its follow-up exactly when that transaction began then. It does when the transaction began no
      earlier than the instant of the scan that first sent the job, and to the millisecond when it began no earlier than
      the handler's clock read. */
  lemma EscalationTime(states: seq<State>, ops: seq<Op>, i: nat, n: nat) returns (k: nat, m: nat)
    requires Run(states, ops) && i < |states| && n < |states[i].audit| && states[i].audit[n].name == Escalated
    ensures k < i && WrittenAs(ops[k], states[i].audit[n]) && ops[k].job in states[k].jobs
    ensures m < n && states[i].audit[m].claim == states[i].audit[n].claim && states[i].audit[m].name == FollowUpSent
    ensures var start, earliest := ops[k].txStart, states[i].audit[m].recordedAt + GRACE_US;
      && (states[i].audit[n].recordedAt >= earliest <==> start >= earliest)
      && (states[k].jobs[ops[k].job] * 1000 <= start ==> start >= earliest)
      && (ops[k].now * 1000 <= start ==> start + 999 >= earliest)
  {
    k := EscalationWritten(states, ops, i, n);
    RunKeeps(states, ops, i);
    RunEarns(states, ops, k);
    assert Enabled(states[k], ops[k]);
    hide Run;
    m := FollowUpOf(states[i], n);
    SentAfterGrace(states[i], states[k], ops[k].job, n, m);
    GraceGuard(states[i].audit[m].recordedAt, ops[k].now);
  }

  lemma FollowUpOf(s: State, n: nat) returns (m: nat)
    requires Invariant(s) && n < |s.audit| && s.audit[n].name == Escalated
    ensures m < n && s.audit[m].account == s.audit[n].account && s.audit[m].claim == s.audit[n].claim
        && s.audit[m].name == FollowUpSent
    ensures Ms(s.audit[m].recordedAt) + GRACE_MS <= s.audit[n].clock
  {
    assert GraceKept(s.audit, n);
    m :| 0 <= m < n && s.audit[m].account == s.audit[n].account && s.audit[m].claim == s.audit[n].claim
         && s.audit[m].name == FollowUpSent && Ms(s.audit[m].recordedAt) + GRACE_MS <= s.audit[n].clock;
  }

  lemma SentAfterGrace(s: State, before: State, job: JobId, n: nat, m: nat)
    requires Invariant(s) && n < |s.audit| && m < n && before.audit == s.audit[..n] && JobsEarned(before)
        && job in before.jobs
    requires job == JobId(EscalateClaim, s.audit[n].account, s.audit[n].claim)
    requires s.audit[m].account == job.account && s.audit[m].claim == job.claim && s.audit[m].name == FollowUpSent
    ensures s.audit[m].recordedAt + GRACE_US <= before.jobs[job] * 1000
  {
    assert EarnedJob(before.audit, job, before.jobs[job]);
    var j :| 0 <= j < |before.audit| && before.audit[j].account == job.account && before.audit[j].claim == job.claim
             && before.audit[j].name == FollowUpSent
                 && before.audit[j].recordedAt + GRACE_US <= before.jobs[job] * 1000;
    assert before.audit[j] == s.audit[j];
    assert SameId(s.audit[j], s.audit[m]);
    assert j == m;
  }

  // ---- an early one --------------------------------------------------------------------------

  const DEADLINE_MS: int := 86_400_000
  const ESCALATED_MS: int := 691_200_000
  const EARLY_START: int := 691_199_000_000

  const EARLY_OPS := [OpenClaim(1, 1, 0), SetDeadline(1, 1, 1), Scan({1}, DEADLINE_MS),
                      Deliver(JobId(FollowUpClaim, 1, 1), DEADLINE_MS, DEADLINE_MS * 1000), Scan({1}, ESCALATED_MS),
                      Deliver(JobId(EscalateClaim, 1, 1), ESCALATED_MS, EARLY_START)]

  const THE_CLAIM := Claim(1, Open, 0, Some(DEADLINE_MS * 1000))
  const THE_FOLLOW_UP := Event(1, 1, FollowUpSent, DEADLINE_MS * 1000, DeadlineDetail(DEADLINE_MS), DEADLINE_MS)
  const THE_ESCALATION := Event(1, 1, Escalated, EARLY_START, FollowUpDetail(DEADLINE_MS), ESCALATED_MS)

  lemma FirstScan()
    ensures Scanned(State(map[1 := THE_CLAIM], [], map[]), {1}, DEADLINE_MS)
        == map[JobId(FollowUpClaim, 1, 1) := DEADLINE_MS]
  {
    var s := State(map[1 := THE_CLAIM], [], map[]);
    assert Due(s, FollowUpClaim, 1, DEADLINE_MS) == {1};
    assert Due(s, EscalateClaim, 1, DEADLINE_MS) == {};
    OnlyDue(s, DEADLINE_MS, {JobId(FollowUpClaim, 1, 1)});
    hide Due;
  }

  lemma SecondScan()
    ensures Scanned(State(map[1 := THE_CLAIM], [THE_FOLLOW_UP], map[JobId(FollowUpClaim, 1, 1) := DEADLINE_MS]), {1},
                    ESCALATED_MS)
         == map[JobId(FollowUpClaim, 1, 1) := DEADLINE_MS, JobId(EscalateClaim, 1, 1) := ESCALATED_MS]
  {
    var s := State(map[1 := THE_CLAIM], [THE_FOLLOW_UP], map[JobId(FollowUpClaim, 1, 1) := DEADLINE_MS]);
    OneFollowUp();
    assert s.audit[0].name == FollowUpSent;
    assert Has(s.audit, 1, 1, FollowUpSent);
    assert Due(s, FollowUpClaim, 1, ESCALATED_MS) == {};
    assert Due(s, EscalateClaim, 1, ESCALATED_MS) == {1};
    OnlyDue(s, ESCALATED_MS, {JobId(EscalateClaim, 1, 1)});
    hide Due;
  }

  lemma OneFollowUp()
    ensures LatestFollowUp([THE_FOLLOW_UP], 1, 1) == Some(THE_FOLLOW_UP) && !HasTerminal([THE_FOLLOW_UP], 1, 1)
  {
    assert [THE_FOLLOW_UP][..0] == [];
  }

  lemma OnlyDue(s: State, now: int, jobs: set<JobId>)
    requires DueJobs(s, 1, now) == jobs
    ensures AllDueJobs(s, {1}, now) == jobs
  {
    hide DueJobs;
    assert forall id :: id in AllDueJobs(s, {1}, now) <==> id in DueJobs(s, 1, now);
  }

  lemma EscalatedEarly()
    ensures var s := State(map[1 := THE_CLAIM], [THE_FOLLOW_UP],
                           map[JobId(FollowUpClaim, 1, 1) := DEADLINE_MS, JobId(EscalateClaim, 1, 1) := ESCALATED_MS]);
            Escalate(s, 1, 1, ESCALATED_MS, EARLY_START).0 == s.(audit := [THE_FOLLOW_UP, THE_ESCALATION])
  {
    OneFollowUp();
    KnownMeaning([THE_FOLLOW_UP], THE_ESCALATION);
  }

  /** A run that stores one too early: the database's clock, which stamps the row, is a second behind the worker's,
      which the guard looks at. */
  lemma RecordedTimeMayBeEarly() returns (states: seq<State>, ops: seq<Op>)
    ensures Run(states, ops)
    ensures var audit := states[|ops|].audit;
      && |audit| == 2 && audit[0].name == FollowUpSent && audit[1].name == Escalated && audit[0].claim == audit[1].claim
      && audit[1].recordedAt < audit[0].recordedAt + GRACE_US
  {
    ops := EARLY_OPS;
    var sent := map[JobId(FollowUpClaim, 1, 1) := DEADLINE_MS];
    var s1 := State(map[1 := Claim(1, Open, 0, None)], [], map[]);
    var s2 := State(map[1 := THE_CLAIM], [], map[]);
    var s3 := State(map[1 := THE_CLAIM], [], sent);
    var s4 := State(map[1 := THE_CLAIM], [THE_FOLLOW_UP], sent);
    var s5 := State(map[1 := THE_CLAIM], [THE_FOLLOW_UP], sent[JobId(EscalateClaim, 1, 1) := ESCALATED_MS]);
    var s6 := s5.(audit := [THE_FOLLOW_UP, THE_ESCALATION]);
    states := [EMPTY, s1, s2, s3, s4, s5, s6];
    FirstScan();
    SecondScan();
    EscalatedEarly();
    hide Scanned;
    hide Escalate;
    assert After(EMPTY, ops[0]) == s1;
    assert After(s1, ops[1]) == s2;
    assert After(s2, ops[2]) == s3;
    assert After(s3, ops[3]) == s4;
    assert After(s4, ops[4]) == s5;
    assert After(s5, ops[5]) == s6;
    hide After;
  }
}
