/** Which claims a scan lists, and what the handlers do. */
module AgingAnswers {
  import opened ClaimAging
  import opened Sums

  // Said of the claims and the audit rows of any state a run reaches, with the grace period written out: seven days.

  const DAY_MS: nat := 86_400_000

  predicate OwnOpen(s: State, account: Id, c: Id) {
    c in s.claims && s.claims[c].account == account && s.claims[c].status == Open
  }

  predicate IsRow(e: Event, c: Id, name: EventName) { e.claim == c && e.name == name }

  predicate Recorded(s: State, c: Id, name: EventName) { exists e :: e in s.audit && IsRow(e, c, name) }

  lemma HasMeaning(s: State, c: Id, name: EventName)
    requires Invariant(s) && c in s.claims
    ensures Has(s.audit, s.claims[c].account, c, name) <==> Recorded(s, c, name)
  {
    if Recorded(s, c, name) {
      var e :| e in s.audit && IsRow(e, c, name);
      var i :| 0 <= i < |s.audit| && s.audit[i] == e;
      assert EventSound(s, s.audit[i]);
    }
    if Has(s.audit, s.claims[c].account, c, name) {
      var i :| 0 <= i < |s.audit| && s.audit[i].account == s.claims[c].account && s.audit[i].claim == c
          && s.audit[i].name == name;
      assert IsRow(s.audit[i], c, name);
    }
  }

  /** The one row of a claim under a name. */
  lemma OneRow(s: State, c: Id, name: EventName, e: Event, f: Event)
    requires Invariant(s) && e in s.audit && f in s.audit && IsRow(e, c, name) && IsRow(f, c, name)
    ensures e == f
  {
    var i :| 0 <= i < |s.audit| && s.audit[i] == e;
    var j :| 0 <= j < |s.audit| && s.audit[j] == f;
    assert EventSound(s, s.audit[i]) && EventSound(s, s.audit[j]);
    assert SameId(s.audit[i], s.audit[j]);
  }

  lemma FollowUpRow(s: State, account: Id, c: Id)
    requires Invariant(s) && c in s.claims && s.claims[c].account == account
    ensures LatestFollowUp(s.audit, account, c).Some? <==> Recorded(s, c, FollowUpSent)
    ensures forall e | e in s.audit && IsRow(e, c, FollowUpSent) :: LatestFollowUp(s.audit, account, c) == Some(e)
  {
    LatestIsThere(s.audit, account, c);
    HasMeaning(s, c, FollowUpSent);
    var latest := LatestFollowUp(s.audit, account, c);
    forall e | e in s.audit && IsRow(e, c, FollowUpSent) ensures latest == Some(e) {
      assert Recorded(s, c, FollowUpSent);
      assert latest.value in s.audit && IsRow(latest.value, c, FollowUpSent);
      OneRow(s, c, FollowUpSent, latest.value, e);
    }
  }

  // ---- the scan ------------------------------------------------------------------------------

  lemma FollowUpListed(s: State, account: Id, c: Id, now: int)
    requires Invariant(s)
    ensures c in Due(s, FollowUpClaim, account, now)
       <==> && OwnOpen(s, account, c)
            && s.claims[c].deadline.Some? && s.claims[c].deadline.value <= now * 1000
            && !Recorded(s, c, FollowUpSent)
  {
    if c in s.claims && s.claims[c].account == account { HasMeaning(s, c, FollowUpSent); }
    hide Has;
    hide HasTerminal;
    hide Recorded;
  }

  lemma EscalationListed(s: State, account: Id, c: Id, now: int)
    requires Invariant(s)
    ensures c in Due(s, EscalateClaim, account, now)
       <==> && OwnOpen(s, account, c)
            && exists e :: e in s.audit && IsRow(e, c, FollowUpSent) && e.recordedAt + 7 * DAY_MS * 1000 <= now * 1000
  {
    if c in s.claims && s.claims[c].account == account {
      FollowUpRow(s, account, c);
      if LatestFollowUp(s.audit, account, c).Some? {
        var e :| e in s.audit && IsRow(e, c, FollowUpSent);
        assert LatestFollowUp(s.audit, account, c).value == e;
      }
    }
    hide LatestFollowUp;
    hide HasTerminal;
  }

  /** In every state of every run: the scan lists a claim of the tenant for follow-up exactly while it is open, its
      deadline is reached and no follow-up is recorded; and for escalation exactly while it is open and a follow-up was
      recorded seven days ago or more, escalated or not. */
  lemma ListedExactly(states: seq<State>, ops: seq<Op>, i: nat, account: Id, c: Id, now: int)
    requires Run(states, ops) && i < |states|
    ensures var s := states[i];
      && (c in Due(s, FollowUpClaim, account, now)
          <==> && OwnOpen(s, account, c)
               && s.claims[c].deadline.Some? && s.claims[c].deadline.value <= now * 1000
               && !Recorded(s, c, FollowUpSent))
      && (c in Due(s, EscalateClaim, account, now)
          <==> && OwnOpen(s, account, c)
               && exists e :: e in s.audit && IsRow(e, c, FollowUpSent)
                              && e.recordedAt + 7 * DAY_MS * 1000 <= now * 1000)
  {
    RunKeeps(states, ops, i);
    FollowUpListed(states[i], account, c, now);
    EscalationListed(states[i], account, c, now);
    hide Run;
    hide Invariant;
    hide Due;
    hide Recorded;
  }

  /** A scan sends a job for every listed claim of the accounts it is given, and no other; a job that is known keeps its
      time; claims and ledger are left alone. */
  lemma ScanAnswer(s: State, accounts: set<Id>, now: int, job: JobId)
    ensures var u := After(s, Scan(accounts, now));
      && u.claims == s.claims && u.audit == s.audit
      && (job in u.jobs <==> job in s.jobs
                             || (job.account in accounts && job.claim in Due(s, job.name, job.account, now)))
      && (job in u.jobs ==> u.jobs[job] == if job in s.jobs then s.jobs[job] else now)
  {
    DueJobMeaning(s, accounts, now, job);
    hide AllDueJobs;
    hide Due;
  }

  lemma DueJobMeaning(s: State, accounts: set<Id>, now: int, job: JobId)
    ensures job in AllDueJobs(s, accounts, now)
       <==> job.account in accounts && job.claim in Due(s, job.name, job.account, now)
  {
    forall a ensures job in DueJobs(s, a, now) <==> job.account == a && job.claim in Due(s, job.name, a, now) {
      OwnJobs(s, a, now, job);
    }
    hide Due;
    hide DueJobs;
  }

  lemma OwnJobs(s: State, account: Id, now: int, job: JobId)
    ensures job in DueJobs(s, account, now)
       <==> job.account == account && job.claim in Due(s, job.name, account, now)
  {
    JobsForMeaning(FollowUpClaim, account, Due(s, FollowUpClaim, account, now), job);
    JobsForMeaning(EscalateClaim, account, Due(s, EscalateClaim, account, now), job);
    hide Due;
    hide JobsFor;
  }

  lemma JobsForMeaning(name: JobName, account: Id, claims: set<Id>, job: JobId)
    ensures job in JobsFor(name, account, claims)
       <==> job.name == name && job.account == account && job.claim in claims
  {
    if job.name == name && job.account == account && job.claim in claims {
      assert JobId(name, account, job.claim) == job;
    }
  }

  /** The claims a scan lists, account by account. */
  ghost function AllListed(s: State, name: JobName, accounts: seq<Id>, now: int): set<(nat, Id)> {
    set i: nat, c | i < |accounts| && c in s.claims && c in Due(s, name, accounts[i], now) :: (i, c)
  }

  /** What a scan reports: how many claims it listed. */
  lemma {:induction false} CountSays(s: State, name: JobName, accounts: seq<Id>, now: int)
    ensures DueCount(s, name, accounts, now) == |AllListed(s, name, accounts, now)|
    decreases |accounts|
  {
    if accounts == [] {
      assert AllListed(s, name, accounts, now) == {};
    } else {
      var n := |accounts| - 1;
      CountSays(s, name, accounts[..n], now);
      DueClaims(s, name, accounts[n], now);
      var due := Due(s, name, accounts[n], now);
      OneMoreListed(s, name, accounts, now);
      PairsCount(n, due);
      hide Due;
      assert AllListed(s, name, accounts[..n], now) !! Pairs(n, due);
    }
  }

  lemma DueClaims(s: State, name: JobName, account: Id, now: int)
    ensures forall c | c in Due(s, name, account, now) :: c in s.claims
  {
  }

  ghost function Pairs(n: nat, due: set<Id>): set<(nat, Id)> { set c | c in due :: (n, c) }

  lemma OneMoreListed(s: State, name: JobName, accounts: seq<Id>, now: int)
    requires accounts != []
    ensures var n := |accounts| - 1;
            AllListed(s, name, accounts, now)
            == AllListed(s, name, accounts[..n], now) + Pairs(n, Due(s, name, accounts[n], now))
  {
    var n := |accounts| - 1;
    DueClaims(s, name, accounts[n], now);
    hide Due;
    forall i: nat | i < n ensures accounts[..n][i] == accounts[i] {}
  }

  lemma {:induction false} PairsCount(n: nat, due: set<Id>)
    ensures |Pairs(n, due)| == |due|
    decreases due
  {
    if due == {} {
      assert Pairs(n, due) == {};
    } else {
      var c :| c in due;
      PairsCount(n, due - {c});
      assert Pairs(n, due) == Pairs(n, due - {c}) + {(n, c)};
    }
  }

  // ---- the handlers --------------------------------------------------------------------------

  /** A write under an id: appended if the claim has no such row, found if that row says the same, refused if not. */
  lemma WriteAnswer(s: State, e: Event)
    requires Invariant(s) && e.claim in s.claims && s.claims[e.claim].account == e.account
    ensures var (audit, r) := Written(s.audit, e);
      && (!Recorded(s, e.claim, e.name) ==> audit == s.audit + [e] && r == Created)
      && forall known | known in s.audit && IsRow(known, e.claim, e.name) ::
           audit == s.audit && r == if known.detail == e.detail then AlreadyThere else Failed(AuditEventConflict)
  {
    KnownMeaning(s.audit, e);
    HasMeaning(s, e.claim, e.name);
    forall known | known in s.audit && IsRow(known, e.claim, e.name)
      ensures Known(s.audit, e) == Some(known)
    {
      var i :| 0 <= i < |s.audit| && s.audit[i] == known;
      assert EventSound(s, s.audit[i]);
      assert SameId(s.audit[i], e);
      OneRow(s, e.claim, e.name, Known(s.audit, e).value, known);
    }
    hide Known;
    hide Invariant;
  }

  /** A delivered follow-up: refused for the first of the stated reasons; otherwise its row is written, found, or in
      conflict with what is recorded. */
  lemma FollowUpAnswer(s: State, account: Id, c: Id, now: int, txStart: int)
    requires Invariant(s)
    ensures var (u, r) := FollowUp(s, account, c, now, txStart);
      && (r != Created ==> u == s)
      && if !(c in s.claims && s.claims[c].account == account) then r == Failed(ClaimNotFound)
         else if s.claims[c].status != Open then r == Failed(ClaimTerminal)
         else if s.claims[c].deadline.None? then r == Failed(NoDeadlineSet)
         else
           var deadline := s.claims[c].deadline.value / 1000;
           if deadline > now then r == Failed(DeadlineNotPassed)
           else
             && (!Recorded(s, c, FollowUpSent) ==>
                   && r == Created
                   && u == s.(audit := s.audit + [Event(account, c, FollowUpSent, txStart, DeadlineDetail(deadline),
                                                        now)]))
             && forall e | e in s.audit && IsRow(e, c, FollowUpSent) ::
                  r == if e.detail == DeadlineDetail(deadline) then AlreadyThere else Failed(AuditEventConflict)
  {
    if OwnOpen(s, account, c) && s.claims[c].deadline.Some? {
      WriteAnswer(s, FollowUpEvent(s, account, c, now, txStart));
      if Recorded(s, c, FollowUpSent) { var e :| e in s.audit && IsRow(e, c, FollowUpSent); }
    }
    hide Invariant;
    hide Written;
  }

  /** A delivered escalation: refused for the first of the stated reasons; otherwise its row is written, or is there. */
  lemma EscalationAnswer(s: State, account: Id, c: Id, now: int, txStart: int)
    requires Invariant(s)
    ensures var (u, r) := Escalate(s, account, c, now, txStart);
      && (r != Created ==> u == s)
      && if !(c in s.claims && s.claims[c].account == account) then r == Failed(ClaimNotFound)
         else if s.claims[c].status != Open then r == Failed(ClaimTerminal)
         else if !Recorded(s, c, FollowUpSent) then r == Failed(NoFollowUpSent)
         else forall f | f in s.audit && IsRow(f, c, FollowUpSent) ::
                var sent := f.recordedAt / 1000;
                if sent + 7 * DAY_MS > now then r == Failed(GracePeriodNotElapsed)
                else if Recorded(s, c, Escalated) then r == AlreadyThere
                else && r == Created
                     && u == s.(audit := s.audit + [Event(account, c, Escalated, txStart, FollowUpDetail(sent), now)])
  {
    if OwnOpen(s, account, c) {
      FollowUpRow(s, account, c);
      forall f | f in s.audit && IsRow(f, c, FollowUpSent)
        ensures var e := Event(account, c, Escalated, txStart, FollowUpDetail(f.recordedAt / 1000), now);
                Written(s.audit, e) == if Recorded(s, c, Escalated) then (s.audit, AlreadyThere)
                                       else (s.audit + [e], Created)
      {
        var e := Event(account, c, Escalated, txStart, FollowUpDetail(f.recordedAt / 1000), now);
        WriteAnswer(s, e);
        if Recorded(s, c, Escalated) {
          var known :| known in s.audit && IsRow(known, c, Escalated);
          EscalationSays(s, c, known, f);
        }
      }
    }
    hide Invariant;
    hide Written;
    hide LatestFollowUp;
  }

  /** An escalation names the time of the follow-up. */
  lemma EscalationSays(s: State, c: Id, e: Event, f: Event)
    requires Invariant(s) && e in s.audit && IsRow(e, c, Escalated) && f in s.audit && IsRow(f, c, FollowUpSent)
    ensures e.detail == FollowUpDetail(f.recordedAt / 1000)
  {
    var i :| 0 <= i < |s.audit| && s.audit[i] == e;
    assert GraceKept(s.audit, i);
    var j :| 0 <= j < i && s.audit[j].claim == c && s.audit[j].name == FollowUpSent
        && e.detail == FollowUpDetail(Ms(s.audit[j].recordedAt));
    OneRow(s, c, FollowUpSent, s.audit[j], f);
  }
}
