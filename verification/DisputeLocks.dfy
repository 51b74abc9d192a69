/** Dispute creations and finding actions, interleaved. */
module DisputeLocks {
  import opened Ledger
  import opened Sums

  // Statement by statement, as committed reads and row locks let them:
  // src/modules/disputes/create-dispute-from-findings.ts, lines 48-103, and
  // src/modules/findings/update-finding-status.ts, lines 34-53.

  /** A history row; `was` is the status the row really had, `from` the one the statement's snapshot saw. */
  datatype Event = Event(finding: Id, from: FindingStatus, to: FindingStatus, was: FindingStatus)

  /** A transaction: locking its rows in id order, ready to write, about to update one finding, or over. */
  datatype Tx =
    | Locking(ids: seq<Id>, got: nat, seen: map<Id, FindingStatus>)
    | Ready(ids: seq<Id>)
    | Acting(finding: Id, to: FindingStatus, from: FindingStatus)
    | Over

  /** `claimable` holds the findings that are not undercharges; `lines` the findings of the dispute lines. */
  datatype State = State(status: map<Id, FindingStatus>, claimable: set<Id>, txs: map<Id, Tx>, lines: seq<Id>,
                         history: seq<Event>)

  predicate Ascends(ids: seq<Id>) { forall i, j | 0 <= i < j < |ids| :: ids[i] < ids[j] }

  /** The row lock of `f` is with transaction `t`. */
  predicate Holds(s: State, t: Id, f: Id) {
    && t in s.txs
    && match s.txs[t]
       case Locking(ids, got, _) => got <= |ids| && f in ids[..got]
       case Ready(ids) => f in ids
       case _ => false
  }

  predicate Free(s: State, t: Id, f: Id) { forall u | u in s.txs && u != t :: !Holds(s, u, f) }

  function Chosen(ids: seq<Id>, claimable: set<Id>): (r: seq<Id>)
    ensures forall f :: f in r <==> f in ids && f in claimable
  {
    if ids == [] then []
    else
      var n := |ids| - 1;
      assert forall f :: f in ids <==> f == ids[n] || f in ids[..n];
      if ids[n] in claimable then Chosen(ids[..n], claimable) + [ids[n]] else Chosen(ids[..n], claimable)
  }

  function StatusOf(status: map<Id, FindingStatus>, f: Id): FindingStatus { if f in status then status[f] else Open }

  /** The history rows of a commit: each update reads its row in a snapshot taken while the row is locked. */
  function Moved(status: map<Id, FindingStatus>, chosen: seq<Id>): seq<Event> {
    seq(|chosen|, i requires 0 <= i < |chosen| =>
      Event(chosen[i], StatusOf(status, chosen[i]), QueuedForDispute, StatusOf(status, chosen[i])))
  }

  datatype Op =
    | NewFinding(f: Id)
    | Begin(t: Id, ids: seq<Id>)
    | Lock(t: Id)
    | Validate(t: Id, otherChecksPass: bool)
    | Commit(t: Id)
    | BeginAction(t: Id, f: Id, to: FindingStatus)
    | Act(t: Id)
    | Abort(t: Id)

  predicate Enabled(s: State, op: Op) {
    match op
    case NewFinding(f) => f !in s.status
    case Begin(t, ids) => t !in s.txs && Ascends(ids) && forall f | f in ids :: f in s.status
    case Lock(t) => t in s.txs && s.txs[t].Locking? && s.txs[t].got < |s.txs[t].ids|
        && Free(s, t, s.txs[t].ids[s.txs[t].got])
                    && s.txs[t].ids[s.txs[t].got] in s.status
    case Validate(t, _) => t in s.txs && s.txs[t].Locking? && s.txs[t].got == |s.txs[t].ids|
    case Commit(t) => t in s.txs && s.txs[t].Ready?
    case BeginAction(t, f, to) => t !in s.txs && f in s.status
    case Act(t) => t in s.txs && s.txs[t].Acting? && s.txs[t].finding in s.status && Free(s, t, s.txs[t].finding)
    case Abort(t) => t in s.txs
  }

  /** The rows read under lock pass: some are claimable, and all of those were `accepted`. */
  predicate Valid(s: State, tx: Tx)
    requires tx.Locking?
  {
    && Chosen(tx.ids, s.claimable) != []
    && forall f | f in tx.ids && f in s.claimable :: f in tx.seen && tx.seen[f] == Accepted
  }

  function After(s: State, op: Op): State
    requires Enabled(s, op)
  {
    match op
    case NewFinding(f) => s.(status := s.status[f := Open])
    case Begin(t, ids) => s.(txs := s.txs[t := Locking(ids, 0, map[])])
    case Lock(t) =>
      var tx := s.txs[t];
      var f := tx.ids[tx.got];
      s.(txs := s.txs[t := Locking(tx.ids, tx.got + 1, tx.seen[f := s.status[f]])])
    case Validate(t, pass) => s.(txs := s.txs[t := if pass && Valid(s, s.txs[t]) then Ready(s.txs[t].ids) else Over])
    case Commit(t) =>
      var chosen := Chosen(s.txs[t].ids, s.claimable);
      s.(status := map f | f in s.status :: if f in chosen then QueuedForDispute else s.status[f],
         lines := s.lines + chosen, history := s.history + Moved(s.status, chosen), txs := s.txs[t := Over])
    case BeginAction(t, f, to) => s.(txs := s.txs[t := Acting(f, to, s.status[f])])
    case Act(t) =>
      var tx := s.txs[t];
      s.(status := s.status[tx.finding := tx.to],
         history := s.history + [Event(tx.finding, tx.from, tx.to, s.status[tx.finding])], txs := s.txs[t := Over])
    case Abort(t) => s.(txs := s.txs[t := Over])
  }

  predicate Initial(s: State) { s.status == map[] && s.txs == map[] && s.lines == [] && s.history == [] }

  ghost predicate Run(states: seq<State>, ops: seq<Op>) {
    && |states| == |ops| + 1 && Initial(states[0])
    && forall i | 0 <= i < |ops| :: Enabled(states[i], ops[i]) && states[i + 1] == After(states[i], ops[i])
  }

  // ---- locks ---------------------------------------------------------------------------------

  predicate TxSound(s: State, tx: Tx) {
    match tx
    case Locking(ids, got, seen) =>
      && Ascends(ids) && got <= |ids| && (forall f | f in ids :: f in s.status)
      && forall f | f in ids[..got] :: f in seen && seen[f] == s.status[f]
    case Ready(ids) => Ascends(ids) && forall f | f in ids ::
        f in s.status && (f in s.claimable ==> s.status[f] == Accepted)
    case Acting(f, _, _) => f in s.status
    case Over => true
  }

  /** What was read under lock stays true, and no two transactions hold one row. */
  ghost predicate LocksSound(s: State) {
    && (forall t | t in s.txs :: TxSound(s, s.txs[t]))
    && forall t, u, f | Holds(s, t, f) && Holds(s, u, f) :: t == u
  }

  lemma LockKeepsLocks(s: State, t: Id)
    requires LocksSound(s) && Enabled(s, Lock(t))
    ensures LocksSound(After(s, Lock(t)))
  {
    var u := After(s, Lock(t));
    var tx := s.txs[t];
    var f := tx.ids[tx.got];
    assert TxSound(s, tx);
    assert tx.ids[..tx.got + 1] == tx.ids[..tx.got] + [f];
    forall v | v in u.txs ensures TxSound(u, u.txs[v]) {
      if v != t { assert TxSound(s, s.txs[v]); }
    }
    forall v, g | Holds(u, v, g) ensures Holds(s, v, g) || (v == t && g == f) {
    }
  }

  lemma CommitKeepsLocks(s: State, t: Id)
    requires LocksSound(s) && Enabled(s, Commit(t))
    ensures LocksSound(After(s, Commit(t)))
  {
    var u := After(s, Commit(t));
    forall v, g | Holds(u, v, g) ensures Holds(s, v, g) && v != t {}
    forall v | v in u.txs ensures TxSound(u, u.txs[v]) {
      if v != t {
        assert TxSound(s, s.txs[v]);
        forall g | Holds(s, v, g) ensures u.status[g] == s.status[g] {
          assert Holds(s, t, g) ==> v == t;
        }
        assert s.txs[v].Locking? ==> forall g | g in s.txs[v].ids[..s.txs[v].got] :: Holds(s, v, g);
        assert s.txs[v].Ready? ==> forall g | g in s.txs[v].ids :: Holds(s, v, g);
      }
    }
  }

  lemma ActKeepsLocks(s: State, t: Id)
    requires LocksSound(s) && Enabled(s, Act(t))
    ensures LocksSound(After(s, Act(t)))
  {
    var u := After(s, Act(t));
    var f := s.txs[t].finding;
    forall v, g | Holds(u, v, g) ensures Holds(s, v, g) && g != f {
      assert v != t && Holds(s, v, g);
    }
    forall v | v in u.txs ensures TxSound(u, u.txs[v]) {
      if v != t {
        assert TxSound(s, s.txs[v]);
        assert !Holds(s, v, f);
      }
    }
  }

  lemma ValidateKeepsLocks(s: State, t: Id, pass: bool)
    requires LocksSound(s) && Enabled(s, Validate(t, pass))
    ensures LocksSound(After(s, Validate(t, pass)))
  {
    var u := After(s, Validate(t, pass));
    var tx := s.txs[t];
    assert TxSound(s, tx);
    assert tx.ids[..tx.got] == tx.ids;
    forall v, g | Holds(u, v, g) ensures Holds(s, v, g) {}
    forall v | v in u.txs ensures TxSound(u, u.txs[v]) {
      if v != t { assert TxSound(s, s.txs[v]); }
    }
  }

  lemma StepKeepsLocks(s: State, op: Op)
    requires LocksSound(s) && Enabled(s, op)
    ensures LocksSound(After(s, op))
  {
    match op
    case Lock(t) => LockKeepsLocks(s, t);
    case Commit(t) => CommitKeepsLocks(s, t);
    case Act(t) => ActKeepsLocks(s, t);
    case Validate(t, pass) => ValidateKeepsLocks(s, t, pass);
    case _ =>
      var u := After(s, op);
      forall v, g | Holds(u, v, g) ensures Holds(s, v, g) {}
      forall v | v in u.txs ensures TxSound(u, u.txs[v]) {
        if v in s.txs { assert TxSound(s, s.txs[v]); }
      }
  }

  // ---- no cycle of waits ---------------------------------------------------------------------

  predicate WantsRow(s: State, t: Id) {
    t in s.txs && ((s.txs[t].Locking? && s.txs[t].got < |s.txs[t].ids|) || s.txs[t].Acting?)
  }

  /** The row a transaction needs next. */
  function Wanted(s: State, t: Id): Id
    requires WantsRow(s, t)
  {
    if s.txs[t].Acting? then s.txs[t].finding else s.txs[t].ids[s.txs[t].got]
  }

  predicate Waits(s: State, t: Id, u: Id) { WantsRow(s, t) && t != u && Holds(s, u, Wanted(s, t)) }

  lemma WaitsUpwards(s: State, t: Id, u: Id)
    requires LocksSound(s) && Waits(s, t, u) && WantsRow(s, u)
    ensures Wanted(s, t) < Wanted(s, u)
  {
    assert TxSound(s, s.txs[u]);
    var ids, got := s.txs[u].ids, s.txs[u].got;
    var i :| 0 <= i < |ids[..got]| && ids[..got][i] == Wanted(s, t);
    assert ids[i] < ids[got];
  }

  /** Each of the transactions waits for the next one. */
  predicate WaitChain(s: State, ts: seq<Id>) { forall i | 0 <= i < |ts| - 1 :: Waits(s, ts[i], ts[i + 1]) }

  lemma {:induction false} ChainClimbs(s: State, ts: seq<Id>)
    requires LocksSound(s) && WaitChain(s, ts) && |ts| >= 2 && WantsRow(s, ts[|ts| - 1])
    ensures WantsRow(s, ts[0]) && Wanted(s, ts[0]) < Wanted(s, ts[|ts| - 1])
    decreases |ts|
  {
    var n := |ts| - 1;
    assert Waits(s, ts[n - 1], ts[n]);
    WaitsUpwards(s, ts[n - 1], ts[n]);
    if n > 1 {
      assert forall i | 0 <= i < n - 1 :: Waits(s, ts[i], ts[i + 1]);
      ChainClimbs(s, ts[..n]);
    } else {
      assert ts[n - 1] == ts[0];
    }
  }

  lemma {:induction false} RunKeepsLocks(states: seq<State>, ops: seq<Op>, i: nat)
    requires Run(states, ops) && i < |states|
    ensures LocksSound(states[i])
    decreases i
  {
    if i > 0 {
      RunKeepsLocks(states, ops, i - 1);
      StepKeepsLocks(states[i - 1], ops[i - 1]);
    }
  }

  /** Locking in ascending id order: no reachable state has a cycle of waits. */
  lemma NoCycleOfWaits(states: seq<State>, ops: seq<Op>, i: nat, ts: seq<Id>)
    requires Run(states, ops) && i < |states| && |ts| >= 2 && ts[0] == ts[|ts| - 1]
    ensures !WaitChain(states[i], ts)
  {
    RunKeepsLocks(states, ops, i);
    if WaitChain(states[i], ts) {
      assert Waits(states[i], ts[0], ts[1]);
      ChainClimbs(states[i], ts);
    }
  }

  /** The next step of the transaction's own program. */
  predicate CanGoOn(s: State, t: Id) {
    t in s.txs && (Enabled(s, Lock(t)) || Enabled(s, Validate(t, true)) || Enabled(s, Commit(t)) || Enabled(s, Act(t)))
  }

  lemma {:induction false} SomeoneGoesOn(s: State, t: Id, above: set<Id>)
    requires LocksSound(s) && t in s.txs && !s.txs[t].Over?
    requires forall f | f in s.status && WantsRow(s, t) && Wanted(s, t) < f :: f in above
    ensures exists u :: CanGoOn(s, u)
    decreases above
  {
    assert TxSound(s, s.txs[t]);
    if WantsRow(s, t) && !Free(s, t, Wanted(s, t)) {
      var u :| u in s.txs && u != t && Holds(s, u, Wanted(s, t));
      assert Waits(s, t, u);
      assert TxSound(s, s.txs[u]);
      if WantsRow(s, u) {
        WaitsUpwards(s, t, u);
        assert Wanted(s, u) in above;
        SomeoneGoesOn(s, u, above - {Wanted(s, u)});
      } else {
        assert CanGoOn(s, u);
      }
    } else {
      assert CanGoOn(s, t);
    }
  }

  /** As long as a transaction is not over, some transaction can take its next step. */
  lemma NoDeadlock(states: seq<State>, ops: seq<Op>, i: nat, t: Id)
    requires Run(states, ops) && i < |states| && t in states[i].txs && !states[i].txs[t].Over?
    ensures exists u :: CanGoOn(states[i], u)
  {
    RunKeepsLocks(states, ops, i);
    SomeoneGoesOn(states[i], t, states[i].status.Keys);
  }

  // ---- lines and moves into accepted ---------------------------------------------------------

  /** How often a finding moved into `accepted` from another status. */
  function Moves(history: seq<Event>, f: Id): nat {
    if history == [] then 0
    else
      var e := history[|history| - 1];
      Moves(history[..|history| - 1], f) + if e.finding == f && e.to == Accepted && e.was != Accepted then 1 else 0
  }

  function IsAccepted(s: State, f: Id): nat { if f in s.status && s.status[f] == Accepted then 1 else 0 }

  ghost predicate LinesCovered(s: State) { forall f :: multiset(s.lines)[f] + IsAccepted(s, f) <= Moves(s.history, f) }

  lemma {:induction false} ChosenOnce(ids: seq<Id>, claimable: set<Id>, f: Id)
    requires Ascends(ids)
    ensures multiset(Chosen(ids, claimable))[f] == if f in ids && f in claimable then 1 else 0
    decreases |ids|
  {
    if ids != [] {
      var n := |ids| - 1;
      ChosenOnce(ids[..n], claimable, f);
      assert ids == ids[..n] + [ids[n]];
      assert ids[n] !in ids[..n];
    }
  }

  lemma {:induction false} MovedIsQuiet(history: seq<Event>, status: map<Id, FindingStatus>, chosen: seq<Id>, f: Id)
    ensures Moves(history + Moved(status, chosen), f) == Moves(history, f)
    decreases |chosen|
  {
    var all := history + Moved(status, chosen);
    if chosen == [] {
      assert all == history;
    } else {
      var n := |chosen| - 1;
      MovedIsQuiet(history, status, chosen[..n], f);
      assert all[..|all| - 1] == history + Moved(status, chosen[..n]);
    }
  }

  lemma StepKeepsLinesCovered(s: State, op: Op)
    requires LocksSound(s) && LinesCovered(s) && Enabled(s, op)
    ensures LinesCovered(After(s, op))
  {
    var u := After(s, op);
    forall f ensures multiset(u.lines)[f] + IsAccepted(u, f) <= Moves(u.history, f) {
      assert multiset(s.lines)[f] + IsAccepted(s, f) <= Moves(s.history, f);
      if op.Commit? {
        CommitKeepsCovered(s, op, f);
      } else if op.Act? {
        assert u.history[..|u.history| - 1] == s.history;
      }
    }
  }

  lemma CommitKeepsCovered(s: State, op: Op, f: Id)
    requires LocksSound(s) && op.Commit? && Enabled(s, op)
    requires multiset(s.lines)[f] + IsAccepted(s, f) <= Moves(s.history, f)
    ensures var u := After(s, op); multiset(u.lines)[f] + IsAccepted(u, f) <= Moves(u.history, f)
  {
    var tx := s.txs[op.t];
    assert TxSound(s, tx);
    ChosenOnce(tx.ids, s.claimable, f);
    MovedIsQuiet(s.history, s.status, Chosen(tx.ids, s.claimable), f);
    hide Moves;
    hide Moved;
  }

  /** In every reachable state, the dispute lines on a finding never outnumber its moves into `accepted`;
      while it is accepted there is one move more. */
  lemma {:induction false} LinesNeverOutnumberAcceptances(states: seq<State>, ops: seq<Op>, i: nat, f: Id)
    requires Run(states, ops) && i < |states|
    ensures multiset(states[i].lines)[f] + IsAccepted(states[i], f) <= Moves(states[i].history, f)
  {
    RunKeepsLinesCovered(states, ops, i);
    assert LinesCovered(states[i]);
  }

  lemma {:induction false} RunKeepsLinesCovered(states: seq<State>, ops: seq<Op>, i: nat)
    requires Run(states, ops) && i < |states|
    ensures LinesCovered(states[i])
    decreases i
  {
    if i > 0 {
      RunKeepsLinesCovered(states, ops, i - 1);
      RunKeepsLocks(states, ops, i - 1);
      StepKeepsLinesCovered(states[i - 1], ops[i - 1]);
    }
  }

  // ---- what the history may say --------------------------------------------------------------

  /** The rows a commit writes tell the truth: each finding was `accepted`, and is recorded so. */
  lemma CommitTellsTheStatus(states: seq<State>, ops: seq<Op>, i: nat)
    requires Run(states, ops) && i < |ops| && ops[i].Commit?
    ensures var before, after := states[i], states[i + 1];
      && before.history <= after.history
      && forall e | e in after.history[|before.history|..] ::
           e.finding in before.status && e.from == e.was == before.status[e.finding] == Accepted
               && e.to == QueuedForDispute
  {
    RunKeepsLocks(states, ops, i);
    var s := states[i];
    var tx := s.txs[ops[i].t];
    assert TxSound(s, tx);
    var chosen := Chosen(tx.ids, s.claimable);
    assert states[i + 1].history == s.history + Moved(s.status, chosen);
    assert states[i + 1].history[|s.history|..] == Moved(s.status, chosen);
    forall e | e in Moved(s.status, chosen)
      ensures e.finding in s.status && e.from == e.was == s.status[e.finding] == Accepted && e.to == QueuedForDispute
    {
      var k :| 0 <= k < |chosen| && Moved(s.status, chosen)[k] == e;
      assert chosen[k] in chosen;
    }
  }

  lemma {:induction false} ChosenAscends(ids: seq<Id>, claimable: set<Id>)
    requires Ascends(ids)
    ensures Ascends(Chosen(ids, claimable))
    decreases |ids|
  {
    if ids != [] {
      var n := |ids| - 1;
      var rest := Chosen(ids[..n], claimable);
      ChosenAscends(ids[..n], claimable);
      forall i | 0 <= i < |rest| ensures rest[i] < ids[n] {
        assert rest[i] in ids[..n];
        var j :| 0 <= j < n && ids[j] == rest[i];
      }
    }
  }

  /** In the order given, each finding gets one line and one history row and is queued; nothing else happens to
      findings, and the transaction is over. */
  predicate CommitWritten(before: State, after: State, t: Id, order: seq<Id>) {
    && after.status.Keys == before.status.Keys
    && (forall f | f in before.status :: after.status[f] == if f in order then QueuedForDispute else before.status[f])
    && after.lines == before.lines + order && HistoryWritten(before.history, after.history, order)
    && after.claimable == before.claimable && after.txs == before.txs[t := Over]
  }

  predicate HistoryWritten(before: seq<Event>, after: seq<Event>, order: seq<Id>) {
    && before <= after && |after| == |before| + |order|
    && forall k | 0 <= k < |order| :: after[|before| + k] == Event(order[k], Accepted, QueuedForDispute, Accepted)
  }

  lemma MovedRows(status: map<Id, FindingStatus>, history: seq<Event>, order: seq<Id>)
    requires forall f | f in order :: f in status && status[f] == Accepted
    ensures HistoryWritten(history, history + Moved(status, order), order)
  {
    forall k | 0 <= k < |order|
      ensures Moved(status, order)[k] == Event(order[k], Accepted, QueuedForDispute, Accepted)
    {
      assert order[k] in order;
    }
  }

  lemma ReadyFindings(s: State, t: Id)
    requires LocksSound(s) && t in s.txs && s.txs[t].Ready?
    ensures var order := Chosen(s.txs[t].ids, s.claimable);
            Ascends(order) && forall f | f in order :: f in s.status && s.status[f] == Accepted
  {
    assert TxSound(s, s.txs[t]);
    ChosenAscends(s.txs[t].ids, s.claimable);
  }

  /** A commit, exactly: every claimable finding the transaction locked was `accepted` until now, and in id order each
      is written as it is by a creation that happens all at once. */
  lemma CommitWrites(states: seq<State>, ops: seq<Op>, i: nat) returns (order: seq<Id>)
    requires Run(states, ops) && i < |ops| && ops[i].Commit?
    ensures var t, before := ops[i].t, states[i];
      && t in before.txs && before.txs[t].Ready? && Ascends(order)
      && (forall f :: f in order <==> f in before.txs[t].ids && f in before.claimable)
      && (forall f | f in order :: f in before.status && before.status[f] == Accepted)
      && CommitWritten(before, states[i + 1], t, order)
  {
    RunKeepsLocks(states, ops, i);
    var s, t := states[i], ops[i].t;
    assert Enabled(s, ops[i]) && states[i + 1] == After(s, ops[i]);
    order := Chosen(s.txs[t].ids, s.claimable);
    hide Run;
    ReadyFindings(s, t);
    MovedRows(s.status, s.history, order);
    hide LocksSound;
    hide HistoryWritten;
    hide Moved;
    hide Ascends;
  }

  lemma {:induction false} OverStays(states: seq<State>, ops: seq<Op>, t: Id, i: nat, j: nat)
    requires Run(states, ops) && i <= j < |states| && t in states[i].txs && states[i].txs[t].Over?
    ensures t in states[j].txs && states[j].txs[t].Over?
    decreases j
  {
    if i < j {
      OverStays(states, ops, t, i, j - 1);
      StepKeepsOver(states[j - 1], ops[j - 1], t);
    }
  }

  lemma StepKeepsOver(s: State, op: Op, t: Id)
    requires Enabled(s, op) && t in s.txs && s.txs[t].Over?
    ensures t in After(s, op).txs && After(s, op).txs[t].Over?
  {
  }

  lemma ActingStaysOrEnds(s: State, op: Op, t: Id)
    requires Enabled(s, op) && t in s.txs && s.txs[t].Acting?
    ensures t in After(s, op).txs && (After(s, op).txs[t] == s.txs[t] || After(s, op).txs[t].Over?)
  {
  }

  /** An action begun waits unchanged until it acts. */
  lemma {:induction false} ActingSince(states: seq<State>, ops: seq<Op>, b: nat, a: nat, j: nat)
    requires Run(states, ops) && b < j <= a < |ops| && ops[b].BeginAction? && ops[a] == Act(ops[b].t)
    ensures ops[b].t in states[j].txs && ops[b].f in states[b].status
    ensures states[j].txs[ops[b].t] == Acting(ops[b].f, ops[b].to, states[b].status[ops[b].f])
    decreases j
  {
    var t := ops[b].t;
    assert Enabled(states[b], ops[b]) && states[b + 1] == After(states[b], ops[b]) && Enabled(states[a], ops[a]);
    if b + 1 < j {
      ActingSince(states, ops, b, a, j - 1);
      ActingStaysOrEnds(states[j - 1], ops[j - 1], t);
      if states[j].txs[t].Over? {
        OverStays(states, ops, t, j, a);
        assert false;
      }
    }
  }

  /** Every action that acts was begun, once. */
  lemma {:induction false} ActWasBegun(states: seq<State>, ops: seq<Op>, t: Id, i: nat) returns (b: nat)
    requires Run(states, ops) && i < |states| && t in states[i].txs && states[i].txs[t].Acting?
    ensures b < i && ops[b].BeginAction? && ops[b].t == t
    decreases i
  {
    var s, op := states[i - 1], ops[i - 1];
    if t in s.txs {
      assert s.txs[t].Acting? by { ActingCameFrom(s, op, t); }
      b := ActWasBegun(states, ops, t, i - 1);
    } else {
      b := i - 1;
    }
  }

  lemma ActingCameFrom(s: State, op: Op, t: Id)
    requires Enabled(s, op) && t in s.txs && t in After(s, op).txs && After(s, op).txs[t].Acting?
    ensures s.txs[t].Acting?
  {
  }

  /** What a step writes to the status of a finding, if it writes it. */
  function Writes(s: State, op: Op, f: Id): Option<FindingStatus>
    requires Enabled(s, op)
  {
    match op
    case Commit(t) => if f in Chosen(s.txs[t].ids, s.claimable) then Some(QueuedForDispute) else None
    case Act(t) => if s.txs[t].finding == f then Some(s.txs[t].to) else None
    case _ => None
  }

  /** The last status written to a finding by the steps from `i` to before `j`. */
  function LastWritten(states: seq<State>, ops: seq<Op>, f: Id, i: nat, j: nat): Option<FindingStatus>
    requires Run(states, ops) && i <= j <= |ops|
    decreases j
  {
    if i == j then None
    else
      var w := Writes(states[j - 1], ops[j - 1], f);
      if w.Some? then w else LastWritten(states, ops, f, i, j - 1)
  }

  lemma {:induction false} StatusIsLastWritten(states: seq<State>, ops: seq<Op>, f: Id, i: nat, j: nat)
    requires Run(states, ops) && i <= j <= |ops| && f in states[i].status
    ensures f in states[j].status
    ensures var w := LastWritten(states, ops, f, i, j); states[j].status[f] == if w.Some? then w.value
        else states[i].status[f]
    decreases j
  {
    if i < j {
      StatusIsLastWritten(states, ops, f, i, j - 1);
      StepWrites(states[j - 1], ops[j - 1], f);
    }
  }

  lemma StepWrites(s: State, op: Op, f: Id)
    requires Enabled(s, op) && f in s.status
    ensures f in After(s, op).status
    ensures var w := Writes(s, op, f); After(s, op).status[f] == if w.Some? then w.value else s.status[f]
  {
  }

  /** What an action records: as `from` the status when its statement began, while the status it replaced is the one
      when it wrote. The two agree exactly when nothing was written to the finding in between, or when what was written
      last is what was there at first. */
  lemma FromStatusIsTrue(states: seq<State>, ops: seq<Op>, a: nat) returns (b: nat)
    requires Run(states, ops) && a < |ops| && ops[a].Act?
    ensures b < a && ops[b].BeginAction? && ops[b].t == ops[a].t && ops[b].f in states[b].status
        && ops[b].f in states[a].status
    ensures var f := ops[b].f; var e := Event(f, states[b].status[f], ops[b].to, states[a].status[f]);
      && states[a + 1].history == states[a].history + [e]
      && (e.from == e.was
         <==> var w := LastWritten(states, ops, f, b + 1, a); w.None? || w == Some(states[b].status[f]))
  {
    assert Enabled(states[a], ops[a]) && states[a + 1] == After(states[a], ops[a]);
    b := ActWasBegun(states, ops, ops[a].t, a);
    ActingSince(states, ops, b, a, a);
    assert Enabled(states[b], ops[b]) && states[b + 1] == After(states[b], ops[b]);
    StatusIsLastWritten(states, ops, ops[b].f, b + 1, a);
  }

  /** In particular no write to the finding while the action waited for its row keeps the record true. */
  lemma {:induction false} NothingWritten(states: seq<State>, ops: seq<Op>, f: Id, i: nat, j: nat)
    requires Run(states, ops) && i <= j <= |ops|
    ensures LastWritten(states, ops, f, i, j) == None <==> forall k | i <= k < j :: Writes(states[k], ops[k], f) == None
    decreases j
  {
    if i < j { NothingWritten(states, ops, f, i, j - 1); }
  }

  /** Finding 1 accepted, a creation holding its row, and an action begun before the creation commits. */
  const MEANWHILE := State(map[1 := Accepted], {1},
                           map[0 := Over, 1 := Locking([1], 1, map[1 := Accepted]), 2 := Acting(1, Waived, Accepted)],
                               [],
                           [Event(1, Open, Accepted, Open)])

  const MEANWHILE_OPS := [NewFinding(1), BeginAction(0, 1, Accepted), Act(0), Begin(1, [1]), Lock(1),
                          BeginAction(2, 1, Waived)]

  lemma ReachMeanwhile() returns (states: seq<State>)
    ensures Run(states, MEANWHILE_OPS) && states[6] == MEANWHILE
  {
    var accepted := Event(1, Open, Accepted, Open);
    var s0 := State(map[], {1}, map[], [], []);
    var s1 := State(map[1 := Open], {1}, map[], [], []);
    var s2 := State(map[1 := Open], {1}, map[0 := Acting(1, Accepted, Open)], [], []);
    var s3 := State(map[1 := Accepted], {1}, map[0 := Over], [], [accepted]);
    var s4 := State(map[1 := Accepted], {1}, map[0 := Over, 1 := Locking([1], 0, map[])], [], [accepted]);
    var s5 := State(map[1 := Accepted], {1}, map[0 := Over, 1 := Locking([1], 1, map[1 := Accepted])], [], [accepted]);
    states := [s0, s1, s2, s3, s4, s5, MEANWHILE];
    assert After(s0, NewFinding(1)) == s1;
    assert After(s1, BeginAction(0, 1, Accepted)) == s2;
    assert After(s2, Act(0)) == s3;
    assert After(s3, Begin(1, [1])) == s4;
    assert After(s4, Lock(1)) == s5;
    assert After(s5, BeginAction(2, 1, Waived)) == MEANWHILE;
    hide After;
    hide Enabled;
  }

  lemma OneStepMore(states: seq<State>, ops: seq<Op>, op: Op)
    requires Run(states, ops) && Enabled(states[|ops|], op)
    ensures Run(states + [After(states[|ops|], op)], ops + [op])
  {
    hide After;
    hide Enabled;
  }

  /** Such a write does happen: an action that waited behind a dispute creation records a status the finding no longer
      had. */
  lemma StaleFromStatus() returns (states: seq<State>, ops: seq<Op>)
    ensures Run(states, ops)
    ensures exists e :: e in states[|ops|].history && e.from != e.was
  {
    states := ReachMeanwhile();
    ops := MEANWHILE_OPS;
    assert [1][..0] == [];
    OneStepMore(states, ops, Validate(1, true));
    var ready := After(MEANWHILE, Validate(1, true));
    assert ready.txs[1] == Ready([1]);
    states, ops := states + [ready], ops + [Validate(1, true)];
    OneStepMore(states, ops, Commit(1));
    var created := After(ready, Commit(1));
    assert created.status == map[1 := QueuedForDispute];
    states, ops := states + [created], ops + [Commit(1)];
    OneStepMore(states, ops, Act(2));
    var last := After(created, Act(2));
    assert last.history[|last.history| - 1] == Event(1, Accepted, Waived, QueuedForDispute);
    hide Run;
    states, ops := states + [last], ops + [Act(2)];
    assert Event(1, Accepted, Waived, QueuedForDispute) in last.history;
  }
}
