/** Export jobs, their adapters and acknowledgements. */
module Exports {
  import opened Sums

  // src/jobs/export-record-handler.ts over src/modules/exports/export-adapter.ts, stand-in-export-adapter.ts and
  // record-export-acknowledgement.ts.

  type Id = nat

  datatype ExportResult =
    | Acknowledged(reference: string, version: string)
    | ExportFailed(reason: string, version: string)
    | NotConfigured(systemCode: string)

  /** A job; `simulateFailure` is the one field of its payload the stand-in adapter looks at. */
  datatype Job = Job(client: Id, systemCode: string, dedupeKey: string, claim: Option<Id>, decision: Option<Id>,
                     simulateFailure: bool)

  const STAND_IN_VERSION := "stand-in-v1"

  /** One adapter: what it answered per key, and the keys of the external effects it produced, in order, since its
      process started: `#seen` lives in memory. */
  datatype Adapter = Adapter(seen: map<string, ExportResult>, effects: seq<string>)

  datatype AckRow = AckRow(client: Id, claim: Option<Id>, decision: Option<Id>, systemCode: string, dedupeKey: string,
                           result: ExportResult)

  /** Registered adapters by normalized code, the acknowledgement rows, and the origin rows of each tenant. */
  datatype State = State(adapters: map<string, Adapter>, rows: seq<AckRow>, claims: set<(Id, Id)>,
                         decisions: set<(Id, Id)>)

  datatype Error = MissingOrigin | ClaimNotFound | DecisionNotFound | ExportRecordFailed(reason: string)

  datatype Outcome = Completed | Failed(error: Error)

  // ---- the adapter ---------------------------------------------------------------------------

  function Reference(systemCode: string, dedupeKey: string): string { "standin-" + systemCode + "-" + dedupeKey }

  function Answer(systemCode: string, dedupeKey: string, simulateFailure: bool): ExportResult {
    if simulateFailure then ExportFailed("SIMULATED_FAILURE", STAND_IN_VERSION)
    else Acknowledged(Reference(systemCode, dedupeKey), STAND_IN_VERSION)
  }

  function AdapterExport(a: Adapter, systemCode: string, dedupeKey: string, simulateFailure: bool): (Adapter,
      ExportResult) {
    if dedupeKey in a.seen then (a, a.seen[dedupeKey])
    else
      var r := Answer(systemCode, dedupeKey, simulateFailure);
      (Adapter(a.seen[dedupeKey := r], a.effects + [dedupeKey]), r)
  }

  class StandInExportAdapter {
    const systemCode: string
    var seen: map<string, ExportResult>
    var effectCount: nat
    ghost var effects: seq<string>

    ghost predicate Valid()
      reads this
    {
      effectCount == |effects|
    }

    ghost function View(): Adapter
      reads this
    {
      Adapter(seen, effects)
    }

    constructor (systemCode: string)
      ensures Valid() && View() == Adapter(map[], []) && this.systemCode == systemCode
    {
      this.systemCode := systemCode;
      seen, effectCount, effects := map[], 0, [];
    }

    method Export(systemCode: string, dedupeKey: string, simulateFailure: bool) returns (r: ExportResult)
      requires Valid()
      modifies this
      ensures Valid() && (View(), r) == AdapterExport(old(View()), systemCode, dedupeKey, simulateFailure)
    {
      if dedupeKey in seen { return seen[dedupeKey]; }
      effectCount := effectCount + 1;
      effects := effects + [dedupeKey];
      r := if simulateFailure then ExportFailed("SIMULATED_FAILURE", STAND_IN_VERSION)
           else Acknowledged("standin-" + systemCode + "-" + dedupeKey, STAND_IN_VERSION);
      seen := seen[dedupeKey := r];
    }
  }

  /** Registration stops at the first code that is taken after normalizing. */
  method Register(normalize: string -> string, adapters: seq<StandInExportAdapter>)
    returns (registered: map<string, StandInExportAdapter>, duplicate: Option<string>)
    ensures duplicate == None ==>
              && (forall i | 0 <= i < |adapters| ::
                   normalize(adapters[i].systemCode) in registered
                       && registered[normalize(adapters[i].systemCode)] == adapters[i])
              && (forall i, j | 0 <= i < j < |adapters| ::
                  normalize(adapters[i].systemCode) != normalize(adapters[j].systemCode))
              && forall c | c in registered :: exists i :: 0 <= i < |adapters| && normalize(adapters[i].systemCode) == c
    ensures duplicate.Some? ==> exists i, j ::
              && 0 <= i < j < |adapters|
              && normalize(adapters[i].systemCode) == normalize(adapters[j].systemCode) == duplicate.value
  {
    registered := map[];
    for n := 0 to |adapters|
      invariant forall i | 0 <= i < n ::
                  normalize(adapters[i].systemCode) in registered
                      && registered[normalize(adapters[i].systemCode)] == adapters[i]
      invariant forall i, j | 0 <= i < j < n :: normalize(adapters[i].systemCode) != normalize(adapters[j].systemCode)
      invariant forall c | c in registered :: exists i :: 0 <= i < n && normalize(adapters[i].systemCode) == c
    {
      var code := normalize(adapters[n].systemCode);
      if code in registered { return registered, Some(code); }
      registered := registered[code := adapters[n]];
    }
    duplicate := None;
  }

  // ---- recording -----------------------------------------------------------------------------

  predicate IsAck(r: AckRow, client: Id, systemCode: string, dedupeKey: string) {
    r.client == client && r.systemCode == systemCode && r.dedupeKey == dedupeKey && r.result.Acknowledged?
  }

  predicate HasAck(rows: seq<AckRow>, client: Id, systemCode: string, dedupeKey: string) {
    exists i :: 0 <= i < |rows| && IsAck(rows[i], client, systemCode, dedupeKey)
  }

  function OriginError(s: State, job: Job): Option<Error> {
    if job.claim == None && job.decision == None then Some(MissingOrigin)
    else if job.claim.Some? && (job.client, job.claim.value) !in s.claims then Some(ClaimNotFound)
    else if job.decision.Some? && (job.client, job.decision.value) !in s.decisions then Some(DecisionNotFound)
    else None
  }

  /** `recordExportAcknowledgement`: one ACKNOWLEDGED row per client, system and key; a FAILED row every time. */
  function Recorded(normalize: string -> string, s: State, job: Job, result: ExportResult): (State, Option<Error>) {
    if OriginError(s, job) != None then (s, OriginError(s, job))
    else
      var code := normalize(job.systemCode);
      if result.Acknowledged? && HasAck(s.rows, job.client, code, job.dedupeKey) then (s, None)
      else (s.(rows := s.rows + [AckRow(job.client, job.claim, job.decision, code, job.dedupeKey, result)]), None)
  }

  /** The adapter call of a job: nothing but an answer if no adapter is registered. */
  function Called(normalize: string -> string, s: State, job: Job): (State, ExportResult) {
    var code := normalize(job.systemCode);
    if code !in s.adapters then (s, NotConfigured(code))
    else
      var (a, r) := AdapterExport(s.adapters[code], code, job.dedupeKey, job.simulateFailure);
      (s.(adapters := s.adapters[code := a]), r)
  }

  /** `handleExportRecordJob`, on its own: a FAILED result is recorded, then raised. */
  function Handled(normalize: string -> string, s: State, job: Job): (State, Outcome) {
    var (called, result) := Called(normalize, s, job);
    if result.NotConfigured? then (called, Completed)
    else
      var (recorded, error) := Recorded(normalize, called, job, result);
      if error != None then (recorded, Failed(error.value))
      else if result.ExportFailed? then (recorded, Failed(ExportRecordFailed(result.reason)))
      else (recorded, Completed)
  }

  /** The tables and the registry of the handler. */
  class ExportStore {
    const adapters: map<string, StandInExportAdapter>
    var rows: seq<AckRow>
    var claims: set<(Id, Id)>
    var decisions: set<(Id, Id)>

    constructor (adapters: map<string, StandInExportAdapter>, claims: set<(Id, Id)>, decisions: set<(Id, Id)>)
      ensures this.adapters == adapters && rows == [] && this.claims == claims && this.decisions == decisions
    {
      this.adapters, rows, this.claims, this.decisions := adapters, [], claims, decisions;
    }

    ghost predicate Valid()
      reads this, adapters.Values
    {
      && (forall c | c in adapters :: adapters[c].Valid())
      && forall c, d | c in adapters && d in adapters && c != d :: adapters[c] != adapters[d]
    }

    ghost function View(): State
      reads this, adapters.Values
    {
      State(map c | c in adapters :: adapters[c].View(), rows, claims, decisions)
    }

    method CallAdapter(normalize: string -> string, job: Job) returns (r: ExportResult)
      requires Valid()
      modifies adapters.Values
      ensures Valid() && (View(), r) == Called(normalize, old(View()), job)
    {
      var code := normalize(job.systemCode);
      if code !in adapters { return NotConfigured(code); }
      ghost var before := View();
      r := adapters[code].Export(code, job.dedupeKey, job.simulateFailure);
      assert View().adapters == before.adapters[code := adapters[code].View()];
    }

    method Record(normalize: string -> string, job: Job, result: ExportResult) returns (error: Option<Error>)
      modifies `rows
      ensures (View(), error) == Recorded(normalize, old(View()), job, result)
    {
      if job.claim == None && job.decision == None { return Some(MissingOrigin); }
      if job.claim.Some? && (job.client, job.claim.value) !in claims { return Some(ClaimNotFound); }
      if job.decision.Some? && (job.client, job.decision.value) !in decisions { return Some(DecisionNotFound); }
      var code := normalize(job.systemCode);
      ghost var before := View();
      if !(result.Acknowledged? && HasAck(rows, job.client, code, job.dedupeKey)) {
        rows := rows + [AckRow(job.client, job.claim, job.decision, code, job.dedupeKey, result)];
      }
      assert View().adapters == before.adapters;
      error := None;
    }

    method HandleExportRecordJob(normalize: string -> string, job: Job) returns (r: Outcome)
      requires Valid()
      modifies `rows, adapters.Values
      ensures Valid() && (View(), r) == Handled(normalize, old(View()), job)
    {
      hide Called;
      hide Recorded;
      var result := CallAdapter(normalize, job);
      if result.NotConfigured? { return Completed; }
      var error := Record(normalize, job, result);
      if error.Some? { return Failed(error.value); }
      if result.ExportFailed? { return Failed(ExportRecordFailed(result.reason)); }
      r := Completed;
    }
  }

  // ---- every schedule ------------------------------------------------------------------------

  /** One delivery through the worker, which runs the handler in a transaction: an error rolls the rows back, and so
      does a crash before the commit; the adapter keeps what it did. */
  function Worked(normalize: string -> string, s: State, job: Job, crashed: bool): State {
    if !crashed && Handled(normalize, s, job).1 == Completed then Handled(normalize, s, job).0
        else Called(normalize, s, job).0
  }

  /** Deliveries of any jobs in any order, again and again; a restart starts the adapters afresh. */
  datatype Op = Deliver(job: Job, crashed: bool) | Restart | NewClaim(client: Id, claim: Id)
      | NewDecision(client: Id, decision: Id)

  function Restarted(s: State): State {
    s.(adapters := map c | c in s.adapters :: Adapter(map[], []))
  }

  function After(normalize: string -> string, s: State, op: Op): State {
    match op
    case Deliver(job, crashed) => Worked(normalize, s, job, crashed)
    case Restart => Restarted(s)
    case NewClaim(client, claim) => s.(claims := s.claims + {(client, claim)})
    case NewDecision(client, decision) => s.(decisions := s.decisions + {(client, decision)})
  }

  ghost predicate Run(normalize: string -> string, states: seq<State>, ops: seq<Op>) {
    && |states| == |ops| + 1 && states[0].rows == []
    && (forall c | c in states[0].adapters :: states[0].adapters[c] == Adapter(map[], []))
    && forall i | 0 <= i < |ops| :: states[i + 1] == After(normalize, states[i], ops[i])
  }

  predicate Once(keys: seq<string>) { forall i, j | 0 <= i < j < |keys| :: keys[i] != keys[j] }

  /** One effect per key it has answered for, and acknowledgements name system and key. */
  ghost predicate AdapterSound(code: string, a: Adapter) {
    && Once(a.effects) && (forall k :: k in a.effects <==> k in a.seen)
    && forall k | k in a.seen :: a.seen[k] == Answer(code, k, true) || a.seen[k] == Answer(code, k, false)
  }

  /** A row records what an adapter answers for its system and key. */
  predicate RowSound(s: State, r: AckRow) {
    && r.systemCode in s.adapters
    && (r.result == Answer(r.systemCode, r.dedupeKey, true) || r.result == Answer(r.systemCode, r.dedupeKey, false))
  }

  predicate HasEffect(s: State, code: string, key: string) {
    code in s.adapters && key in s.adapters[code].effects
  }

  predicate AllAcknowledged(rows: seq<AckRow>) { forall i | 0 <= i < |rows| :: rows[i].result.Acknowledged? }

  predicate OneAck(rows: seq<AckRow>) {
    forall i, j | 0 <= i < j < |rows| && rows[j].result.Acknowledged? ::
        !IsAck(rows[i], rows[j].client, rows[j].systemCode, rows[j].dedupeKey)
  }

  ghost predicate Invariant(s: State) {
    && (forall c | c in s.adapters :: AdapterSound(c, s.adapters[c]))
    && (forall i | 0 <= i < |s.rows| :: RowSound(s, s.rows[i]))
    && OneAck(s.rows)
  }

  lemma ExportKeepsAdapter(a: Adapter, code: string, key: string, fails: bool)
    requires AdapterSound(code, a)
    ensures var (b, r) := AdapterExport(a, code, key, fails);
      && AdapterSound(code, b) && a.effects <= b.effects && key in b.seen && b.seen[key] == r && !r.NotConfigured?
      && forall k | k in a.seen :: k in b.seen && b.seen[k] == a.seen[k]
  {
  }

  lemma CallKeeps(normalize: string -> string, s: State, job: Job)
    requires Invariant(s)
    ensures var (u, r) := Called(normalize, s, job);
      && Invariant(u) && u == s.(adapters := u.adapters)
      && (r.NotConfigured? <==> normalize(job.systemCode) !in s.adapters) && (r.NotConfigured? ==> u == s)
      && (!r.NotConfigured? ==>
            && normalize(job.systemCode) in u.adapters
            && job.dedupeKey in u.adapters[normalize(job.systemCode)].seen
            && u.adapters[normalize(job.systemCode)].seen[job.dedupeKey] == r)
  {
    var code := normalize(job.systemCode);
    if code in s.adapters {
      ExportKeepsAdapter(s.adapters[code], code, job.dedupeKey, job.simulateFailure);
      var u := Called(normalize, s, job).0;
      hide AdapterSound;
      forall i | 0 <= i < |u.rows| ensures RowSound(u, u.rows[i]) { assert RowSound(s, s.rows[i]); }
    }
  }

  lemma RecordKeeps(normalize: string -> string, s: State, job: Job, r: ExportResult)
    requires Invariant(s) && normalize(job.systemCode) in s.adapters
        && job.dedupeKey in s.adapters[normalize(job.systemCode)].seen
    requires s.adapters[normalize(job.systemCode)].seen[job.dedupeKey] == r
    ensures Invariant(Recorded(normalize, s, job, r).0)
  {
    var u := Recorded(normalize, s, job, r).0;
    var code := normalize(job.systemCode);
    assert AdapterSound(code, s.adapters[code]);
    assert r == Answer(code, job.dedupeKey, true) || r == Answer(code, job.dedupeKey, false);
    hide AdapterSound;
    forall i | 0 <= i < |u.rows| ensures RowSound(u, u.rows[i]) { assert i < |s.rows| ==> RowSound(s, s.rows[i]); }
    forall i, j | 0 <= i < j < |u.rows| && u.rows[j].result.Acknowledged?
      ensures !IsAck(u.rows[i], u.rows[j].client, u.rows[j].systemCode, u.rows[j].dedupeKey)
    {
      assert u.rows[i] == s.rows[i];
    }
  }

  lemma StepKeeps(normalize: string -> string, s: State, op: Op)
    requires Invariant(s)
    ensures Invariant(After(normalize, s, op))
  {
    match op
    case Deliver(job, crashed) =>
      CallKeeps(normalize, s, job);
      var (u, r) := Called(normalize, s, job);
      hide Called;
      if !r.NotConfigured? { RecordKeeps(normalize, u, job, r); }
      hide Recorded;
      hide Invariant;
    case _ =>
      var u := After(normalize, s, op);
      hide AdapterSound;
      forall i | 0 <= i < |u.rows| ensures RowSound(u, u.rows[i]) { assert RowSound(s, s.rows[i]); }
  }

  lemma {:induction false} RunKeeps(normalize: string -> string, states: seq<State>, ops: seq<Op>, i: nat)
    requires Run(normalize, states, ops) && i < |states|
    ensures Invariant(states[i])
    decreases i
  {
    if i > 0 {
      RunKeeps(normalize, states, ops, i - 1);
      var j := i - 1;
      assert states[j + 1] == After(normalize, states[j], ops[j]);
      StepKeeps(normalize, states[j], ops[j]);
    }
  }

  /** A step keeps the rows there are, and a row it adds has its effect in the adapter of that moment. */
  lemma RowsGrow(normalize: string -> string, s: State, op: Op)
    requires Invariant(s)
    ensures s.rows <= After(normalize, s, op).rows
    ensures forall m | |s.rows| <= m < |After(normalize, s, op).rows| ::
              var r := After(normalize, s, op).rows[m]; HasEffect(After(normalize, s, op), r.systemCode, r.dedupeKey)
  {
    if op.Deliver? {
      CallKeeps(normalize, s, op.job);
      var u := Called(normalize, s, op.job).0;
      hide Called;
      if normalize(op.job.systemCode) in u.adapters {
        assert Invariant(u);
        assert AdapterSound(normalize(op.job.systemCode), u.adapters[normalize(op.job.systemCode)]);
      }
      hide Invariant;
    }
  }

  /** The state at which the effect behind a row is there. */
  lemma {:induction false} EffectBehind(normalize: string -> string, states: seq<State>, ops: seq<Op>, i: nat,
                                        m: nat) returns (j: nat)
    requires Run(normalize, states, ops) && i < |states| && m < |states[i].rows|
    ensures j <= i && HasEffect(states[j], states[i].rows[m].systemCode, states[i].rows[m].dedupeKey)
    decreases i
  {
    assert i > 0;
    assert states[i - 1 + 1] == After(normalize, states[i - 1], ops[i - 1]);
    RunKeeps(normalize, states, ops, i - 1);
    RowsGrow(normalize, states[i - 1], ops[i - 1]);
    if m < |states[i - 1].rows| { j := EffectBehind(normalize, states, ops, i - 1, m); } else { j := i; }
  }

  /** Under every schedule of deliveries, redeliveries, crashes and restarts: an adapter produces one effect per key it
      answered for since its process started; of the ACKNOWLEDGED rows no two share client, system and key, restarts
      or not; and each carries the reference of an effect that was produced. */
  lemma ExportsOnce(normalize: string -> string, states: seq<State>, ops: seq<Op>, i: nat)
    requires Run(normalize, states, ops) && i < |states|
    ensures forall c | c in states[i].adapters ::
              Once(states[i].adapters[c].effects) &&
                  forall k :: k in states[i].adapters[c].effects <==> k in states[i].adapters[c].seen
    ensures forall m, n | 0 <= m < |states[i].rows| && 0 <= n < |states[i].rows|
        && states[i].rows[n].result.Acknowledged?
                          && IsAck(states[i].rows[m], states[i].rows[n].client, states[i].rows[n].systemCode,
                                   states[i].rows[n].dedupeKey) :: m == n
    ensures forall m | 0 <= m < |states[i].rows| && states[i].rows[m].result.Acknowledged? ::
              var r := states[i].rows[m];
              && r.result.reference == Reference(r.systemCode, r.dedupeKey)
              && exists j :: 0 <= j <= i && HasEffect(states[j], r.systemCode, r.dedupeKey)
  {
    RunKeeps(normalize, states, ops, i);
    var s := states[i];
    forall m, n | 0 <= m < |s.rows| && 0 <= n < |s.rows| && s.rows[n].result.Acknowledged?
                  && IsAck(s.rows[m], s.rows[n].client, s.rows[n].systemCode, s.rows[n].dedupeKey)
      ensures m == n
    {
      if n < m { assert IsAck(s.rows[n], s.rows[m].client, s.rows[m].systemCode, s.rows[m].dedupeKey); }
    }
    forall m | 0 <= m < |s.rows| && s.rows[m].result.Acknowledged?
      ensures s.rows[m].result.reference == Reference(s.rows[m].systemCode, s.rows[m].dedupeKey)
      ensures exists j :: 0 <= j <= i && HasEffect(states[j], s.rows[m].systemCode, s.rows[m].dedupeKey)
    {
      assert RowSound(s, s.rows[m]);
      var j := EffectBehind(normalize, states, ops, i, m);
    }
  }

  /** What a restart costs: the next delivery of any key with an adapter produces a first effect again, whatever was
      exported before, and a job acknowledged before still leaves the rows as they are. */
  lemma RestartRepeatsTheEffect(normalize: string -> string, s: State, job: Job)
    requires Invariant(s) && normalize(job.systemCode) in s.adapters
    ensures var u := Handled(normalize, Restarted(s), job).0;
            && u.adapters[normalize(job.systemCode)].effects == [job.dedupeKey]
            && (HasAck(s.rows, job.client, normalize(job.systemCode), job.dedupeKey) && !job.simulateFailure ==>
                  u.rows == s.rows)
  {
    hide Invariant;
  }

  /** Raising a recorded FAILED attempt undoes the recording: through the worker no FAILED row ever stays. */
  lemma {:induction false} NoFailedRowStays(normalize: string -> string, states: seq<State>, ops: seq<Op>, i: nat)
    requires Run(normalize, states, ops) && i < |states|
    ensures AllAcknowledged(states[i].rows)
    decreases i
  {
    if i > 0 {
      var j := i - 1;
      NoFailedRowStays(normalize, states, ops, j);
      RunKeeps(normalize, states, ops, j);
      assert states[j + 1] == After(normalize, states[j], ops[j]);
      if ops[j].Deliver? { CallKeeps(normalize, states[j], ops[j].job); }
      hide Called;
      hide Invariant;
    }
  }

  /** Without an adapter for the normalized code a job completes and changes nothing; with one it leaves an effect. */
  lemma NotConfiguredChangesNothing(normalize: string -> string, s: State, job: Job)
    requires Invariant(s)
    ensures normalize(job.systemCode) !in s.adapters ==> Handled(normalize, s, job) == (s, Completed)
    ensures normalize(job.systemCode) in s.adapters ==>
              job.dedupeKey in Handled(normalize, s, job).0.adapters[normalize(job.systemCode)].effects
  {
    CallKeeps(normalize, s, job);
    if normalize(job.systemCode) in s.adapters {
      ExportKeepsAdapter(s.adapters[normalize(job.systemCode)], normalize(job.systemCode), job.dedupeKey,
                         job.simulateFailure);
    }
  }

  /** For the handler by itself, redelivery of a completed job changes nothing; of a failed one it adds one more FAILED
      row, and never anything else: the adapter has made up its mind for the key. */
  lemma Redelivery(normalize: string -> string, s: State, job: Job)
    requires Invariant(s)
    ensures var (u, first) := Handled(normalize, s, job);
            var (v, second) := Handled(normalize, u, job);
            && second == first
            && v == if first == Completed || !first.error.ExportRecordFailed? then u
                    else u.(rows := u.rows
                        + [AckRow(job.client, job.claim, job.decision, normalize(job.systemCode), job.dedupeKey,
                                                     ExportFailed(first.error.reason, STAND_IN_VERSION))])
  {
    var code := normalize(job.systemCode);
    CallKeeps(normalize, s, job);
    if code in s.adapters {
      ExportKeepsAdapter(s.adapters[code], code, job.dedupeKey, job.simulateFailure);
      var (called, r) := Called(normalize, s, job);
      var u := Handled(normalize, s, job).0;
      assert AdapterSound(code, called.adapters[code]);
      assert u.adapters == called.adapters;
      assert called.adapters[code := called.adapters[code]] == called.adapters;
      assert Called(normalize, u, job) == (u, r);
      hide AdapterSound;
      hide AdapterExport;
      if OriginError(called, job) == None && r.Acknowledged? && !HasAck(called.rows, job.client, code, job.dedupeKey) {
        assert IsAck(u.rows[|called.rows|], job.client, code, job.dedupeKey);
      }
    }
  }

  /** The adapter knows keys, not tenants: two clients that use one key on one system share a single effect. */
  lemma OneEffectForTwoClients(normalize: string -> string, s: State, job: Job, other: Job)
    requires Invariant(s) && other.systemCode == job.systemCode && other.dedupeKey == job.dedupeKey
    requires normalize(job.systemCode) in s.adapters
    ensures Handled(normalize, Handled(normalize, s, job).0, other).0.adapters == Handled(normalize, s, job).0.adapters
  {
    var code := normalize(job.systemCode);
    CallKeeps(normalize, s, job);
    ExportKeepsAdapter(s.adapters[code], code, job.dedupeKey, job.simulateFailure);
    var u := Handled(normalize, s, job).0;
    assert u.adapters == Called(normalize, s, job).0.adapters;
    assert u.adapters[code := u.adapters[code]] == u.adapters;
    hide AdapterSound;
  }

  // ---- one delivery, exactly -----------------------------------------------------------------

  /** What an adapter answers for a key: as before, or as the payload says the first time. */
  predicate Answered(a: Adapter, code: string, job: Job, result: ExportResult) {
    if job.dedupeKey in a.seen then result == a.seen[job.dedupeKey]
    else if job.simulateFailure then result == ExportFailed("SIMULATED_FAILURE", "stand-in-v1")
    else result == Acknowledged("standin-" + code + "-" + job.dedupeKey, "stand-in-v1")
  }

  /** The origin of a job is named, and every row it names is the tenant's. */
  predicate OriginKnown(s: State, job: Job) {
    && (job.claim.Some? || job.decision.Some?)
    && (job.claim.Some? ==> (job.client, job.claim.value) in s.claims)
    && (job.decision.Some? ==> (job.client, job.decision.value) in s.decisions)
  }

  predicate AcknowledgedBefore(s: State, job: Job, code: string) {
    exists r :: r in s.rows && r.client == job.client && r.systemCode == code && r.dedupeKey == job.dedupeKey
                && r.result.Acknowledged?
  }

  /** The handler, exactly. Without an adapter nothing happens. With one the adapter answers, with an effect only the
      first time; then an unknown origin fails, an acknowledgement is recorded unless the tenant has one for the key,
      and a failed result is recorded and raised. */
  lemma HandledAnswer(normalize: string -> string, s: State, job: Job)
    requires Invariant(s)
    ensures var (u, r) := Handled(normalize, s, job); var code := normalize(job.systemCode);
      if code !in s.adapters then u == s && r == Completed
      else
        && u == s.(adapters := u.adapters, rows := u.rows) && code in u.adapters
        && u.adapters == s.adapters[code := u.adapters[code]]
        && u.adapters[code].effects
           == s.adapters[code].effects + (if job.dedupeKey in s.adapters[code].seen then [] else [job.dedupeKey])
        && exists result | Answered(s.adapters[code], code, job, result) ::
             && u.adapters[code].seen == s.adapters[code].seen[job.dedupeKey := result]
             && var row := AckRow(job.client, job.claim, job.decision, code, job.dedupeKey, result);
                if !OriginKnown(s, job) then u.rows == s.rows && r.Failed? && !r.error.ExportRecordFailed?
                else if result.Acknowledged?
                then r == Completed && u.rows == s.rows + (if AcknowledgedBefore(s, job, code) then [] else [row])
                else result.ExportFailed? && r == Failed(ExportRecordFailed(result.reason))
                     && u.rows == s.rows + [row]
  {
    var code := normalize(job.systemCode);
    CallKeeps(normalize, s, job);
    if code in s.adapters {
      var a := s.adapters[code];
      var (called, result) := Called(normalize, s, job);
      assert Answered(a, code, job, result);
      assert a.effects + [] == a.effects;
      assert job.dedupeKey in a.seen ==> a.seen[job.dedupeKey := a.seen[job.dedupeKey]] == a.seen;
      assert called.adapters[code].seen == a.seen[job.dedupeKey := result];
      HasAckMeaning(s, job, code);
      assert called.rows == s.rows && s.rows + [] == s.rows;
      assert OriginError(called, job) == OriginError(s, job);
      assert OriginError(s, job).None? <==> OriginKnown(s, job);
      assert !result.NotConfigured?;
      hide Called;
      hide Invariant;
      hide Answered;
      hide HasAck;
      hide AcknowledgedBefore;
      hide AdapterExport;
      assert HasAck(called.rows, job.client, code, job.dedupeKey) <==> AcknowledgedBefore(s, job, code);
    }
  }

  lemma HasAckMeaning(s: State, job: Job, code: string)
    ensures HasAck(s.rows, job.client, code, job.dedupeKey) <==> AcknowledgedBefore(s, job, code)
  {
    if AcknowledgedBefore(s, job, code) {
      var r :| r in s.rows && r.client == job.client && r.systemCode == code && r.dedupeKey == job.dedupeKey
               && r.result.Acknowledged?;
      var i :| 0 <= i < |s.rows| && s.rows[i] == r;
      assert IsAck(s.rows[i], job.client, code, job.dedupeKey);
    }
  }

  /** Which origin error a job with an adapter raises. */
  lemma OriginRefusals(normalize: string -> string, s: State, job: Job)
    requires Invariant(s) && normalize(job.systemCode) in s.adapters && !OriginKnown(s, job)
    ensures Handled(normalize, s, job).1
         == Failed(if job.claim.None? && job.decision.None? then MissingOrigin
                   else if job.claim.Some? && (job.client, job.claim.value) !in s.claims then ClaimNotFound
                   else DecisionNotFound)
  {
    CallKeeps(normalize, s, job);
    hide Called;
    hide Invariant;
    hide HasAck;
  }

  /** Through the worker a delivery leaves its row exactly if it completed and the worker did not crash; the adapter
      keeps what it did either way. */
  lemma WorkedAnswer(normalize: string -> string, s: State, job: Job, crashed: bool)
    requires Invariant(s)
    ensures var (u, r) := Handled(normalize, s, job); var w := After(normalize, s, Deliver(job, crashed));
            w == s.(adapters := u.adapters, rows := if !crashed && r == Completed then u.rows else s.rows)
  {
    CallKeeps(normalize, s, job);
    hide Called;
    hide Invariant;
    hide HasAck;
  }
}
