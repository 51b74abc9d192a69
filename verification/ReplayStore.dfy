/** The manifests and replay events of src/modules/evaluator/persist.ts and
    src/modules/audit-ledger/replay-audit-run.ts, updated in place. */
module ReplayStore {
  import opened CanonicalJson
  import opened FactViews
  import opened Replay
  import opened Sums
  import opened Texts

  /** A `replay.executed` event is identified by the client, the run and the digest of the result. */
  datatype EventId = EventId(clientId: Text, auditRunId: Text, resultHash: Text)

  datatype EventDetail = EventDetail(manifestHash: Text, originalResultHash: Text, resultHash: Text)

  class Store {
    var tables: Tables
    var manifests: map<Text, ManifestRow>
    var events: map<EventId, EventDetail>

    constructor (t: Tables)
      ensures tables == t && manifests == map[] && events == map[] && Valid()
    {
      tables, manifests, events := t, map[], map[];
    }

    /** Every event tells what the stored manifest of its run tells. */
    predicate Valid()
      reads this
    {
      forall id | id in events ::
        id.auditRunId in manifests
            && events[id] == EventDetail(manifests[id.auditRunId].contentHash, id.resultHash, id.resultHash)
    }

    function Row(auditRunId: Text): Option<ManifestRow>
      reads this
    {
      if auditRunId in manifests then Some(manifests[auditRunId]) else None
    }

    /** The manifest of a new run, written once. */
    method PersistManifest<A>(p: Platform<A>, run: RunInput)
      requires Valid() && run.auditRunId !in manifests
      modifies `manifests
      ensures Valid()
      ensures manifests == old(manifests)[run.auditRunId :=
                ManifestRow(ManifestHash(p.sha, Recorded(tables, run)), Some(ReadBack(p.jsonb, Recorded(tables, run))))]
    {
      var m := Recorded(tables, run);
      manifests := manifests[run.auditRunId := ManifestRow(ManifestHash(p.sha, m), Some(ReadBack(p.jsonb, m)))];
    }

    method VerifyPins(m: Manifest) returns (ok: bool)
      ensures ok <==> PinsHold(tables, m)
    {
      for i := 0 to |m.sources|
        invariant forall pin | pin in m.sources[..i] :: SourceHolds(tables, pin)
      {
        var source := m.sources[i];
        assert source in m.sources;
        if source.id !in tables.sources || tables.sources[source.id] != source.sha256 { return false; }
        assert m.sources[..i + 1] == m.sources[..i] + [source];
      }
      assert m.sources[..|m.sources|] == m.sources;
      for i := 0 to |m.rules|
        invariant forall pin | pin in m.rules[..i] :: RuleHolds(tables, pin)
      {
        var rule := m.rules[i];
        assert rule in m.rules;
        if rule.id !in tables.rules || (rule.contentHash.Some? && tables.rules[rule.id] != rule.contentHash.value) {
          return false;
        }
        assert m.rules[..i + 1] == m.rules[..i] + [rule];
      }
      assert m.rules[..|m.rules|] == m.rules;
      for i := 0 to |m.contracts|
        invariant forall pin | pin in m.contracts[..i] :: ContractHolds(tables, pin)
      {
        var contract := m.contracts[i];
        assert contract in m.contracts;
        assert m.contracts[..i + 1] == m.contracts[..i] + [contract];
        if contract.contentHash.None? { continue; }
        if contract.id !in tables.contracts || tables.contracts[contract.id] != contract.contentHash { return false; }
      }
      assert m.contracts[..|m.contracts|] == m.contracts;
      ok := true;
    }

    /** An event whose id is known must say the same again. */
    method WriteEvent(id: EventId, detail: EventDetail) returns (ok: bool)
      modifies `events
      ensures ok <==> id !in old(events) || old(events)[id] == detail
      ensures events == if ok then old(events)[id := detail] else old(events)
    {
      if id in events { return events[id] == detail; }
      events := events[id := detail];
      ok := true;
    }

    /** Evaluates the stored inputs under the rubric their contracts select and compares bytes with the stored result.
        */
    static method EvaluateAgain<A(!new)>(p: Platform<A>, m: Manifest)
      returns (outcome: Outcome, originalResultHash: Text)
      ensures outcome == Compared(p, m) && (outcome.ByteIdentical? ==> originalResultHash == outcome.resultHash)
    {
      var rubric := if |m.contracts| > 0 then p.contractRubric else p.standardRubric;
      hide ResultOf;
      hide Canonical;
      var result := Evaluate(p, m.invoice, rubric, m.resolvedInputs);
      var resultBytes, originalBytes := Canonical(result), Canonical(m.result);
      originalResultHash := p.sha(originalBytes);
      if resultBytes != originalBytes { return IntegrityFailed, originalResultHash; }
      outcome := ByteIdentical(result, p.sha(resultBytes));
    }

    /** Replay answers as `Replayed` says and never meets a conflicting event; it records a success once, whatever the
        number of replays, and changes nothing otherwise. */
    method ReplayAuditRun<A(!new)>(p: Platform<A>, auditRunId: Text) returns (outcome: Outcome)
      requires Valid()
      modifies `events
      ensures Valid() && outcome == Replayed(p, tables, Row(auditRunId), auditRunId)
      ensures !outcome.ByteIdentical? ==> events == old(events)
      ensures outcome.ByteIdentical? ==>
                var row := manifests[auditRunId];
                events == old(events)[EventId(row.manifest.value.clientId, auditRunId, outcome.resultHash) :=
                            EventDetail(row.contentHash, outcome.resultHash, outcome.resultHash)]
    {
      hide Compared;
      hide PinsHold;
      hide ManifestHash;
      if auditRunId !in manifests { return NotFound; }
      var row := manifests[auditRunId];
      if row.manifest.None? { return IntegrityFailed; }
      var m := row.manifest.value;
      if m.auditRunId != auditRunId || ManifestHash(p.sha, m) != row.contentHash { return IntegrityFailed; }
      var pinned := VerifyPins(m);
      if !pinned { return IntegrityFailed; }
      if m.engineVersion != p.engineVersion { return VersionUnavailable; }
      if m.snapshotId.Some? { return VersionUnavailable; }
      var originalResultHash;
      outcome, originalResultHash := EvaluateAgain(p, m);
      if outcome.ByteIdentical? {
        var id := EventId(m.clientId, auditRunId, outcome.resultHash);
        var ok := WriteEvent(id, EventDetail(row.contentHash, originalResultHash, outcome.resultHash));
        if !ok { return EventConflict; }
      }
    }
  }
}
