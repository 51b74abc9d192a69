/** Storing an extraction all or nothing: `persistContractExtraction` of
    src/modules/contracts/persist-contract-extraction.ts. */
module ExtractionStore {
  import opened ExtractionPaths
  import opened Texts

  /** What identifies a row of `extraction_field` that is not a correction. */
  datatype RowKey = RowKey(source: Text, responseHash: Text, path: Text)

  type Rows = map<RowKey, Extracted>

  datatype Outcome = SchemaError | IdempotencyKeyMismatch | SourceNotFound | SourceHashMismatch | PartialConflict
      | Persisted(fieldCount: nat)

  function KeysFor(source: Text, hash: Text, rows: seq<Row>): set<RowKey> {
    set r | r in rows :: RowKey(source, hash, r.path)
  }

  /** The rows stored for a response of a source. */
  function StoredFor(table: Rows, source: Text, hash: Text): set<RowKey> {
    set k | k in table && k.source == source && k.responseHash == hash
  }

  /** `INSERT ... ON CONFLICT DO NOTHING`: a known key keeps its row. */
  function Inserted(table: Rows, source: Text, hash: Text, rows: seq<Row>): Rows {
    if rows == [] then table
    else
      var last := rows[|rows| - 1];
      var before := Inserted(table, source, hash, rows[..|rows| - 1]);
      var key := RowKey(source, hash, last.path);
      if key in before then before else before[key := last.value]
  }

  lemma {:induction false} InsertedKeys(table: Rows, source: Text, hash: Text, rows: seq<Row>)
    ensures Inserted(table, source, hash, rows).Keys == table.Keys + KeysFor(source, hash, rows)
    ensures forall k | k in table :: Inserted(table, source, hash, rows)[k] == table[k]
    decreases |rows|
  {
    if rows != [] {
      var n := |rows| - 1;
      InsertedKeys(table, source, hash, rows[..n]);
      OneMoreKey(source, hash, rows, n);
      assert rows[..n + 1] == rows;
    }
  }

  lemma OneMoreKey(source: Text, hash: Text, rows: seq<Row>, i: nat)
    requires i < |rows|
    ensures KeysFor(source, hash, rows[..i + 1]) == KeysFor(source, hash, rows[..i])
        + {RowKey(source, hash, rows[i].path)}
  {
    assert rows[..i + 1] == rows[..i] + [rows[i]];
  }

  /** Rows with distinct paths are as many as their keys. */
  lemma {:induction false} KeysAreRows(source: Text, hash: Text, rows: seq<Row>)
    requires DistinctTexts(rows, RowPath())
    ensures |KeysFor(source, hash, rows)| == |rows|
    decreases |rows|
  {
    if rows != [] {
      var n := |rows| - 1;
      KeysAreRows(source, hash, rows[..n]);
      OneMoreKey(source, hash, rows, n);
      assert rows[..n + 1] == rows;
      var last := RowKey(source, hash, rows[n].path);
      forall r | r in rows[..n] ensures RowKey(source, hash, r.path) != last {
        var k :| 0 <= k < n && rows[k] == r;
        assert RowPath()(rows[k]) != RowPath()(rows[n]);
      }
    }
  }

  /** The two counts are right exactly when nothing was stored before, or precisely these rows. */
  lemma CountsTell(stored: set<RowKey>, ours: set<RowKey>)
    requires ours != {}
    ensures (|ours - stored| + |stored| == |ours| && (|ours - stored| == 0 || |ours - stored| == |ours|))
        <==> (stored == {} || stored == ours)
  {
    assert ours == (ours - stored) + (ours * stored);
    assert |ours| == |ours - stored| + |ours * stored|;
    assert stored == (stored - ours) + (ours * stored);
    assert |stored| == |stored - ours| + |ours * stored|;
    if |ours - stored| + |stored| == |ours| { assert stored - ours == {}; }
    if |ours - stored| == |ours| { assert ours * stored == {}; }
  }

  /** What is stored for a response is the whole of one valid extraction with that response hash. */
  ghost predicate WholeResponse(table: Rows, fold: Text -> Text, pathOrder: (Text, Text) -> bool,
                                key: Extraction -> Text, source: Text, hash: Text) {
    || StoredFor(table, source, hash) == {}
    || exists x :: Valid(fold, x) && key(x) == hash
        && StoredFor(table, source, hash) == KeysFor(source, hash, Flattened(pathOrder, x))
  }

  class Store {
    var sources: map<Text, Text>
    var table: Rows

    constructor (documents: map<Text, Text>)
      ensures sources == documents && table == map[]
    {
      sources, table := documents, map[];
    }

    /** One statement: the rows inserted, and those plus the rows that were there before it. */
    method Insert(source: Text, hash: Text, rows: seq<Row>) returns (insertedCount: nat, storedCount: nat)
      modifies `table
      ensures table == Inserted(old(table), source, hash, rows)
      ensures insertedCount == |KeysFor(source, hash, rows) - old(table).Keys|
      ensures storedCount == insertedCount + |StoredFor(old(table), source, hash)|
    {
      hide *;
      var already := |StoredFor(table, source, hash)|;
      ghost var before := table;
      insertedCount := 0;
      NothingInserted(before, source, hash, rows);
      for i := 0 to |rows|
        invariant table == Inserted(before, source, hash, rows[..i])
            && insertedCount == |KeysFor(source, hash, rows[..i]) - before.Keys|
      {
        var key := RowKey(source, hash, rows[i].path);
        InsertStep(before, source, hash, rows, i);
        if key !in table {
          table := table[key := rows[i].value];
          insertedCount := insertedCount + 1;
        }
      }
      assert rows[..|rows|] == rows;
      storedCount := insertedCount + already;
    }

    /** `key` digests an extraction. With the guards passed, a response is refused exactly when some but not all of its
        rows, or others, are stored for it; a refusal changes nothing. */
    method PersistContractExtraction(fold: Text -> Text, pathOrder: (Text, Text) -> bool, key: Extraction -> Text,
                                     source: Text, idempotencyKey: Text, x: Extraction) returns (r: Outcome)
      modifies `table
      ensures r.SchemaError? <==> !Valid(fold, x)
      ensures r.IdempotencyKeyMismatch? <==> Valid(fold, x) && idempotencyKey != key(x)
      ensures r.SourceNotFound? <==> Valid(fold, x) && idempotencyKey == key(x) && source !in sources
      ensures r.SourceHashMismatch?
          <==> Valid(fold, x) && idempotencyKey == key(x) && source in sources && sources[source] != x.sourceSha256
      ensures var rows := Flattened(pathOrder, x);
              var stored := StoredFor(old(table), source, key(x));
              && (r.PartialConflict? ==> rows != [] && stored != {} && stored != KeysFor(source, key(x), rows))
              && (r.Persisted?
                  ==> r.fieldCount == |rows| && (rows == [] || stored == {} || stored == KeysFor(source, key(x), rows)))
              && table == if r.Persisted? then Inserted(old(table), source, key(x), rows) else old(table)
    {
      hide Valid;
      hide Flattened;
      var ok := CheckSchema(fold, x);
      if !ok { return SchemaError; }
      var hash := key(x);
      if idempotencyKey != hash { return IdempotencyKeyMismatch; }
      if source !in sources { return SourceNotFound; }
      if sources[source] != x.sourceSha256 { return SourceHashMismatch; }
      var rows := FlattenExtraction(pathOrder, x);
      ghost var stored, ours := StoredFor(table, source, hash), KeysFor(source, hash, rows);
      if |rows| > 0 {
        FlattenedPathsDistinct(fold, pathOrder, x);
        KeysAreRows(source, hash, rows);
        CountsTell(stored, ours);
        assert ours - table.Keys == ours - stored;
        var before := table;
        var insertedCount, storedCount := Insert(source, hash, rows);
        if storedCount != |rows| || (insertedCount != 0 && insertedCount != |rows|) {
          table := before;
          return PartialConflict;
        }
      }
      r := Persisted(|rows|);
    }
  }

  lemma NothingInserted(table: Rows, source: Text, hash: Text, rows: seq<Row>)
    ensures Inserted(table, source, hash, rows[..0]) == table && KeysFor(source, hash, rows[..0]) - table.Keys == {}
  {
  }

  lemma InsertStep(table: Rows, source: Text, hash: Text, rows: seq<Row>, i: nat)
    requires i < |rows|
    ensures var before, key := Inserted(table, source, hash, rows[..i]), RowKey(source, hash, rows[i].path);
      && Inserted(table, source, hash, rows[..i + 1])
          == (if key in before then before else before[key := rows[i].value])
      && |KeysFor(source, hash, rows[..i + 1]) - table.Keys| == |KeysFor(source, hash, rows[..i]) - table.Keys|
          + if key in before then 0 else 1
  {
    var before, key := Inserted(table, source, hash, rows[..i]), RowKey(source, hash, rows[i].path);
    assert Inserted(table, source, hash, rows[..i + 1]) == if key in before then before
        else before[key := rows[i].value] by {
      assert rows[..i + 1][..i] == rows[..i];
    }
    hide *;
    InsertedKeys(table, source, hash, rows[..i]);
    OneMoreKey(source, hash, rows, i);
    NewKeys(KeysFor(source, hash, rows[..i]), table.Keys, key);
    assert key in before <==> key in before.Keys;
  }

  lemma NewKeys(keys: set<RowKey>, known: set<RowKey>, key: RowKey)
    ensures |keys + {key} - known| == |keys - known| + if key in known + keys then 0 else 1
  {
    if key in known + keys {
      assert keys + {key} - known == keys - known;
    } else {
      assert keys + {key} - known == (keys - known) + {key};
    }
  }

  /** Insertion touches one response; rows already stored stay as they are. */
  lemma InsertedResponses(table: Rows, source: Text, hash: Text, rows: seq<Row>)
    ensures var after := Inserted(table, source, hash, rows);
      && StoredFor(after, source, hash) == StoredFor(table, source, hash) + KeysFor(source, hash, rows)
      && (forall s, h | s != source || h != hash :: StoredFor(after, s, h) == StoredFor(table, s, h))
      && (KeysFor(source, hash, rows) <= table.Keys ==> after == table)
  {
    InsertedKeys(table, source, hash, rows);
  }

  /** What is stored: a key that was there keeps its value, a new one is of this response, and every row has its own
      value under its path. */
  lemma InsertedSays(table: Rows, source: Text, hash: Text, rows: seq<Row>)
    requires DistinctTexts(rows, RowPath())
    ensures var after := Inserted(table, source, hash, rows);
      && (forall k | k in table :: k in after && after[k] == table[k])
      && (forall k | k in after && k !in table :: k.source == source && k.responseHash == hash)
      && forall i | 0 <= i < |rows| ::
           var k := RowKey(source, hash, rows[i].path);
           k in after && (k !in table ==> after[k] == rows[i].value)
  {
    InsertedKeys(table, source, hash, rows);
    hide *;
    hide Inserted;
    KeysOrigin(source, hash, rows);
    forall i | 0 <= i < |rows|
      ensures var k := RowKey(source, hash, rows[i].path);
              var after := Inserted(table, source, hash, rows);
        k in after && (k !in table ==> after[k] == rows[i].value)
    {
      InsertedRow(table, source, hash, rows, i);
    }
  }

  lemma KeysOrigin(source: Text, hash: Text, rows: seq<Row>)
    ensures forall k | k in KeysFor(source, hash, rows) :: k.source == source && k.responseHash == hash
  {
  }

  lemma {:induction false} InsertedRow(table: Rows, source: Text, hash: Text, rows: seq<Row>, i: nat)
    requires DistinctTexts(rows, RowPath()) && i < |rows|
    ensures var k := RowKey(source, hash, rows[i].path);
            var after := Inserted(table, source, hash, rows);
      k in after && (k !in table ==> after[k] == rows[i].value)
    decreases |rows|
  {
    var n := |rows| - 1;
    var k := RowKey(source, hash, rows[i].path);
    InsertedKeys(table, source, hash, rows[..n]);
    PathsApart(rows, n);
    if i < n {
      assert rows[..n][i] == rows[i];
      InsertedRow(table, source, hash, rows[..n], i);
    } else {
      LastKeyIsNew(source, hash, rows);
    }
  }

  lemma PathsApart(rows: seq<Row>, n: nat)
    requires DistinctTexts(rows, RowPath()) && n == |rows| - 1
    ensures DistinctTexts(rows[..n], RowPath())
    ensures forall i | 0 <= i < n :: rows[i].path != rows[n].path
  {
    forall i | 0 <= i < n ensures rows[i].path != rows[n].path {
      assert RowPath()(rows[i]) != RowPath()(rows[n]);
    }
  }

  lemma LastKeyIsNew(source: Text, hash: Text, rows: seq<Row>)
    requires DistinctTexts(rows, RowPath()) && rows != []
    ensures RowKey(source, hash, rows[|rows| - 1].path) !in KeysFor(source, hash, rows[..|rows| - 1])
  {
    PathsApart(rows, |rows| - 1);
  }

  ghost predicate WholeResponses(table: Rows, fold: Text -> Text, pathOrder: (Text, Text) -> bool,
                                 key: Extraction -> Text) {
    forall source, hash :: WholeResponse(table, fold, pathOrder, key, source, hash)
  }

  /** A table filled by this operation alone holds whole responses: persisting a valid extraction then finds nothing or
      all of it, so that no partial conflict arises, the table stays whole, and persisting again changes nothing. */
  lemma PersistsWhole(table: Rows, fold: Text -> Text, pathOrder: (Text, Text) -> bool, key: Extraction -> Text,
                      source: Text, x: Extraction)
    requires WholeResponses(table, fold, pathOrder, key) && Valid(fold, x) && forall y, z :: key(y) == key(z) ==> y == z
    ensures var stored := StoredFor(table, source, key(x));
            var rows := Flattened(pathOrder, x);
            var after := Inserted(table, source, key(x), rows);
      && (stored == {} || stored == KeysFor(source, key(x), rows))
      && WholeResponses(after, fold, pathOrder, key)
      && (stored != {} ==> after == table)
      && Inserted(after, source, key(x), rows) == after
  {
    hide Valid;
    hide Flattened;
    var rows := Flattened(pathOrder, x);
    var after := Inserted(table, source, key(x), rows);
    assert WholeResponse(table, fold, pathOrder, key, source, key(x));
    InsertedResponses(table, source, key(x), rows);
    InsertedResponses(after, source, key(x), rows);
    InsertedKeys(table, source, key(x), rows);
    hide Inserted;
    forall s, h ensures WholeResponse(after, fold, pathOrder, key, s, h) {
      assert WholeResponse(table, fold, pathOrder, key, s, h);
    }
  }
}
