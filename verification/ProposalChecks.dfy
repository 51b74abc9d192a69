/** What generation writes and what persistence re-checks. */
module ProposalChecks {
  import opened CanonicalJson
  import opened ProposedCriteria
  import opened Sorting
  import opened StableJson
  import opened Texts

  // src/modules/contracts/proposed-criteria.ts, lines 132-136 and 170-176, against
  // src/modules/contracts/persist-contract-rule-proposals.ts, lines 50-54 and 97-103.

  /** A JavaScript Set of strings: its elements in insertion order. */
  class TextSet {
    var elements: seq<Text>

    constructor ()
      ensures elements == []
    {
      elements := [];
    }

    method Add(t: Text)
      modifies this
      ensures elements == Added(old(elements), t)
    {
      if t !in elements { elements := elements + [t]; }
    }
  }

  function Added(ts: seq<Text>, t: Text): seq<Text> {
    if t in ts then ts else ts + [t]
  }

  predicate NoDuplicates(ts: seq<Text>) {
    forall i, j | 0 <= i < j < |ts| :: ts[i] != ts[j]
  }

  // ---- the typed traversal -------------------------------------------------------------------

  function Collected(ast: Ast, keys: seq<Text>): seq<Text>
    decreases ast, 0
  {
    match ast
    case Lit(_) => keys
    case Fact(key) => Added(keys, key)
    case Require(key, body) => Collected(body, Added(keys, key))
    case Compare(_, left, right) => Collected(right, Collected(left, keys))
    case Logic(_, args) => CollectedAll(ast, args, keys)
  }

  function CollectedAll(ghost whole: Ast, args: seq<Ast>, keys: seq<Text>): seq<Text>
    requires forall i | 0 <= i < |args| :: args[i] < whole
    decreases whole, 0, |args|
  {
    if args == [] then keys
    else
      var n := |args| - 1;
      Collected(args[n], CollectedAll(whole, args[..n], keys))
  }

  method CollectFactKeys(ast: Ast, keys: TextSet)
    modifies keys
    ensures keys.elements == Collected(ast, old(keys.elements))
    decreases ast
  {
    match ast
    case Lit(_) =>
    case Fact(key) => keys.Add(key);
    case Require(key, body) =>
      keys.Add(key);
      CollectFactKeys(body, keys);
    case Compare(_, left, right) =>
      CollectFactKeys(left, keys);
      CollectFactKeys(right, keys);
    case Logic(_, args) =>
      for i := 0 to |args|
        invariant keys.elements == CollectedAll(ast, args[..i], old(keys.elements))
      {
        CollectFactKeys(args[i], keys);
        assert args[..i + 1][..i] == args[..i];
      }
      assert args[..|args|] == args;
  }

  // ---- the traversal of untyped JSON ---------------------------------------------------------

  function OwnKey(v: Value, keys: seq<Text>): seq<Text> {
    var t := Get(v, Ascii("type"));
    var k := Get(v, Ascii("key"));
    if (t == Str(Ascii("fact")) || t == Str(Ascii("require"))) && k.Str? && k.s != [] then Added(keys, k.s) else keys
  }

  /** `collectFacts` */
  function FromJson(v: Value, keys: seq<Text>): seq<Text>
    decreases v, 1, 0
  {
    if !v.Obj? then keys
    else
      var a := OwnKey(v, keys);
      var b := FromPart(v, Get(v, Ascii("then")), a);
      var c := FromPart(v, Get(v, Ascii("left")), b);
      var d := FromPart(v, Get(v, Ascii("right")), c);
      var args := Get(v, Ascii("args"));
      if args.Arr? then FromItems(v, args.items, d) else d
  }

  function FromPart(ghost whole: Value, v: Value, keys: seq<Text>): seq<Text>
    requires v == Undefined || v < whole
    decreases whole, 0, 0
  {
    if v == Undefined then keys else FromJson(v, keys)
  }

  function FromItems(ghost whole: Value, items: seq<Value>, keys: seq<Text>): seq<Text>
    requires PartsOf(whole, items)
    decreases whole, 0, |items|
  {
    if items == [] then keys
    else
      var n := |items| - 1;
      FromJson(items[n], FromItems(whole, items[..n], keys))
  }

  method CollectFacts(v: Value, keys: TextSet)
    modifies keys
    ensures keys.elements == FromJson(v, old(keys.elements))
    decreases v
  {
    hide Get;
    if v.Obj? {
      var t := Get(v, Ascii("type"));
      var k := Get(v, Ascii("key"));
      if (t == Str(Ascii("fact")) || t == Str(Ascii("require"))) && k.Str? && k.s != [] { keys.Add(k.s); }
      var body := Get(v, Ascii("then"));
      if body != Undefined { CollectFacts(body, keys); }
      var left := Get(v, Ascii("left"));
      if left != Undefined { CollectFacts(left, keys); }
      var right := Get(v, Ascii("right"));
      if right != Undefined { CollectFacts(right, keys); }
      var args := Get(v, Ascii("args"));
      if args.Arr? { CollectFactsOfItems(v, args.items, keys); }
    }
  }

  method CollectFactsOfItems(ghost whole: Value, items: seq<Value>, keys: TextSet)
    requires PartsOf(whole, items)
    modifies keys
    ensures keys.elements == FromItems(whole, items, old(keys.elements))
    decreases whole, 0
  {
    for i := 0 to |items|
      invariant keys.elements == FromItems(whole, items[..i], old(keys.elements))
    {
      CollectFacts(items[i], keys);
      assert items[..i + 1][..i] == items[..i];
    }
    assert items[..|items|] == items;
  }

  // ---- the two traversals agree --------------------------------------------------------------

  /** Every fact key is a non-empty word, as all the proposable keys are. */
  predicate KeysNamed(ast: Ast) {
    match ast
    case Lit(_) => true
    case Fact(key) => key != []
    case Require(key, body) => key != [] && KeysNamed(body)
    case Compare(_, left, right) => KeysNamed(left) && KeysNamed(right)
    case Logic(_, args) => forall i | 0 <= i < |args| :: KeysNamed(args[i])
  }

  lemma FindNone(ms: seq<Member>, key: Text)
    requires forall j | 0 <= j < |ms| :: ms[j].key != key
    ensures Find(ms, key) == Undefined
  {
  }

  /** The words that name members. */
  function Names(): (names: seq<Text>)
    ensures |names| == 8
    ensures names[0] == Ascii("type") && names[1] == Ascii("value") && names[2] == Ascii("key")
    ensures names[3] == Ascii("op") && names[4] == Ascii("left") && names[5] == Ascii("right")
    ensures names[6] == Ascii("args") && names[7] == Ascii("then")
  {
    [Ascii("type"), Ascii("value"), Ascii("key"), Ascii("op"), Ascii("left"), Ascii("right"), Ascii("args"),
     Ascii("then")]
  }

  lemma NamesDistinct()
    ensures NoDuplicates(Names())
  {
    assert Ascii("type")[1] == 121 && Ascii("left")[0] == 108 && Ascii("args")[0] == 97 && Ascii("then")[1] == 104;
    assert Ascii("value")[0] == 118 && Ascii("right")[0] == 114;
  }

  lemma TypeWords()
    ensures Ascii("fact") != Ascii("lit") && Ascii("fact") != Ascii("compare") && Ascii("fact") != Ascii("logic")
    ensures Ascii("fact") != Ascii("require") && Ascii("require") != Ascii("lit") && Ascii("require") != Ascii("logic")
    ensures Ascii("require") != Ascii("compare")
  {
    assert Ascii("require")[0] == 114 && Ascii("compare")[0] == 99;
  }

  /** Which names the members of an encoded predicate carry, in order. */
  function PresentNames(ast: Ast): seq<nat> {
    match ast
    case Lit(_) => [0, 1]
    case Fact(_) => [0, 2]
    case Compare(_, _, _) => [0, 3, 4, 5]
    case Logic(_, _) => [0, 3, 6]
    case Require(_, _) => [0, 2, 7]
  }

  /** The part of an encoded predicate stored under name `k`, `undefined` if there is none. */
  ghost function PartNamed(ast: Ast, k: nat): Value {
    if k == 0 then Str(TypeText(ast))
    else if k == 1 && ast.Lit? then EncodeLiteral(ast.value)
    else if k == 2 && (ast.Fact? || ast.Require?) then Str(ast.key)
    else if k == 3 && ast.Compare? then Str(CompareText(ast.cmp))
    else if k == 3 && ast.Logic? then Str(LogicText(ast.op))
    else if k == 4 && ast.Compare? then Encode(ast.left)
    else if k == 5 && ast.Compare? then Encode(ast.right)
    else if k == 6 && ast.Logic? then Arr(EncodeAll(ast.args))
    else if k == 7 && ast.Require? then Encode(ast.body)
    else Undefined
  }

  /** Member `j` of an encoded predicate carries name `k` and the part of that name. */
  ghost predicate CarriesAt(ast: Ast, ms: seq<Member>, j: nat, k: nat) {
    j < |ms| && ms[j].key == Names()[if k < 8 then k else 0] && ms[j].value == PartNamed(ast, k)
  }

  lemma EncodedLayout(ast: Ast)
    ensures |Encode(ast).members| == |PresentNames(ast)|
    ensures forall j | 0 <= j < |PresentNames(ast)| ::
              PresentNames(ast)[j] < 8 && CarriesAt(ast, Encode(ast).members, j, PresentNames(ast)[j])
  {
    NamesAre();
    hide Names;
    hide Ascii;
    forall j | 0 <= j < |PresentNames(ast)|
      ensures PresentNames(ast)[j] < 8 && CarriesAt(ast, Encode(ast).members, j, PresentNames(ast)[j])
    {
    }
  }

  lemma NamesAre()
    ensures Names()[0] == Ascii("type") && Names()[1] == Ascii("value") && Names()[2] == Ascii("key")
    ensures Names()[3] == Ascii("op") && Names()[4] == Ascii("left") && Names()[5] == Ascii("right")
    ensures Names()[6] == Ascii("args") && Names()[7] == Ascii("then")
  {
    hide Ascii;
  }

  lemma PresentNamesDistinct(ast: Ast)
    ensures forall i, j | 0 <= i < j < |PresentNames(ast)| :: PresentNames(ast)[i] != PresentNames(ast)[j]
  {
  }

  /** Position of a name among the members of an encoded predicate, if it is there. */
  lemma Position(ast: Ast, k: nat) returns (j: int)
    requires k < 8
    ensures 0 <= j < |PresentNames(ast)| ==> PresentNames(ast)[j] == k
    ensures j == -1 ==> PartNamed(ast, k) == Undefined && forall i | 0 <= i < |PresentNames(ast)| ::
        PresentNames(ast)[i] != k
    ensures -1 <= j < |PresentNames(ast)|
  {
    j := if k == 0 then 0
         else if (k == 1 && ast.Lit?) || (k == 2 && (ast.Fact? || ast.Require?))
             || (k == 3 && (ast.Compare? || ast.Logic?)) then 1
         else if (k == 4 && ast.Compare?) || (k == 6 && ast.Logic?) || (k == 7 && ast.Require?) then 2
         else if k == 5 && ast.Compare? then 3
         else -1;
  }

  /** What the untyped traversal sees in an encoded predicate. */
  lemma PartFound(ast: Ast, k: nat)
    requires k < 8
    ensures Find(Encode(ast).members, Names()[k]) == PartNamed(ast, k)
  {
    EncodedLayout(ast);
    PresentNamesDistinct(ast);
    NamesDistinct();
    var ms, present, names := Encode(ast).members, PresentNames(ast), Names();
    var j := Position(ast, k);
    hide Encode;
    hide PartNamed;
    hide PresentNames;
    hide Names;
    if j == -1 {
      forall i | 0 <= i < |ms| ensures ms[i].key != names[k] {
        assert CarriesAt(ast, ms, i, present[i]);
        assert names[present[i]] != names[k];
      }
      FindNone(ms, names[k]);
    } else {
      assert CarriesAt(ast, ms, j, present[j]);
      forall i | 0 <= i < j ensures ms[i].key != ms[j].key {
        assert CarriesAt(ast, ms, i, present[i]);
        assert names[present[i]] != names[present[j]];
      }
      FindAt(ms, j);
    }
  }

  /** One step of the untyped traversal, on an encoded predicate. */
  lemma StepOnEncoded(ast: Ast, keys: seq<Text>)
    ensures OwnKey(Encode(ast), keys)
         == if (ast.Fact? || ast.Require?) && ast.key != [] then Added(keys, ast.key) else keys
  {
    PartFound(ast, 0);
    PartFound(ast, 2);
    NamesAre();
    TypeWords();
    hide Names;
    hide Encode;
    hide Find;
  }

  lemma ChildrenOfEncoded(ast: Ast)
    ensures Get(Encode(ast), Ascii("then")) == if ast.Require? then Encode(ast.body) else Undefined
    ensures Get(Encode(ast), Ascii("left")) == if ast.Compare? then Encode(ast.left) else Undefined
    ensures Get(Encode(ast), Ascii("right")) == if ast.Compare? then Encode(ast.right) else Undefined
    ensures Get(Encode(ast), Ascii("args")) == if ast.Logic? then Arr(EncodeAll(ast.args)) else Undefined
  {
    PartFound(ast, 4);
    PartFound(ast, 5);
    PartFound(ast, 6);
    PartFound(ast, 7);
    NamesAre();
    hide Names;
    hide Ascii;
    hide Encode;
    hide Find;
  }

  lemma {:induction false} TraversalsAgree(ast: Ast, keys: seq<Text>)
    requires KeysNamed(ast)
    ensures FromJson(Encode(ast), keys) == Collected(ast, keys)
    decreases ast, 1, 0
  {
    StepOnEncoded(ast, keys);
    ChildrenOfEncoded(ast);
    hide Encode;
    hide Get;
    hide OwnKey;
    match ast
    case Require(key, body) => TraversalsAgree(body, Added(keys, key));
    case Compare(_, left, right) =>
      TraversalsAgree(left, keys);
      TraversalsAgree(right, Collected(left, keys));
    case Logic(_, args) => ItemTraversalsAgree(Encode(ast), ast, args, keys);
    case _ =>
  }

  lemma {:induction false} ItemTraversalsAgree(v: Value, ast: Ast, args: seq<Ast>, keys: seq<Text>)
    requires forall i | 0 <= i < |args| :: args[i] < ast && KeysNamed(args[i])
    requires PartsOf(v, EncodeAll(args))
    ensures FromItems(v, EncodeAll(args), keys) == CollectedAll(ast, args, keys)
    decreases ast, 0, |args|
  {
    if args != [] {
      var n := |args| - 1;
      assert EncodeAll(args)[..n] == EncodeAll(args[..n]);
      ItemTraversalsAgree(v, ast, args[..n], keys);
      TraversalsAgree(args[n], CollectedAll(ast, args[..n], keys));
    }
  }

  /** The traversal adds exactly the fact keys of the predicate, each once. */
  lemma {:induction false} CollectedIsFactKeys(ast: Ast, keys: seq<Text>)
    requires NoDuplicates(keys)
    ensures NoDuplicates(Collected(ast, keys))
    ensures forall k :: k in Collected(ast, keys) <==> k in keys || k in FactKeys(ast)
    decreases ast, 1, 0
  {
    match ast
    case Require(key, body) => CollectedIsFactKeys(body, Added(keys, key));
    case Compare(_, left, right) =>
      CollectedIsFactKeys(left, keys);
      CollectedIsFactKeys(right, Collected(left, keys));
    case Logic(_, args) => CollectedAllIsFactKeys(ast, args, keys);
    case _ =>
  }

  lemma {:induction false} CollectedAllIsFactKeys(whole: Ast, args: seq<Ast>, keys: seq<Text>)
    requires forall i | 0 <= i < |args| :: args[i] < whole
    requires NoDuplicates(keys)
    ensures NoDuplicates(CollectedAll(whole, args, keys))
    ensures forall k :: k in CollectedAll(whole, args, keys) <==>
                        k in keys || exists i :: 0 <= i < |args| && k in FactKeys(args[i])
    decreases whole, 0, |args|
  {
    if args != [] {
      var n := |args| - 1;
      CollectedAllIsFactKeys(whole, args[..n], keys);
      CollectedIsFactKeys(args[n], CollectedAll(whole, args[..n], keys));
    }
  }

  // ---- generation and the persistence checks -------------------------------------------------

  datatype Criterion = Criterion(criterionKey: Text, ast: Ast, astHash: Text, expectedInputs: seq<Text>)

  datatype CheckError = AstHashMismatch | ExpectedInputsMismatch

  datatype CheckResult = Passed | Failed(error: CheckError)

  /** `[...collectFactKeys(ast)].sort()` */
  function ExpectedInputs(ast: Ast): seq<Text> { SortBy(TextLeq, Collected(ast, [])) }

  /** One generated criterion; `sha` stands for the hex SHA-256 digest. */
  function Generated(sha: Text -> Text, leq: (Text, Text) -> bool, key: Text, ast: Ast): Criterion {
    var canonical := Canonicalize(leq, ast);
    Criterion(key, canonical, sha(Stable(canonical)), ExpectedInputs(canonical))
  }

  function StringsText(ts: seq<Text>): Text {
    StableText(Arr(seq(|ts|, i requires 0 <= i < |ts| => Str(ts[i]))))
  }

  /** The two checks persistence makes on each criterion before it writes a row. */
  function Checked(sha: Text -> Text, c: Criterion): CheckResult {
    if sha(Stable(c.ast)) != c.astHash then Failed(AstHashMismatch)
    else if StringsText(SortBy(TextLeq, FromJson(Encode(c.ast), []))) != StringsText(c.expectedInputs)
    then Failed(ExpectedInputsMismatch)
    else Passed
  }

  lemma StringsTextInjective(s: seq<Text>, t: seq<Text>)
    ensures StringsText(s) == StringsText(t) <==> s == t
  {
    var a := Arr(seq(|s|, i requires 0 <= i < |s| => Str(s[i])));
    var b := Arr(seq(|t|, i requires 0 <= i < |t| => Str(t[i])));
    StableTextMeaning(a, b);
    PlainIsSame(a);
    PlainIsSame(b);
    if StringsText(s) == StringsText(t) {
      forall i | 0 <= i < |s| ensures s[i] == t[i] {
        assert SameUpToKeyOrder(a.items[i], b.items[i]);
      }
    }
  }

  /** The inputs a criterion must declare: its fact keys, each once, in code-unit order. */
  ghost predicate Declares(inputs: seq<Text>, ast: Ast) {
    && SortedBy(TextLeq, inputs)
    && NoDuplicates(inputs)
    && forall k :: k in inputs <==> k in FactKeys(ast)
  }

  lemma SortedListingIsUnique(s: seq<Text>, t: seq<Text>)
    requires SortedBy(TextLeq, s) && SortedBy(TextLeq, t) && NoDuplicates(s) && NoDuplicates(t)
    requires forall k :: k in s <==> k in t
    ensures s == t
  {
    forall k ensures multiset(s)[k] == multiset(t)[k] {
      DistinctTextsAsMultiset(s, k);
      DistinctTextsAsMultiset(t, k);
    }
    assert multiset(s) == multiset(t);
    TextLeqIsTotalOrder();
    SortedIsUnique(TextLeq, s, t);
  }

  lemma CountsTwice(ts: seq<Text>, i: nat, j: nat)
    requires i < j < |ts| && ts[i] == ts[j]
    ensures multiset(ts)[ts[i]] >= 2
  {
    assert ts == ts[..j] + ts[j..];
    assert ts[i] in ts[..j] && ts[j] in ts[j..];
  }

  lemma SortKeepsDistinct(ts: seq<Text>)
    requires NoDuplicates(ts)
    ensures NoDuplicates(SortBy(TextLeq, ts))
  {
    var r := SortBy(TextLeq, ts);
    SortKeepsMultiset(TextLeq, ts);
    forall i, j | 0 <= i < j < |r| ensures r[i] != r[j] {
      if r[i] == r[j] {
        CountsTwice(r, i, j);
        DistinctTextsAsMultiset(ts, r[i]);
      }
    }
  }

  lemma ExpectedInputsDeclare(ast: Ast)
    ensures Declares(ExpectedInputs(ast), ast)
  {
    CollectedIsFactKeys(ast, []);
    TextLeqIsTotalOrder();
    SortSorts(TextLeq, Collected(ast, []));
    SortKeepsMembers(TextLeq, Collected(ast, []));
    SortKeepsDistinct(Collected(ast, []));
  }

  /** The criterion is consistent: its hash is that of its predicate, its inputs are the facts of it. */
  ghost predicate Consistent(sha: Text -> Text, c: Criterion) {
    c.astHash == sha(Stable(c.ast)) && Declares(c.expectedInputs, c.ast)
  }

  /** A criterion passes exactly when it carries the hash of its predicate and declares its facts. */
  lemma CheckMeaning(sha: Text -> Text, c: Criterion)
    requires KeysNamed(c.ast)
    ensures Checked(sha, c) == Passed <==> Consistent(sha, c)
  {
    TraversalsAgree(c.ast, []);
    StringsTextInjective(ExpectedInputs(c.ast), c.expectedInputs);
    ExpectedInputsDeclare(c.ast);
    if Declares(c.expectedInputs, c.ast) { SortedListingIsUnique(ExpectedInputs(c.ast), c.expectedInputs); }
  }

  /** Which check fails: the hash first, then the declared facts. */
  lemma CheckRefusals(sha: Text -> Text, c: Criterion)
    requires KeysNamed(c.ast)
    ensures Checked(sha, c) == Failed(AstHashMismatch) <==> c.astHash != sha(Stable(c.ast))
    ensures Checked(sha, c) == Failed(ExpectedInputsMismatch)
       <==> c.astHash == sha(Stable(c.ast)) && !Declares(c.expectedInputs, c.ast)
  {
    CheckMeaning(sha, c);
    hide Declares;
    hide Stable;
    hide StringsText;
    hide FromJson;
  }

  lemma {:induction false} CanonicalKeysNamed(leq: (Text, Text) -> bool, ast: Ast)
    requires KeysNamed(ast)
    ensures KeysNamed(Canonicalize(leq, ast))
    decreases ast
  {
    match ast
    case Compare(_, left, right) => CanonicalKeysNamed(leq, left); CanonicalKeysNamed(leq, right);
    case Require(_, body) => CanonicalKeysNamed(leq, body);
    case Logic(op, args) =>
      var cs := CanonicalizeAll(leq, args);
      SortKeepsMembers(ByText(leq), cs);
      forall x | x in cs ensures KeysNamed(x) {
        var i :| 0 <= i < |cs| && cs[i] == x;
        CanonicalKeysNamed(leq, args[i]);
      }
      var sorted := Canonicalize(leq, ast).args;
      forall i | 0 <= i < |sorted| ensures KeysNamed(sorted[i]) { assert sorted[i] in cs; }
    case _ =>
  }

  /** Whatever generation writes, persistence accepts: with the depth, shape and facts of the source. */
  lemma GenerationPassesPersistence(sha: Text -> Text, leq: (Text, Text) -> bool, key: Text, ast: Ast)
    requires TotalOrder(leq) && KeysNamed(ast)
    ensures Checked(sha, Generated(sha, leq, key, ast)) == Passed
    ensures Declares(Generated(sha, leq, key, ast).expectedInputs, ast)
    ensures Depth(Generated(sha, leq, key, ast).ast) == Depth(ast)
    ensures IsBoolean(Generated(sha, leq, key, ast).ast) == IsBoolean(ast)
  {
    var c := Generated(sha, leq, key, ast);
    CanonicalKeysNamed(leq, ast);
    ExpectedInputsDeclare(c.ast);
    CheckMeaning(sha, c);
    CanonicalFormIsReordering(leq, ast);
    ReorderingKeepsShape(ast, c.ast);
  }

  method CheckOne(sha: Text -> Text, c: Criterion) returns (r: CheckResult)
    ensures r == Checked(sha, c)
  {
    if sha(Stable(c.ast)) != c.astHash { return Failed(AstHashMismatch); }
    var found := new TextSet();
    CollectFacts(Encode(c.ast), found);
    if StringsText(SortBy(TextLeq, found.elements)) != StringsText(c.expectedInputs) {
      return Failed(ExpectedInputsMismatch);
    }
    r := Passed;
  }

  /** The loop over the criteria: it stops at the first one that is not consistent. */
  method CheckAll(sha: Text -> Text, criteria: seq<Criterion>) returns (r: CheckResult)
    requires forall i | 0 <= i < |criteria| :: KeysNamed(criteria[i].ast)
    ensures r == Passed <==> forall i | 0 <= i < |criteria| :: Consistent(sha, criteria[i])
    ensures r != Passed ==> exists i :: 0 <= i < |criteria| && Checked(sha, criteria[i]) == r
                                        && forall j | 0 <= j < i :: Consistent(sha, criteria[j])
  {
    hide Consistent;
    hide Checked;
    hide KeysNamed;
    for i := 0 to |criteria|
      invariant forall j | 0 <= j < i :: Consistent(sha, criteria[j])
    {
      r := CheckOne(sha, criteria[i]);
      CheckMeaning(sha, criteria[i]);
      if r != Passed { return; }
    }
    r := Passed;
  }

  /** What generation writes: the key as given, and for a rearrangement of the predicate its own hash and its facts in
      order. */
  lemma GeneratedSays(sha: Text -> Text, leq: (Text, Text) -> bool, key: Text, ast: Ast)
    requires TotalOrder(leq) && KeysNamed(ast)
    ensures var c := Generated(sha, leq, key, ast);
      c.criterionKey == key && Reordered(ast, c.ast) && c.astHash == sha(Stable(c.ast))
      && Declares(c.expectedInputs, c.ast)
  {
    CanonicalKeysNamed(leq, ast);
    ExpectedInputsDeclare(Canonicalize(leq, ast));
    CanonicalFormIsReordering(leq, ast);
    hide Stable;
    hide Reordered;
    hide Declares;
  }
}
