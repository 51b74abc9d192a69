/** Proposal predicates and their canonical form. */
module ProposedCriteria {
  import opened CanonicalJson
  import opened Numerals
  import opened Sorting
  import opened StableJson
  import opened Texts

  // src/modules/contracts/proposed-criteria.ts. The comparator `leq` stands for `localeCompare`, any total order on
  // texts.

  datatype CompareOp = Eq | Ne | Gt | Gte | Lt | Lte

  datatype LogicOp = And | Or | Not

  datatype Literal = NumberLit(n: JsNumber) | TextLit(s: Text) | BoolLit(b: bool)

  datatype Ast =
    | Lit(value: Literal)
    | Fact(key: Text)
    | Compare(cmp: CompareOp, left: Ast, right: Ast)
    | Logic(op: LogicOp, args: seq<Ast>)
    | Require(key: Text, body: Ast)

  // ---- serialization -------------------------------------------------------------------------

  function CompareText(op: CompareOp): Text {
    match op
    case Eq => Ascii("eq")
    case Ne => Ascii("ne")
    case Gt => Ascii("gt")
    case Gte => Ascii("gte")
    case Lt => Ascii("lt")
    case Lte => Ascii("lte")
  }

  function LogicText(op: LogicOp): Text {
    match op
    case And => Ascii("and")
    case Or => Ascii("or")
    case Not => Ascii("not")
  }

  function EncodeLiteral(l: Literal): Value {
    match l
    case NumberLit(n) => Num(n)
    case TextLit(s) => Str(s)
    case BoolLit(b) => Bool(b)
  }

  function TypeText(ast: Ast): Text {
    match ast
    case Lit(_) => Ascii("lit")
    case Fact(_) => Ascii("fact")
    case Compare(_, _, _) => Ascii("compare")
    case Logic(_, _) => Ascii("logic")
    case Require(_, _) => Ascii("require")
  }

  /** The predicate as the JSON object it is stored as. */
  function Encode(ast: Ast): (v: Value)
    ensures v.Obj? && |v.members| > 0 && v.members[0] == Member(Ascii("type"), Str(TypeText(ast)))
    decreases ast, 1
  {
    Obj([Member(Ascii("type"), Str(TypeText(ast)))] +
        match ast
        case Lit(value) => [Member(Ascii("value"), EncodeLiteral(value))]
        case Fact(key) => [Member(Ascii("key"), Str(key))]
        case Compare(cmp, left, right) =>
          [Member(Ascii("op"), Str(CompareText(cmp))), Member(Ascii("left"), Encode(left)),
           Member(Ascii("right"), Encode(right))]
        case Logic(op, args) =>
          [Member(Ascii("op"), Str(LogicText(op))), Member(Ascii("args"), Arr(EncodeAll(args)))]
        case Require(key, body) =>
          [Member(Ascii("key"), Str(key)), Member(Ascii("then"), Encode(body))])
  }

  function EncodeAll(args: seq<Ast>): (vs: seq<Value>)
    ensures |vs| == |args|
    ensures forall i | 0 <= i < |args| :: vs[i] == Encode(args[i])
    decreases args, 0
  {
    if args == [] then [] else [Encode(args[0])] + EncodeAll(args[1..])
  }

  /** `stableStringify` of the predicate. */
  function Stable(ast: Ast): Text { StableText(Encode(ast)) }

  /** The member names are told apart by their first two code units or their length. */
  lemma NamesDiffer()
    ensures Ascii("type") != Ascii("value") && Ascii("type") != Ascii("key") && Ascii("type") != Ascii("op")
    ensures Ascii("type") != Ascii("left") && Ascii("type") != Ascii("right") && Ascii("type") != Ascii("args")
    ensures Ascii("type") != Ascii("then") && Ascii("op") != Ascii("left") && Ascii("op") != Ascii("right")
    ensures Ascii("left") != Ascii("right") && Ascii("op") != Ascii("args") && Ascii("key") != Ascii("then")
  {
    assert Ascii("type")[1] == 121 && Ascii("left")[0] == 108 && Ascii("args")[0] == 97 && Ascii("then")[1] == 104;
  }

  lemma EncodedKeysDiffer(ast: Ast)
    ensures DistinctKeys(Encode(ast).members)
  {
    NamesDiffer();
  }

  lemma {:induction false} EncodeIsJson(ast: Ast)
    ensures JsonShaped(Encode(ast))
    decreases ast
  {
    EncodedKeysDiffer(ast);
    var ms := Encode(ast).members;
    forall i | 0 <= i < |ms| ensures JsonShaped(ms[i].value) {
      match ast
      case Compare(_, left, right) => EncodeIsJson(left); EncodeIsJson(right);
      case Logic(_, args) => EncodeAllIsJson(ast, args);
      case Require(_, body) => EncodeIsJson(body);
      case _ =>
    }
  }

  lemma {:induction false} EncodeAllIsJson(whole: Ast, args: seq<Ast>)
    requires forall i | 0 <= i < |args| :: args[i] < whole
    ensures JsonShaped(Arr(EncodeAll(args)))
    decreases whole, 0
  {
    var vs := EncodeAll(args);
    forall x | x in vs ensures JsonShaped(x) {
      var i :| 0 <= i < |vs| && vs[i] == x;
      EncodeIsJson(args[i]);
    }
  }

  lemma OpTextsDiffer(a: CompareOp, b: CompareOp, c: LogicOp, d: LogicOp)
    ensures CompareText(a) == CompareText(b) ==> a == b
    ensures LogicText(c) == LogicText(d) ==> c == d
  {
    assert Ascii("eq")[0] == 101 && Ascii("ne")[0] == 110 && Ascii("gt")[0] == 103 && Ascii("lt")[0] == 108;
    assert Ascii("gte")[0] == 103 && Ascii("lte")[0] == 108 && Ascii("and")[0] == 97 && Ascii("not")[0] == 110;
  }

  lemma TypeTextsDiffer(a: Ast, b: Ast)
    requires TypeText(a) == TypeText(b)
    ensures a.Lit? == b.Lit? && a.Fact? == b.Fact? && a.Compare? == b.Compare?
    ensures a.Logic? == b.Logic? && a.Require? == b.Require?
  {
    assert |TypeText(a)| == |TypeText(b)|;
    assert Ascii("compare")[0] == 99 && Ascii("require")[0] == 114;
  }

  /** Members of the same name hold the same value in equal objects. */
  lemma MemberSame(v: Value, w: Value, i: nat, j: nat)
    requires v.Obj? && w.Obj? && SameUpToKeyOrder(v, w)
    requires i < |v.members| && j < |w.members| && v.members[i].key == w.members[j].key
    requires !v.members[i].value.Undefined? && !w.members[j].value.Undefined?
    ensures SameUpToKeyOrder(v.members[i].value, w.members[j].value)
  {
    assert v.members[i] in v.members && w.members[j] in w.members;
  }

  lemma SameTypes(a: Ast, b: Ast)
    requires SameUpToKeyOrder(Encode(a), Encode(b))
    ensures a.Lit? == b.Lit? && a.Fact? == b.Fact? && a.Compare? == b.Compare?
    ensures a.Logic? == b.Logic? && a.Require? == b.Require?
  {
    MemberSame(Encode(a), Encode(b), 0, 0);
    TypeTextsDiffer(a, b);
  }

  lemma SameStrings(x: Text, y: Text)
    requires SameUpToKeyOrder(Str(x), Str(y))
    ensures x == y
  {
  }

  lemma SameArrays(xs: seq<Value>, ys: seq<Value>)
    requires SameUpToKeyOrder(Arr(xs), Arr(ys))
    ensures |xs| == |ys| && forall i | 0 <= i < |xs| :: SameUpToKeyOrder(xs[i], ys[i])
  {
  }

  lemma CompareMembers(a: Ast)
    requires a.Compare?
    ensures var ms := Encode(a).members;
            |ms| == 4 && ms[1] == Member(Ascii("op"), Str(CompareText(a.cmp)))
                && ms[2] == Member(Ascii("left"), Encode(a.left))
            && ms[3] == Member(Ascii("right"), Encode(a.right))
  {
    hide Ascii;
    hide CompareText;
  }

  lemma LogicMembers(a: Ast)
    requires a.Logic?
    ensures var ms := Encode(a).members;
            |ms| == 3 && ms[1] == Member(Ascii("op"), Str(LogicText(a.op)))
                && ms[2] == Member(Ascii("args"), Arr(EncodeAll(a.args)))
  {
    hide Ascii;
    hide LogicText;
  }

  lemma RequireMembers(a: Ast)
    requires a.Require?
    ensures var ms := Encode(a).members;
            |ms| == 3 && ms[1] == Member(Ascii("key"), Str(a.key)) && ms[2] == Member(Ascii("then"), Encode(a.body))
  {
    hide Ascii;
  }

  lemma CompareParts(a: Ast, b: Ast)
    requires a.Compare? && b.Compare? && SameUpToKeyOrder(Encode(a), Encode(b))
    ensures a.cmp == b.cmp
    ensures SameUpToKeyOrder(Encode(a.left), Encode(b.left)) && SameUpToKeyOrder(Encode(a.right), Encode(b.right))
  {
    CompareMembers(a);
    CompareMembers(b);
    hide *;
    MemberSame(Encode(a), Encode(b), 1, 1);
    SameStrings(CompareText(a.cmp), CompareText(b.cmp));
    OpTextsDiffer(a.cmp, b.cmp, And, And);
    MemberSame(Encode(a), Encode(b), 2, 2);
    MemberSame(Encode(a), Encode(b), 3, 3);
  }

  lemma LogicParts(a: Ast, b: Ast)
    requires a.Logic? && b.Logic? && SameUpToKeyOrder(Encode(a), Encode(b))
    ensures a.op == b.op && |a.args| == |b.args|
    ensures forall i | 0 <= i < |a.args| :: SameUpToKeyOrder(Encode(a.args[i]), Encode(b.args[i]))
  {
    LogicMembers(a);
    LogicMembers(b);
    hide *;
    MemberSame(Encode(a), Encode(b), 1, 1);
    SameStrings(LogicText(a.op), LogicText(b.op));
    OpTextsDiffer(Eq, Eq, a.op, b.op);
    MemberSame(Encode(a), Encode(b), 2, 2);
    SameArrays(EncodeAll(a.args), EncodeAll(b.args));
  }

  lemma RequireParts(a: Ast, b: Ast)
    requires a.Require? && b.Require? && SameUpToKeyOrder(Encode(a), Encode(b))
    ensures a.key == b.key && SameUpToKeyOrder(Encode(a.body), Encode(b.body))
  {
    RequireMembers(a);
    RequireMembers(b);
    hide *;
    MemberSame(Encode(a), Encode(b), 1, 1);
    SameStrings(a.key, b.key);
    MemberSame(Encode(a), Encode(b), 2, 2);
  }

  lemma LeafParts(a: Ast, b: Ast)
    requires (a.Lit? && b.Lit?) || (a.Fact? && b.Fact?)
    requires SameUpToKeyOrder(Encode(a), Encode(b))
    ensures a == b
  {
    hide Ascii;
    MemberSame(Encode(a), Encode(b), 1, 1);
  }

  lemma {:induction false} EncodeInjective(a: Ast, b: Ast)
    requires SameUpToKeyOrder(Encode(a), Encode(b))
    ensures a == b
    decreases a
  {
    hide SameUpToKeyOrder;
    hide Encode;
    SameTypes(a, b);
    match a
    case Compare(cmp, left, right) =>
      CompareParts(a, b);
      EncodeInjective(left, b.left);
      EncodeInjective(right, b.right);
    case Logic(op, args) =>
      LogicParts(a, b);
      forall i | 0 <= i < |args| ensures args[i] == b.args[i] { EncodeInjective(args[i], b.args[i]); }
      assert args == b.args;
    case Require(_, body) =>
      RequireParts(a, b);
      EncodeInjective(body, b.body);
    case _ => LeafParts(a, b);
  }

  lemma NamesNotProto(ast: Ast)
    ensures forall m | m in Encode(ast).members :: m.key != Proto()
  {
    hide Encode;
    hide CompareText;
    hide LogicText;
    hide TypeText;
    assert |Proto()| == 9;
    match ast
    case Compare(_, _, _) => CompareMembers(ast);
    case Logic(_, _) => LogicMembers(ast);
    case Require(_, _) => RequireMembers(ast);
    case _ => LeafMembers(ast);
  }

  lemma LeafMembers(a: Ast)
    requires a.Lit? || a.Fact?
    ensures var ms := Encode(a).members;
            |ms| == 2 && ms[1] == if a.Lit? then Member(Ascii("value"), EncodeLiteral(a.value))
                else Member(Ascii("key"), Str(a.key))
  {
    hide Ascii;
  }

  /** The member names of encoded predicates are words other than `__proto__`. */
  lemma {:induction false} EncodeIsPlain(ast: Ast)
    ensures NoProto(Encode(ast))
    decreases ast
  {
    NamesNotProto(ast);
    hide Proto;
    hide Ascii;
    hide Encode;
    var ms := Encode(ast).members;
    match ast
    case Compare(_, left, right) =>
      CompareMembers(ast);
      EncodeIsPlain(left);
      EncodeIsPlain(right);
    case Logic(_, args) =>
      LogicMembers(ast);
      forall x | x in EncodeAll(args) ensures NoProto(x) {
        var i :| 0 <= i < |EncodeAll(args)| && EncodeAll(args)[i] == x;
        EncodeIsPlain(args[i]);
      }
      assert NoProto(Arr(EncodeAll(args)));
    case Require(_, body) =>
      RequireMembers(ast);
      EncodeIsPlain(body);
    case _ => LeafMembers(ast);
  }

  lemma StableInjective(a: Ast, b: Ast)
    ensures Stable(a) == Stable(b) <==> a == b
  {
    EncodeIsJson(a);
    EncodeIsJson(b);
    EncodeIsPlain(a);
    EncodeIsPlain(b);
    hide Encode;
    hide SameUpToKeyOrder;
    StableTextMeaning(Encode(a), Encode(b));
    PlainIsSame(Encode(a));
    PlainIsSame(Encode(b));
    SameAsItself(Encode(a));
    if Stable(a) == Stable(b) { EncodeInjective(a, b); }
  }

  // ---- canonical form ------------------------------------------------------------------------

  function ByText(leq: (Text, Text) -> bool): (Ast, Ast) -> bool {
    By(leq, Stable)
  }

  lemma ByTextIsTotalOrder(leq: (Text, Text) -> bool)
    requires TotalOrder(leq)
    ensures TotalOrder(ByText(leq))
  {
    var text := Stable;
    forall a, b | text(a) == text(b) ensures a == b { StableInjective(a, b); }
    ByIsTotalOrder(leq, text);
  }

  /** `canonicalizeAst`: the arguments of `and` and `or` are sorted by their serialization. */
  function Canonicalize(leq: (Text, Text) -> bool, ast: Ast): Ast
    decreases ast, 1
  {
    match ast
    case Compare(cmp, left, right) => Compare(cmp, Canonicalize(leq, left), Canonicalize(leq, right))
    case Require(key, body) => Require(key, Canonicalize(leq, body))
    case Logic(op, args) =>
      var cs := CanonicalizeAll(leq, args);
      Logic(op, if op.Not? then cs else SortBy(ByText(leq), cs))
    case _ => ast
  }

  function CanonicalizeAll(leq: (Text, Text) -> bool, args: seq<Ast>): (cs: seq<Ast>)
    ensures |cs| == |args|
    ensures forall i | 0 <= i < |args| :: cs[i] == Canonicalize(leq, args[i])
    decreases args, 0
  {
    if args == [] then [] else [Canonicalize(leq, args[0])] + CanonicalizeAll(leq, args[1..])
  }

  /** The arguments of `and` and `or` may be rearranged, at any depth; nothing else may change. */
  ghost predicate Reordered(a: Ast, b: Ast)
    decreases a
  {
    match a
    case Compare(cmp, left, right) =>
      b.Compare? && b.cmp == cmp && Reordered(left, b.left) && Reordered(right, b.right)
    case Require(key, body) => b.Require? && b.key == key && Reordered(body, b.body)
    case Logic(op, args) =>
      && b.Logic? && b.op == op && |b.args| == |args|
      && (op.Not? ==> forall i | 0 <= i < |args| :: Reordered(args[i], b.args[i]))
      && (!op.Not? ==> exists p :: IsPermutation(p, |args|) && forall i | 0 <= i < |args| ::
          Reordered(args[i], b.args[p[i]]))
    case _ => a == b
  }

  /** Two predicates have one canonical form exactly when they are rearrangements of each other. */
  lemma {:induction false} CanonicalFormDecidesReordering(leq: (Text, Text) -> bool, a: Ast, b: Ast)
    requires TotalOrder(leq)
    ensures Canonicalize(leq, a) == Canonicalize(leq, b) <==> Reordered(a, b)
    decreases a
  {
    match a
    case Compare(_, left, right) =>
      if b.Compare? {
        CanonicalFormDecidesReordering(leq, left, b.left);
        CanonicalFormDecidesReordering(leq, right, b.right);
      }
    case Require(_, body) => if b.Require? { CanonicalFormDecidesReordering(leq, body, b.body); }
    case Logic(op, args) =>
      if b.Logic? && b.op == op && |b.args| == |args| {
        forall i, j | 0 <= i < |args| && 0 <= j < |args|
          ensures Canonicalize(leq, args[i]) == Canonicalize(leq, b.args[j]) <==> Reordered(args[i], b.args[j])
        {
          CanonicalFormDecidesReordering(leq, args[i], b.args[j]);
        }
        assert ArgumentsDecided(leq, args, b.args);
        if !op.Not? { SortedArgumentsDecide(leq, a, b); }
      } else if b.Logic? {
        SortKeepsMultiset(ByText(leq), CanonicalizeAll(leq, args));
        SortKeepsMultiset(ByText(leq), CanonicalizeAll(leq, b.args));
      }
    case _ =>
  }

  lemma CanonicalLogic(leq: (Text, Text) -> bool, a: Ast)
    requires a.Logic? && !a.op.Not?
    ensures Canonicalize(leq, a) == Logic(a.op, SortBy(ByText(leq), CanonicalizeAll(leq, a.args)))
  {
  }

  ghost predicate Rearranges(p: seq<int>, xs: seq<Ast>, ys: seq<Ast>)
    requires |xs| == |ys|
  {
    IsPermutation(p, |xs|) && forall i | 0 <= i < |xs| :: Reordered(xs[i], ys[p[i]])
  }

  lemma ReorderedLogic(a: Ast, b: Ast)
    requires a.Logic? && b.Logic? && a.op == b.op && !a.op.Not? && |a.args| == |b.args|
    ensures Reordered(a, b) <==> exists p :: Rearranges(p, a.args, b.args)
  {
    if Reordered(a, b) {
      var p :| IsPermutation(p, |a.args|) && forall i | 0 <= i < |a.args| :: Reordered(a.args[i], b.args[p[i]]);
      assert Rearranges(p, a.args, b.args);
    }
  }

  /** Canonical forms tell the arguments of the two predicates apart just as `Reordered` does. */
  ghost predicate ArgumentsDecided(leq: (Text, Text) -> bool, xs: seq<Ast>, ys: seq<Ast>) {
    forall i, j | 0 <= i < |xs| && 0 <= j < |ys| :: Canonicalize(leq, xs[i]) == Canonicalize(leq, ys[j])
        <==> Reordered(xs[i], ys[j])
  }

  lemma SameCanonicalsRearrange(leq: (Text, Text) -> bool, xs: seq<Ast>, ys: seq<Ast>) returns (p: seq<int>)
    requires |xs| == |ys| && ArgumentsDecided(leq, xs, ys)
        && multiset(CanonicalizeAll(leq, xs)) == multiset(CanonicalizeAll(leq, ys))
    ensures Rearranges(p, xs, ys)
  {
    hide Canonicalize;
    hide Reordered;
    p := FindPermutation(CanonicalizeAll(leq, xs), CanonicalizeAll(leq, ys));
  }

  lemma RearrangedCanonicals(leq: (Text, Text) -> bool, xs: seq<Ast>, ys: seq<Ast>, p: seq<int>)
    requires |xs| == |ys| && ArgumentsDecided(leq, xs, ys) && Rearranges(p, xs, ys)
    ensures multiset(CanonicalizeAll(leq, xs)) == multiset(CanonicalizeAll(leq, ys))
  {
    hide Canonicalize;
    hide Reordered;
    assert MatchedBy(p, CanonicalizeAll(leq, xs), CanonicalizeAll(leq, ys));
    PermutationKeepsMultiset(p, CanonicalizeAll(leq, xs), CanonicalizeAll(leq, ys));
  }

  lemma SortedArgumentsDecide(leq: (Text, Text) -> bool, a: Ast, b: Ast)
    requires TotalOrder(leq)
    requires a.Logic? && b.Logic? && a.op == b.op && !a.op.Not? && |a.args| == |b.args|
        && ArgumentsDecided(leq, a.args, b.args)
    ensures Canonicalize(leq, a) == Canonicalize(leq, b) <==> Reordered(a, b)
  {
    var s, t := CanonicalizeAll(leq, a.args), CanonicalizeAll(leq, b.args);
    CanonicalLogic(leq, a);
    CanonicalLogic(leq, b);
    ReorderedLogic(a, b);
    hide *;
    ByTextIsTotalOrder(leq);
    SortIsCanonical(ByText(leq), s, t);
    if multiset(s) == multiset(t) { var p := SameCanonicalsRearrange(leq, a.args, b.args); }
    if p :| Rearranges(p, a.args, b.args) { RearrangedCanonicals(leq, a.args, b.args, p); }
  }

  lemma {:induction false} CanonicalizeIsIdempotent(leq: (Text, Text) -> bool, ast: Ast)
    requires TotalOrder(leq)
    ensures Canonicalize(leq, Canonicalize(leq, ast)) == Canonicalize(leq, ast)
    decreases ast
  {
    match ast
    case Compare(_, left, right) =>
      CanonicalizeIsIdempotent(leq, left);
      CanonicalizeIsIdempotent(leq, right);
    case Require(_, body) => CanonicalizeIsIdempotent(leq, body);
    case Logic(op, args) =>
      var cs := CanonicalizeAll(leq, args);
      var sorted := if op.Not? then cs else SortBy(ByText(leq), cs);
      SortKeepsMembers(ByText(leq), cs);
      forall x | x in sorted ensures Canonicalize(leq, x) == x {
        assert x in cs;
        var i :| 0 <= i < |cs| && cs[i] == x;
        CanonicalizeIsIdempotent(leq, args[i]);
      }
      assert CanonicalizeAll(leq, sorted) == sorted;
      if !op.Not? {
        ByTextIsTotalOrder(leq);
        SortKeepsMultiset(ByText(leq), cs);
        SortIsCanonical(ByText(leq), sorted, cs);
      }
    case _ =>
  }

  /** Canonicalizing only rearranges. */
  lemma CanonicalFormIsReordering(leq: (Text, Text) -> bool, ast: Ast)
    requires TotalOrder(leq)
    ensures Reordered(ast, Canonicalize(leq, ast))
  {
    CanonicalizeIsIdempotent(leq, ast);
    CanonicalFormDecidesReordering(leq, ast, Canonicalize(leq, ast));
  }

  // ---- what canonicalizing keeps -------------------------------------------------------------

  function Max(a: int, b: int): int { if a < b then b else a }

  /** `astDepth` */
  function Depth(ast: Ast): int {
    match ast
    case Compare(_, left, right) => 1 + Max(Depth(left), Depth(right))
    case Logic(_, args) => 1 + DeepestOf(args)
    case Require(_, body) => 1 + Depth(body)
    case _ => 1
  }

  function DeepestOf(args: seq<Ast>): int {
    if args == [] then 0 else Max(Depth(args[0]), DeepestOf(args[1..]))
  }

  /** `isBooleanAst` */
  predicate IsBoolean(ast: Ast) {
    ast.Compare? || ast.Logic? || (ast.Require? && IsBoolean(ast.body))
  }

  /** The fact keys a predicate mentions. */
  ghost function FactKeys(ast: Ast): set<Text> {
    match ast
    case Lit(_) => {}
    case Fact(key) => {key}
    case Compare(_, left, right) => FactKeys(left) + FactKeys(right)
    case Logic(_, args) => set i, k | 0 <= i < |args| && k in FactKeys(args[i]) :: k
    case Require(key, body) => {key} + FactKeys(body)
  }

  lemma {:induction false} DeepestBounds(args: seq<Ast>)
    ensures forall i | 0 <= i < |args| :: Depth(args[i]) <= DeepestOf(args)
    ensures args != [] ==> exists i :: 0 <= i < |args| && Depth(args[i]) == DeepestOf(args)
  {
    if args != [] {
      DeepestBounds(args[1..]);
      DepthPositive(args[0]);
      if DeepestOf(args) == Depth(args[0]) {
      } else {
        var i :| 0 <= i < |args[1..]| && Depth(args[1..][i]) == DeepestOf(args[1..]);
        assert args[i + 1] == args[1..][i];
      }
    }
  }

  lemma DepthPositive(ast: Ast)
    ensures Depth(ast) >= 1
  {
    match ast
    case Logic(_, args) => if args != [] { DepthPositive(args[0]); }
    case _ =>
  }

  /** What the arguments of a rearranged `and`, `or` or `not` have in common with the original. */
  lemma ReorderedArguments(a: Ast, b: Ast) returns (p: seq<int>)
    requires Reordered(a, b) && a.Logic?
    ensures |a.args| == |b.args| && IsPermutation(p, |a.args|)
    ensures forall i | 0 <= i < |a.args| :: Reordered(a.args[i], b.args[p[i]])
  {
    if a.op.Not? {
      p := seq(|a.args|, i => i);
    } else {
      p :| IsPermutation(p, |a.args|) && forall i | 0 <= i < |a.args| :: Reordered(a.args[i], b.args[p[i]]);
    }
  }

  function DepthsOf(args: seq<Ast>): (r: seq<int>)
    ensures |r| == |args| && forall i | 0 <= i < |args| :: r[i] == Depth(args[i])
  {
    seq(|args|, i requires 0 <= i < |args| => Depth(args[i]))
  }

  ghost function FactsOf(args: seq<Ast>): (r: seq<set<Text>>)
    ensures |r| == |args| && forall i | 0 <= i < |args| :: r[i] == FactKeys(args[i])
  {
    seq(|args|, i requires 0 <= i < |args| => FactKeys(args[i]))
  }

  lemma SameDepthsSameDeepest(xs: seq<Ast>, ys: seq<Ast>)
    requires |xs| == |ys| && multiset(DepthsOf(xs)) == multiset(DepthsOf(ys))
    ensures DeepestOf(xs) == DeepestOf(ys)
  {
    DeepestBounds(xs);
    DeepestBounds(ys);
    if xs != [] {
      var i :| 0 <= i < |xs| && Depth(xs[i]) == DeepestOf(xs);
      var j :| 0 <= j < |ys| && Depth(ys[j]) == DeepestOf(ys);
      assert DepthsOf(xs)[i] in multiset(DepthsOf(ys));
      assert DepthsOf(ys)[j] in multiset(DepthsOf(xs));
    }
  }

  lemma LogicDepth(a: Ast)
    requires a.Logic?
    ensures Depth(a) == 1 + DeepestOf(a.args)
  {
  }

  lemma ArgumentsKeepDepth(a: Ast, b: Ast, p: seq<int>)
    requires a.Logic? && b.Logic? && |a.args| == |b.args| && IsPermutation(p, |a.args|)
    requires forall i | 0 <= i < |a.args| :: Depth(a.args[i]) == Depth(b.args[p[i]])
    ensures Depth(a) == Depth(b)
  {
    hide Depth;
    hide DeepestOf;
    LogicDepth(a);
    LogicDepth(b);
    assert MatchedBy(p, DepthsOf(a.args), DepthsOf(b.args));
    PermutationKeepsMultiset(p, DepthsOf(a.args), DepthsOf(b.args));
    SameDepthsSameDeepest(a.args, b.args);
  }

  lemma ArgumentsKeepFacts(a: Ast, b: Ast, p: seq<int>)
    requires a.Logic? && b.Logic? && |a.args| == |b.args| && IsPermutation(p, |a.args|)
    requires forall i | 0 <= i < |a.args| :: FactKeys(a.args[i]) == FactKeys(b.args[p[i]])
    ensures FactKeys(a) == FactKeys(b)
  {
    assert MatchedBy(p, FactsOf(a.args), FactsOf(b.args));
    PermutationKeepsMultiset(p, FactsOf(a.args), FactsOf(b.args));
    SameFacts(a, b);
  }

  /** Rearranging keeps the depth, the boolean shape and the facts a predicate needs. */
  lemma {:induction false} ReorderingKeepsShape(a: Ast, b: Ast)
    requires Reordered(a, b)
    ensures Depth(a) == Depth(b) && IsBoolean(a) == IsBoolean(b) && FactKeys(a) == FactKeys(b)
    decreases a
  {
    match a
    case Compare(_, left, right) =>
      ReorderingKeepsShape(left, b.left);
      ReorderingKeepsShape(right, b.right);
    case Require(_, body) => ReorderingKeepsShape(body, b.body);
    case Logic(_, args) =>
      var p := ReorderedArguments(a, b);
      forall i | 0 <= i < |args|
        ensures Depth(args[i]) == Depth(b.args[p[i]]) && FactKeys(args[i]) == FactKeys(b.args[p[i]])
      {
        ReorderingKeepsShape(args[i], b.args[p[i]]);
      }
      ArgumentsKeepDepth(a, b, p);
      ArgumentsKeepFacts(a, b, p);
    case _ =>
  }

  lemma SameFacts(a: Ast, b: Ast)
    requires a.Logic? && b.Logic? && multiset(FactsOf(a.args)) == multiset(FactsOf(b.args))
    ensures FactKeys(a) == FactKeys(b)
  {
    FactsWithin(a, b);
    FactsWithin(b, a);
  }

  lemma FactsWithin(a: Ast, b: Ast)
    requires a.Logic? && b.Logic? && multiset(FactsOf(a.args)) == multiset(FactsOf(b.args))
    ensures FactKeys(a) <= FactKeys(b)
  {
    forall k | k in FactKeys(a) ensures k in FactKeys(b) {
      var i :| 0 <= i < |a.args| && k in FactKeys(a.args[i]);
      assert FactsOf(a.args)[i] in multiset(FactsOf(b.args));
      var j :| 0 <= j < |b.args| && FactsOf(b.args)[j] == FactsOf(a.args)[i];
    }
  }
}
