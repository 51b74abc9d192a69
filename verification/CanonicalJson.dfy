/** `canonicalJson`, and what equality of its texts means. */
module CanonicalJson {
  import opened JsonText
  import opened Numerals
  import opened Sorting
  import opened Texts

  // src/modules/audit-ledger/replay-manifest.ts. Replay rests on it: two JSON values have the same canonical text
  // exactly when they are equal up to the order of object keys.

  datatype Value =
    | Undefined
    | Null
    | Bool(b: bool)
    | Num(n: JsNumber)
    | Str(s: Text)
    | Arr(items: seq<Value>)
    | Obj(members: seq<Member>)

  datatype Member = Member(key: Text, value: Value)

  predicate DistinctKeys(ms: seq<Member>) {
    forall i, j | 0 <= i < j < |ms| :: ms[i].key != ms[j].key
  }

  /** A JSON value, except that object members may still be `undefined`. */
  predicate JsonShaped(v: Value) {
    match v
    case Undefined => false
    case Arr(items) => forall x | x in items :: JsonShaped(x)
    case Obj(ms) => DistinctKeys(ms) && forall m | m in ms :: m.value.Undefined? || JsonShaped(m.value)
    case _ => true
  }

  /** Property access on a JSON object. */
  function Get(v: Value, key: Text): (r: Value)
    ensures v.Obj? && r != Undefined ==> r < v
  {
    if v.Obj? then Find(v.members, key) else Undefined
  }

  function Find(ms: seq<Member>, key: Text): (r: Value)
    ensures r == Undefined || exists i :: 0 <= i < |ms| && ms[i] == Member(key, r)
    ensures (forall i | 0 <= i < |ms| :: ms[i].key != key) ==> r == Undefined
  {
    if ms == [] then Undefined
    else if ms[0].key == key then ms[0].value
    else
      assert forall i | 0 <= i < |ms[1..]| :: ms[1..][i] == ms[i + 1];
      Find(ms[1..], key)
  }

  lemma {:induction false} FindAt(ms: seq<Member>, i: nat)
    requires i < |ms| && forall j | 0 <= j < i :: ms[j].key != ms[i].key
    ensures Find(ms, ms[i].key) == ms[i].value
    decreases |ms|
  {
    if i > 0 {
      assert ms[1..][i - 1] == ms[i];
      FindAt(ms[1..], i - 1);
    }
  }

  /** The two orders in which keys are written: by code units, as `sort()` orders them; or as the own properties of an
      object are listed, array indexes first and ascending, when the other keys were added in order of code units. */
  datatype KeyOrder = CodeUnits | OwnProperties

  /** ECMA-262 section 6.1.7: the canonical numeral of an integer below 2^32 - 1. */
  predicate IsIndex(key: Text) { NatValue(key) >= 0 && NatValue(key) < 0xFFFFFFFF && NatText(NatValue(key)) == key }

  predicate KeyBefore(o: KeyOrder, a: Text, b: Text) {
    if o == OwnProperties && (IsIndex(a) || IsIndex(b)) then IsIndex(a) && (IsIndex(b) ==> NatValue(a) <= NatValue(b))
    else TextLeq(a, b)
  }

  function KeyLeq(o: KeyOrder): (Text, Text) -> bool { (a: Text, b: Text) => KeyBefore(o, a, b) }

  lemma KeyLeqIsTotalOrder(o: KeyOrder)
    ensures TotalOrder(KeyLeq(o))
  {
    hide IsIndex;
    var leq := KeyLeq(o);
    forall a, b ensures leq(a, b) || leq(b, a) { TextLeqTotal(a, b); }
    forall a, b, c | leq(a, b) && leq(b, c) ensures leq(a, c) {
      if TextLeq(a, b) && TextLeq(b, c) { TextLeqTransitive(a, b, c); }
    }
    forall a, b | leq(a, b) && leq(b, a) ensures a == b {
      if IsIndex(a) && IsIndex(b) && o == OwnProperties { SameIndex(a, b); } else { TextLeqAntisymmetric(a, b); }
    }
  }

  lemma SameIndex(a: Text, b: Text)
    requires IsIndex(a) && IsIndex(b) && NatValue(a) == NatValue(b)
    ensures a == b
  {
  }

  function MemberLeq(o: KeyOrder): (Member, Member) -> bool { (m: Member, n: Member) => KeyBefore(o, m.key, n.key) }

  function DropUndefined(ms: seq<Member>): (r: seq<Member>)
    ensures forall m :: m in r <==> m in ms && !m.value.Undefined?
  {
    if ms == [] then []
    else
      assert ms == [ms[0]] + ms[1..];
      (if ms[0].value.Undefined? then [] else [ms[0]]) + DropUndefined(ms[1..])
  }

  lemma {:induction false} DroppingKeepsDistinct(ms: seq<Member>)
    requires DistinctKeys(ms)
    ensures DistinctKeys(DropUndefined(ms))
  {
    if ms != [] {
      DroppingKeepsDistinct(ms[1..]);
      var r := DropUndefined(ms[1..]);
      forall j | 0 <= j < |r| ensures r[j].key != ms[0].key { assert r[j] in ms[1..]; }
    }
  }

  /** The members that are written, in the order they are written. */
  function Written(o: KeyOrder, ms: seq<Member>): (r: seq<Member>)
    ensures forall m :: m in r <==> m in ms && !m.value.Undefined?
  {
    SortKeepsMembers(MemberLeq(o), DropUndefined(ms));
    SortBy(MemberLeq(o), DropUndefined(ms))
  }

  /** The text in an order of keys. An `undefined` array element renders as nothing, as `Array.join` does it. */
  function TextIn(o: KeyOrder, v: Value): Text
    decreases v, 1, 0
  {
    match v
    case Undefined => []
    case Null => Ascii("null")
    case Bool(b) => if b then Ascii("true") else Ascii("false")
    case Num(n) => NumberText(n)
    case Str(s) => Quote(s)
    case Arr(items) => [OPEN_BRACKET] + JoinItems(o, v, items) + [CLOSE_BRACKET]
    case Obj(ms) =>
      WrittenAreParts(o, v);
      [OPEN_BRACE] + JoinMembers(o, v, Written(o, ms)) + [CLOSE_BRACE]
  }

  /** Every value of the list is a proper part of `whole`. */
  ghost predicate PartsOf(whole: Value, items: seq<Value>) {
    forall i | 0 <= i < |items| :: items[i] < whole
  }

  ghost predicate MembersOf(whole: Value, ms: seq<Member>) {
    forall i | 0 <= i < |ms| :: ms[i].value < whole
  }

  lemma WrittenAreParts(o: KeyOrder, v: Value)
    requires v.Obj?
    ensures MembersOf(v, Written(o, v.members))
    ensures JsonShaped(v) ==> forall i | 0 <= i < |Written(o, v.members)| :: JsonShaped(Written(o, v.members)[i].value)
  {
    var w := Written(o, v.members);
    forall i | 0 <= i < |w| ensures w[i].value < v && (JsonShaped(v) ==> JsonShaped(w[i].value)) {
      assert w[i] in v.members;
    }
  }

  function JoinItems(o: KeyOrder, ghost whole: Value, items: seq<Value>): Text
    requires PartsOf(whole, items)
    decreases whole, 0, |items|
  {
    if items == [] then []
    else if |items| == 1 then TextIn(o, items[0])
    else TextIn(o, items[0]) + [COMMA] + JoinItems(o, whole, items[1..])
  }

  function JoinMembers(o: KeyOrder, ghost whole: Value, ms: seq<Member>): Text
    requires MembersOf(whole, ms)
    decreases whole, 0, |ms|
  {
    if ms == [] then []
    else
      var first := Quote(ms[0].key) + [COLON] + TextIn(o, ms[0].value);
      if |ms| == 1 then first else first + [COMMA] + JoinMembers(o, whole, ms[1..])
  }

  ghost function KeySet(ms: seq<Member>): set<Text> {
    set m | m in ms && !m.value.Undefined? :: m.key
  }

  /** Equality of JSON values up to the order of object keys, `undefined` members being absent. */
  ghost predicate SameUpToKeyOrder(a: Value, b: Value)
    decreases a
  {
    match a
    case Arr(xs) =>
      b.Arr? && |xs| == |b.items| && forall i | 0 <= i < |xs| :: SameUpToKeyOrder(xs[i], b.items[i])
    case Obj(ms) =>
      && b.Obj?
      && KeySet(ms) == KeySet(b.members)
      && forall m, n | m in ms && n in b.members && m.key == n.key && !m.value.Undefined? && !n.value.Undefined? ::
           SameUpToKeyOrder(m.value, n.value)
    case _ => a == b
  }

  lemma {:induction false} SameAsItself(v: Value)
    requires JsonShaped(v)
    ensures SameUpToKeyOrder(v, v)
    decreases v
  {
    match v
    case Arr(items) => forall i | 0 <= i < |items|
        ensures SameUpToKeyOrder(items[i], items[i]) { SameAsItself(items[i]); }
    case Obj(ms) =>
      forall m, n | m in ms && n in ms && m.key == n.key && !m.value.Undefined? && !n.value.Undefined?
          ensures SameUpToKeyOrder(m.value, n.value) {
        var i :| 0 <= i < |ms| && ms[i] == m;
        var j :| 0 <= j < |ms| && ms[j] == n;
        assert i == j;
        SameAsItself(m.value);
      }
    case _ =>
  }

  /** The member lists agree position by position. */
  ghost predicate SameListing(ms: seq<Member>, ns: seq<Member>) {
    && |ms| == |ns|
    && forall i | 0 <= i < |ms| :: ms[i].key == ns[i].key && SameUpToKeyOrder(ms[i].value, ns[i].value)
  }

  lemma MemberLeqIsPreorder(o: KeyOrder)
    ensures TotalPreorder(MemberLeq(o))
  {
    KeyLeqIsTotalOrder(o);
    hide KeyBefore;
    var leq, keys := MemberLeq(o), KeyLeq(o);
    forall m, n ensures leq(m, n) || leq(n, m) { assert keys(m.key, n.key) || keys(n.key, m.key); }
    forall l, m, n | leq(l, m) && leq(m, n) ensures leq(l, n) { assert keys(l.key, m.key) && keys(m.key, n.key); }
  }

  function KeysOf(ms: seq<Member>): (ks: seq<Text>)
    ensures |ks| == |ms| && forall i | 0 <= i < |ms| :: ks[i] == ms[i].key
  {
    seq(|ms|, i requires 0 <= i < |ms| => ms[i].key)
  }

  lemma {:induction false} DistinctKeepsUnderPermutation(ms: seq<Member>, ns: seq<Member>)
    requires multiset(ms) == multiset(ns) && DistinctKeys(ms)
    ensures DistinctKeys(ns)
  {
    forall i, j | 0 <= i < j < |ns| ensures ns[i].key != ns[j].key {
      if ns[i] == ns[j] {
        assert ns == ns[..j] + [ns[j]] + ns[j + 1..];
        assert ns[i] in ns[..j];
        assert multiset(ns)[ns[i]] >= 2;
        DistinctCountsOnce(ms, ns[i]);
      } else {
        assert ns[i] in multiset(ms) && ns[j] in multiset(ms);
      }
    }
  }

  lemma {:induction false} DistinctCountsOnce(ms: seq<Member>, m: Member)
    requires DistinctKeys(ms)
    ensures multiset(ms)[m] <= 1
  {
    if ms != [] {
      assert ms == [ms[0]] + ms[1..];
      DistinctCountsOnce(ms[1..], m);
      if m == ms[0] { assert m !in ms[1..]; }
    }
  }

  /** The written members carry distinct keys in ascending order. */
  lemma WrittenIsSorted(o: KeyOrder, ms: seq<Member>)
    requires DistinctKeys(ms)
    ensures DistinctKeys(Written(o, ms)) && SortedBy(KeyLeq(o), KeysOf(Written(o, ms)))
  {
    MemberLeqIsPreorder(o);
    SortSorts(MemberLeq(o), DropUndefined(ms));
    SortKeepsMultiset(MemberLeq(o), DropUndefined(ms));
    DroppingKeepsDistinct(ms);
    DistinctKeepsUnderPermutation(DropUndefined(ms), Written(o, ms));
  }

  lemma {:induction false} DistinctTextsAsMultiset(ks: seq<Text>, k: Text)
    requires forall i, j | 0 <= i < j < |ks| :: ks[i] != ks[j]
    ensures multiset(ks)[k] == if k in ks then 1 else 0
  {
    if ks != [] {
      assert ks == [ks[0]] + ks[1..];
      DistinctTextsAsMultiset(ks[1..], k);
      if k == ks[0] { assert k !in ks[1..]; }
    }
  }

  /** Written members with the same key set list the same keys in the same places. */
  lemma SameKeysSamePlaces(o: KeyOrder, ms: seq<Member>, ns: seq<Member>)
    requires DistinctKeys(ms) && DistinctKeys(ns) && KeySet(ms) == KeySet(ns)
    ensures KeysOf(Written(o, ms)) == KeysOf(Written(o, ns))
  {
    WrittenIsSorted(o, ms);
    WrittenIsSorted(o, ns);
    var p, q := KeysOf(Written(o, ms)), KeysOf(Written(o, ns));
    KeyInList(o, ms);
    KeyInList(o, ns);
    forall k ensures multiset(p)[k] == multiset(q)[k] {
      DistinctTextsAsMultiset(p, k);
      DistinctTextsAsMultiset(q, k);
    }
    assert multiset(p) == multiset(q);
    KeyLeqIsTotalOrder(o);
    SortedIsUnique(KeyLeq(o), p, q);
  }

  lemma KeyInList(o: KeyOrder, ms: seq<Member>)
    ensures forall k :: k in KeysOf(Written(o, ms)) <==> k in KeySet(ms)
  {
    var w := Written(o, ms);
    forall k | k in KeySet(ms) ensures k in KeysOf(w) {
      var m :| m in ms && !m.value.Undefined? && m.key == k;
      var i :| 0 <= i < |w| && w[i] == m;
      assert KeysOf(w)[i] == k;
    }
    forall k | k in KeysOf(w) ensures k in KeySet(ms) {
      var i :| 0 <= i < |w| && KeysOf(w)[i] == k;
      assert w[i] in ms;
    }
  }

  lemma SameObjectsListAlike(o: KeyOrder, a: Value, b: Value)
    requires a.Obj? && b.Obj? && DistinctKeys(a.members) && DistinctKeys(b.members)
    requires SameUpToKeyOrder(a, b)
    ensures SameListing(Written(o, a.members), Written(o, b.members))
  {
    var p, q := Written(o, a.members), Written(o, b.members);
    SameKeysSamePlaces(o, a.members, b.members);
    forall i | 0 <= i < |p| ensures p[i].key == q[i].key && SameUpToKeyOrder(p[i].value, q[i].value) {
      assert KeysOf(p)[i] == KeysOf(q)[i];
      assert p[i] in a.members && q[i] in b.members;
    }
  }

  lemma SameListingsAreSameObjects(o: KeyOrder, a: Value, b: Value)
    requires a.Obj? && b.Obj? && DistinctKeys(a.members) && DistinctKeys(b.members)
    requires SameListing(Written(o, a.members), Written(o, b.members))
    ensures SameUpToKeyOrder(a, b)
  {
    var p, q := Written(o, a.members), Written(o, b.members);
    WrittenIsSorted(o, a.members);
    KeyInList(o, a.members);
    KeyInList(o, b.members);
    assert KeysOf(p) == KeysOf(q);
    assert KeySet(a.members) == KeySet(b.members);
    forall m, n | m in a.members && n in b.members && m.key == n.key && !m.value.Undefined? && !n.value.Undefined?
      ensures SameUpToKeyOrder(m.value, n.value)
    {
      var i :| 0 <= i < |p| && p[i] == m;
      var j :| 0 <= j < |q| && q[j] == n;
      assert p[j].key == q[j].key;
      assert i == j;
    }
  }

  /** For objects, equality up to key order is agreement of the written listings. */
  lemma SameListingIsSame(o: KeyOrder, a: Value, b: Value)
    requires a.Obj? && b.Obj? && DistinctKeys(a.members) && DistinctKeys(b.members)
    ensures SameUpToKeyOrder(a, b) <==> SameListing(Written(o, a.members), Written(o, b.members))
  {
    if SameUpToKeyOrder(a, b) { SameObjectsListAlike(o, a, b); }
    if SameListing(Written(o, a.members), Written(o, b.members)) { SameListingsAreSameObjects(o, a, b); }
  }

  // ---- from equal values to equal texts ------------------------------------------------------

  lemma {:induction false} SameItemsSameText(o: KeyOrder, a: Value, xs: seq<Value>, b: Value, ys: seq<Value>)
    requires PartsOf(a, xs) && forall i | 0 <= i < |xs| :: JsonShaped(xs[i])
    requires PartsOf(b, ys) && forall i | 0 <= i < |ys| :: JsonShaped(ys[i])
    requires |xs| == |ys| && forall i | 0 <= i < |xs| :: SameUpToKeyOrder(xs[i], ys[i])
    ensures JoinItems(o, a, xs) == JoinItems(o, b, ys)
    decreases a, 0, |xs|
  {
    if xs != [] {
      SameValueSameTextIn(o, xs[0], ys[0]);
      SameItemsSameText(o, a, xs[1..], b, ys[1..]);
    }
  }

  lemma {:induction false} SameMembersSameText(o: KeyOrder, a: Value, ms: seq<Member>, b: Value, ns: seq<Member>)
    requires MembersOf(a, ms) && forall i | 0 <= i < |ms| :: JsonShaped(ms[i].value)
    requires MembersOf(b, ns) && forall i | 0 <= i < |ns| :: JsonShaped(ns[i].value)
    requires SameListing(ms, ns)
    ensures JoinMembers(o, a, ms) == JoinMembers(o, b, ns)
    decreases a, 0, |ms|
  {
    if ms != [] {
      assert ms[0].key == ns[0].key && SameUpToKeyOrder(ms[0].value, ns[0].value);
      SameValueSameTextIn(o, ms[0].value, ns[0].value);
      SameMembersSameText(o, a, ms[1..], b, ns[1..]);
    }
  }

  lemma {:induction false} SameValueSameTextIn(o: KeyOrder, a: Value, b: Value)
    requires JsonShaped(a) && JsonShaped(b) && SameUpToKeyOrder(a, b)
    ensures TextIn(o, a) == TextIn(o, b)
    decreases a, 1, 0
  {
    match a
    case Arr(xs) => SameItemsSameText(o, a, xs, b, b.items);
    case Obj(ms) =>
      SameListingIsSame(o, a, b);
      WrittenAreParts(o, a);
      WrittenAreParts(o, b);
      hide Written;
      SameMembersSameText(o, a, Written(o, ms), b, Written(o, b.members));
    case _ =>
  }

  // ---- from equal texts to equal values ------------------------------------------------------

  /** What can follow a value inside a canonical text. */
  predicate IsRest(x: Text) { x == [] || x[0] == COMMA || x[0] == CLOSE_BRACKET || x[0] == CLOSE_BRACE }

  datatype Kind = NullKind | TrueKind | FalseKind | NumberKind | StringKind | ArrayKind | ObjectKind | NoKind

  function KindOf(v: Value): Kind {
    match v
    case Undefined => NoKind
    case Null => NullKind
    case Bool(b) => if b then TrueKind else FalseKind
    case Num(_) => NumberKind
    case Str(_) => StringKind
    case Arr(_) => ArrayKind
    case Obj(_) => ObjectKind
  }

  function KindOfStart(c: Unit): Kind {
    if c == 110 then NullKind
    else if c == 116 then TrueKind
    else if c == 102 then FalseKind
    else if c == QUOTE then StringKind
    else if c == OPEN_BRACKET then ArrayKind
    else if c == OPEN_BRACE then ObjectKind
    else if c == MINUS || IsDigit(c) then NumberKind
    else NoKind
  }

  /** The first code unit of a canonical text says what kind of value it is. */
  lemma StartTellsKind(o: KeyOrder, v: Value, x: Text)
    requires JsonShaped(v)
    ensures TextIn(o, v) != [] && (TextIn(o, v) + x)[0] == TextIn(o, v)[0]
    ensures KindOfStart(TextIn(o, v)[0]) == KindOf(v) != NoKind
  {
    match v
    case Num(n) => NumberTextUnits(n);
    case Arr(items) => assert TextIn(o, v)[0] == OPEN_BRACKET;
    case Obj(ms) => assert TextIn(o, v)[0] == OPEN_BRACE;
    case _ =>
  }

  lemma NumberCancel(m: JsNumber, x: Text, n: JsNumber, y: Text)
    requires IsRest(x) && IsRest(y)
    requires NumberText(m) + x == NumberText(n) + y
    ensures m == n && x == y
  {
    var s, t := NumberText(m), NumberText(n);
    NumberTextUnits(m);
    NumberTextUnits(n);
    assert forall i | 0 <= i < |s| :: IsNumberUnit((s + x)[i]);
    assert forall i | 0 <= i < |t| :: IsNumberUnit((t + y)[i]);
    assert x != [] ==> (s + x)[|s|] == x[0];
    assert y != [] ==> (t + y)[|t|] == y[0];
    assert |s| <= |t| && |t| <= |s|;
    CancelPrefix(s, x, t, y);
    NumberTextInjective(m, n);
  }

  /** The items of an array, its closing bracket and what follows, grouped from the right. */
  ghost function ItemsBody(o: KeyOrder, a: Value, items: seq<Value>, x: Text): (t: Text)
    requires PartsOf(a, items)
    ensures t != []
    decreases |items|
  {
    if items == [] then [CLOSE_BRACKET] + x
    else TextIn(o, items[0]) + AfterItem(o, a, items, x)
  }

  ghost function AfterItem(o: KeyOrder, a: Value, items: seq<Value>, x: Text): (t: Text)
    requires items != [] && PartsOf(a, items)
    ensures t != [] && IsRest(t)
    decreases |items|, 0
  {
    if |items| == 1 then [CLOSE_BRACKET] + x else [COMMA] + ItemsBody(o, a, items[1..], x)
  }

  lemma {:induction false} JoinedItems(o: KeyOrder, a: Value, items: seq<Value>, x: Text)
    requires PartsOf(a, items)
    ensures JoinItems(o, a, items) + ([CLOSE_BRACKET] + x) == ItemsBody(o, a, items, x)
    decreases |items|
  {
    if |items| > 1 { JoinedItems(o, a, items[1..], x); }
  }

  lemma ArrayText(o: KeyOrder, a: Value, x: Text)
    requires a.Arr?
    ensures PartsOf(a, a.items) && TextIn(o, a) + x == [OPEN_BRACKET] + ItemsBody(o, a, a.items, x)
  {
    JoinedItems(o, a, a.items, x);
    assert TextIn(o, a) + x == [OPEN_BRACKET] + (JoinItems(o, a, a.items) + ([CLOSE_BRACKET] + x));
  }

  lemma BodyStart(o: KeyOrder, a: Value, items: seq<Value>, x: Text)
    requires PartsOf(a, items) && forall i | 0 <= i < |items| :: JsonShaped(items[i])
    ensures items == [] <==> KindOfStart(ItemsBody(o, a, items, x)[0]) == NoKind
  {
    if items != [] { StartTellsKind(o, items[0], AfterItem(o, a, items, x)); }
  }

  lemma {:induction false} ReadItems(o: KeyOrder, a: Value, xs: seq<Value>, x: Text, b: Value, ys: seq<Value>, y: Text)
    requires PartsOf(a, xs) && forall i | 0 <= i < |xs| :: JsonShaped(xs[i])
    requires PartsOf(b, ys) && forall i | 0 <= i < |ys| :: JsonShaped(ys[i])
    requires ItemsBody(o, a, xs, x) == ItemsBody(o, b, ys, y)
    ensures |xs| == |ys| && x == y
    ensures forall i | 0 <= i < |xs| :: SameUpToKeyOrder(xs[i], ys[i])
    decreases a, 0, |xs|
  {
    BodyStart(o, a, xs, x);
    BodyStart(o, b, ys, y);
    if xs == [] {
      CancelPrefix([CLOSE_BRACKET], x, [CLOSE_BRACKET], y);
    } else {
      var r, s := AfterItem(o, a, xs, x), AfterItem(o, b, ys, y);
      ReadValue(o, xs[0], r, ys[0], s);
      if |xs| == 1 {
        assert |ys| == 1 by { assert s[0] == CLOSE_BRACKET; }
        CancelPrefix([CLOSE_BRACKET], x, [CLOSE_BRACKET], y);
      } else {
        assert |ys| > 1 by { assert s[0] == COMMA; }
        CancelPrefix([COMMA], ItemsBody(o, a, xs[1..], x), [COMMA], ItemsBody(o, b, ys[1..], y));
        ReadItems(o, a, xs[1..], x, b, ys[1..], y);
        assert forall i | 0 < i < |xs| :: xs[i] == xs[1..][i - 1] && ys[i] == ys[1..][i - 1];
      }
    }
  }

  /** The members of an object, its closing brace and what follows, grouped from the right. */
  ghost function MembersBody(o: KeyOrder, a: Value, ms: seq<Member>, x: Text): (t: Text)
    requires MembersOf(a, ms)
    ensures t != [] && t[0] == if ms == [] then CLOSE_BRACE else QUOTE
    decreases |ms|
  {
    if ms == [] then [CLOSE_BRACE] + x
    else Quote(ms[0].key) + ([COLON] + (TextIn(o, ms[0].value) + AfterMember(o, a, ms, x)))
  }

  ghost function AfterMember(o: KeyOrder, a: Value, ms: seq<Member>, x: Text): (t: Text)
    requires ms != [] && MembersOf(a, ms)
    ensures t != [] && IsRest(t)
    decreases |ms|, 0
  {
    if |ms| == 1 then [CLOSE_BRACE] + x else [COMMA] + MembersBody(o, a, ms[1..], x)
  }

  lemma {:induction false} JoinedMembers(o: KeyOrder, a: Value, ms: seq<Member>, x: Text)
    requires MembersOf(a, ms)
    ensures JoinMembers(o, a, ms) + ([CLOSE_BRACE] + x) == MembersBody(o, a, ms, x)
    decreases |ms|
  {
    if ms != [] {
      var k, v := Quote(ms[0].key), TextIn(o, ms[0].value);
      var r := if |ms| == 1 then [] else [COMMA] + JoinMembers(o, a, ms[1..]);
      var y := [CLOSE_BRACE] + x;
      assert r + y == AfterMember(o, a, ms, x) by {
        if |ms| > 1 {
          JoinedMembers(o, a, ms[1..], x);
          Regroup([COMMA], JoinMembers(o, a, ms[1..]), y);
        }
      }
      assert JoinMembers(o, a, ms) == k + [COLON] + v + r by {
        if |ms| == 1 { assert k + [COLON] + v + [] == k + [COLON] + v; }
        else { Regroup(k + [COLON] + v, [COMMA], JoinMembers(o, a, ms[1..])); }
      }
      Regroup(k + [COLON] + v, r, y);
      Regroup(k + [COLON], v, r + y);
      Regroup(k, [COLON], v + (r + y));
    }
  }

  lemma {:induction false} ReadMembers(o: KeyOrder, a: Value, ms: seq<Member>, x: Text, b: Value, ns: seq<Member>,
                                       y: Text)
    requires MembersOf(a, ms) && forall i | 0 <= i < |ms| :: JsonShaped(ms[i].value)
    requires MembersOf(b, ns) && forall i | 0 <= i < |ns| :: JsonShaped(ns[i].value)
    requires MembersBody(o, a, ms, x) == MembersBody(o, b, ns, y)
    ensures SameListing(ms, ns) && x == y
    decreases a, 0, |ms|
  {
    hide SameUpToKeyOrder;
    hide JsonShaped;
    hide TextIn;
    hide Quote;
    if ms == [] {
      CancelPrefix([CLOSE_BRACE], x, [CLOSE_BRACE], y);
    } else {
      var r, s := AfterMember(o, a, ms, x), AfterMember(o, b, ns, y);
      var u, v := TextIn(o, ms[0].value) + r, TextIn(o, ns[0].value) + s;
      QuoteCancel(ms[0].key, [COLON] + u, ns[0].key, [COLON] + v);
      CancelPrefix([COLON], u, [COLON], v);
      ReadValue(o, ms[0].value, r, ns[0].value, s);
      if |ms| == 1 {
        assert |ns| == 1 by { assert s[0] == CLOSE_BRACE; }
        CancelPrefix([CLOSE_BRACE], x, [CLOSE_BRACE], y);
      } else {
        assert |ns| > 1 by { assert s[0] == COMMA; }
        CancelPrefix([COMMA], MembersBody(o, a, ms[1..], x), [COMMA], MembersBody(o, b, ns[1..], y));
        ReadMembers(o, a, ms[1..], x, b, ns[1..], y);
        assert forall i | 0 < i < |ms| :: ms[i] == ms[1..][i - 1] && ns[i] == ns[1..][i - 1];
      }
    }
  }

  /** The body of an object text after its opening brace. */
  ghost function ObjectBody(o: KeyOrder, a: Value, x: Text): Text
    requires a.Obj?
  {
    WrittenAreParts(o, a);
    MembersBody(o, a, Written(o, a.members), x)
  }

  lemma ObjectText(o: KeyOrder, a: Value, x: Text)
    requires a.Obj?
    ensures TextIn(o, a) + x == [OPEN_BRACE] + ObjectBody(o, a, x)
  {
    WrittenAreParts(o, a);
    JoinedMembers(o, a, Written(o, a.members), x);
    var j := JoinMembers(o, a, Written(o, a.members));
    Regroup([OPEN_BRACE] + j, [CLOSE_BRACE], x);
    Regroup([OPEN_BRACE], j, [CLOSE_BRACE] + x);
  }

  lemma {:induction false} ReadObject(o: KeyOrder, a: Value, x: Text, b: Value, y: Text)
    requires JsonShaped(a) && JsonShaped(b) && a.Obj? && b.Obj?
    requires ObjectBody(o, a, x) == ObjectBody(o, b, y)
    ensures SameListing(Written(o, a.members), Written(o, b.members)) && x == y
    decreases a, 1, 0
  {
    WrittenAreParts(o, a);
    WrittenAreParts(o, b);
    ReadMembers(o, a, Written(o, a.members), x, b, Written(o, b.members), y);
  }

  /** Canonical texts are self-delimiting: a value and what follows it can both be recovered. */
  lemma {:induction false} ReadValue(o: KeyOrder, a: Value, x: Text, b: Value, y: Text)
    requires JsonShaped(a) && JsonShaped(b) && IsRest(x) && IsRest(y)
    requires TextIn(o, a) + x == TextIn(o, b) + y
    ensures SameUpToKeyOrder(a, b) && x == y
    decreases a, 2, 0
  {
    StartTellsKind(o, a, x);
    StartTellsKind(o, b, y);
    match a
    case Null => CancelPrefix(TextIn(o, a), x, TextIn(o, b), y);
    case Bool(_) => CancelPrefix(TextIn(o, a), x, TextIn(o, b), y);
    case Num(n) => NumberCancel(n, x, b.n, y);
    case Str(s) => QuoteCancel(s, x, b.s, y);
    case Arr(xs) =>
      ArrayText(o, a, x);
      ArrayText(o, b, y);
      CancelPrefix([OPEN_BRACKET], ItemsBody(o, a, xs, x), [OPEN_BRACKET], ItemsBody(o, b, b.items, y));
      ReadItems(o, a, xs, x, b, b.items, y);
    case Obj(_) =>
      ObjectText(o, a, x);
      ObjectText(o, b, y);
      CancelPrefix([OPEN_BRACE], ObjectBody(o, a, x), [OPEN_BRACE], ObjectBody(o, b, y));
      ReadObject(o, a, x, b, y);
      SameListingIsSame(o, a, b);
  }

  /** In either order of keys, equality of the texts is structural equality up to key order. */
  lemma TextIsIdentity(o: KeyOrder, a: Value, b: Value)
    requires JsonShaped(a) && JsonShaped(b)
    ensures TextIn(o, a) == TextIn(o, b) <==> SameUpToKeyOrder(a, b)
  {
    if SameUpToKeyOrder(a, b) { SameValueSameTextIn(o, a, b); }
    if TextIn(o, a) == TextIn(o, b) {
      assert TextIn(o, a) + [] == TextIn(o, b) + [];
      ReadValue(o, a, [], b, []);
    }
  }

  // ---- canonicalJson -------------------------------------------------------------------------

  function Canonical(v: Value): Text { TextIn(CodeUnits, v) }

  lemma SameValueSameText(a: Value, b: Value)
    requires JsonShaped(a) && JsonShaped(b) && SameUpToKeyOrder(a, b)
    ensures Canonical(a) == Canonical(b)
  {
    SameValueSameTextIn(CodeUnits, a, b);
  }

  /** Byte comparison of canonical texts is structural equality up to key order. */
  lemma CanonicalTextIsIdentity(a: Value, b: Value)
    requires JsonShaped(a) && JsonShaped(b)
    ensures Canonical(a) == Canonical(b) <==> SameUpToKeyOrder(a, b)
  {
    TextIsIdentity(CodeUnits, a, b);
  }

  /** Outside JSON the comparison is blind: `[undefined]` is written like the empty array. */
  lemma UndefinedElementCollides()
    ensures Canonical(Arr([Undefined])) == Canonical(Arr([]))
    ensures !SameUpToKeyOrder(Arr([Undefined]), Arr([]))
  {
  }
}
