/** `stableStringify`, and what equality of its texts means. */
module StableJson {
  import opened CanonicalJson
  import opened Sorting
  import opened Texts

  // src/modules/evaluator/snapshot.ts. An object is rebuilt key by key; assigning to `__proto__` sets the prototype and
  // leaves no member behind.

  function Proto(): Text { Ascii("__proto__") }

  /** `out[key] = value` for a key that is new to `out`: array indexes are listed first and ascending, other keys last.
      */
  function Assigned(out: seq<Member>, m: Member): seq<Member> {
    if m.key == Proto() then out else if IsIndex(m.key) then Insert(MemberLeq(OwnProperties), m, out) else out + [m]
  }

  /** The value without its `__proto__` members, at any depth. */
  function Plain(v: Value): (r: Value)
    ensures r.Undefined? <==> v.Undefined?
    decreases v, 1, 0
  {
    match v
    case Arr(items) => Arr(PlainItems(v, items))
    case Obj(ms) =>
      assert forall i | 0 <= i < |ms| :: ms[i].value < v;
      Obj(PlainMembers(v, ms))
    case _ => v
  }

  function PlainItems(ghost whole: Value, items: seq<Value>): (r: seq<Value>)
    requires PartsOf(whole, items)
    ensures |r| == |items|
    decreases whole, 0, |items|
  {
    if items == [] then [] else [Plain(items[0])] + PlainItems(whole, items[1..])
  }

  function PlainMembers(ghost whole: Value, ms: seq<Member>): seq<Member>
    requires MembersOf(whole, ms)
    decreases whole, 0, |ms|
  {
    if ms == [] then []
    else (if ms[0].key == Proto() then [] else [Member(ms[0].key, Plain(ms[0].value))]) + PlainMembers(whole, ms[1..])
  }

  /** `JSON.stringify(sortKeys(v))`: the members are written in the order of own properties. */
  function StableText(v: Value): Text { TextIn(OwnProperties, Plain(v)) }

  // ---- what becomes of the members -----------------------------------------------------------

  lemma {:induction false} PlainMembersMeaning(whole: Value, ms: seq<Member>)
    requires MembersOf(whole, ms)
    ensures forall n :: n in PlainMembers(whole, ms) <==> exists m ::
        m in ms && m.key != Proto() && n == Member(m.key, Plain(m.value))
    decreases |ms|
  {
    if ms != [] {
      PlainMembersMeaning(whole, ms[1..]);
      assert ms == [ms[0]] + ms[1..];
      hide Plain;
      hide Proto;
    }
  }

  lemma {:induction false} PlainMembersDistinct(whole: Value, ms: seq<Member>)
    requires MembersOf(whole, ms) && DistinctKeys(ms)
    ensures DistinctKeys(PlainMembers(whole, ms))
    decreases |ms|
  {
    if ms != [] {
      var rest := ms[1..];
      PlainMembersDistinct(whole, rest);
      PlainMembersMeaning(whole, rest);
      hide Plain;
      hide Proto;
      var ns := PlainMembers(whole, rest);
      forall j | 0 <= j < |ns| ensures ns[j].key != ms[0].key {
        assert ns[j] in ns;
        var m :| m in rest && ns[j].key == m.key;
        var i :| 0 <= i < |rest| && rest[i] == m;
        assert ms[i + 1] == m;
      }
    }
  }

  lemma {:induction false} PlainItemsAre(whole: Value, items: seq<Value>)
    requires PartsOf(whole, items)
    ensures forall i | 0 <= i < |items| :: PlainItems(whole, items)[i] == Plain(items[i])
    decreases |items|
  {
    if items != [] {
      PlainItemsAre(whole, items[1..]);
      hide Plain;
    }
  }

  lemma {:induction false} PlainIsJson(v: Value)
    requires JsonShaped(v)
    ensures JsonShaped(Plain(v))
    decreases v
  {
    match v
    case Arr(items) =>
      PlainItemsAre(v, items);
      var r := PlainItems(v, items);
      forall x | x in r ensures JsonShaped(x) {
        var i :| 0 <= i < |r| && r[i] == x;
        PlainIsJson(items[i]);
      }
    case Obj(ms) =>
      assert forall i | 0 <= i < |ms| :: ms[i].value < v;
      PlainMembersDistinct(v, ms);
      PlainMembersMeaning(v, ms);
      var ns := PlainMembers(v, ms);
      forall n | n in ns ensures n.value.Undefined? || JsonShaped(n.value) {
        var m :| m in ms && n == Member(m.key, Plain(m.value));
        if !m.value.Undefined? { PlainIsJson(m.value); }
      }
    case _ =>
  }

  /** Two JSON values have one stable text exactly when they are the same up to key order, `__proto__` members apart. */
  lemma StableTextMeaning(a: Value, b: Value)
    requires JsonShaped(a) && JsonShaped(b)
    ensures StableText(a) == StableText(b) <==> SameUpToKeyOrder(Plain(a), Plain(b))
  {
    PlainIsJson(a);
    PlainIsJson(b);
    TextIsIdentity(OwnProperties, Plain(a), Plain(b));
  }

  /** A `__proto__` member does not show in the text. */
  lemma ProtoDoesNotShow(v: Value)
    requires v != Undefined
    ensures StableText(Obj([Member(Proto(), v)])) == StableText(Obj([]))
    ensures !SameUpToKeyOrder(Obj([Member(Proto(), v)]), Obj([]))
  {
    var ms := [Member(Proto(), v)];
    assert PlainMembers(Obj(ms), ms) == PlainMembers(Obj(ms), ms[1..]);
    assert ms[0] in ms && Proto() in KeySet(ms);
  }

  /** No object of the value has a `__proto__` member. */
  predicate NoProto(v: Value) {
    match v
    case Arr(items) => forall x | x in items :: NoProto(x)
    case Obj(ms) => forall m | m in ms :: m.key != Proto() && NoProto(m.value)
    case _ => true
  }

  lemma {:induction false} PlainIsSame(v: Value)
    requires NoProto(v)
    ensures Plain(v) == v
    decreases v, 1, 0
  {
    match v
    case Arr(items) => PlainItemsSame(v, items);
    case Obj(ms) =>
      assert forall i | 0 <= i < |ms| :: ms[i].value < v;
      PlainMembersSame(v, ms);
    case _ =>
  }

  lemma {:induction false} PlainItemsSame(whole: Value, items: seq<Value>)
    requires PartsOf(whole, items) && forall x | x in items :: NoProto(x)
    ensures PlainItems(whole, items) == items
    decreases whole, 0, |items|
  {
    if items != [] {
      PlainIsSame(items[0]);
      PlainItemsSame(whole, items[1..]);
    }
  }

  lemma {:induction false} PlainMembersSame(whole: Value, ms: seq<Member>)
    requires MembersOf(whole, ms) && forall m | m in ms :: m.key != Proto() && NoProto(m.value)
    ensures PlainMembers(whole, ms) == ms
    decreases whole, 0, |ms|
  {
    hide Proto;
    if ms != [] {
      assert ms[0] in ms;
      PlainIsSame(ms[0].value);
      PlainMembersSame(whole, ms[1..]);
    }
  }

  // ---- the loop ------------------------------------------------------------------------------

  /** The members of every object are listed in the order of own properties. */
  ghost predicate InOwnOrder(v: Value) {
    match v
    case Arr(items) => forall x | x in items :: InOwnOrder(x)
    case Obj(ms) => SortedBy(MemberLeq(OwnProperties), ms) && forall m | m in ms :: InOwnOrder(m.value)
    case _ => true
  }

  /** `r` is what a value becomes. */
  ghost predicate BecomesValue(v: Value, r: Value) {
    if v.Undefined? then r.Undefined? else JsonShaped(r) && SameUpToKeyOrder(Plain(v), r) && InOwnOrder(r)
  }

  /** The object after some keys: one member for each of them other than `__proto__`, in order. */
  ghost predicate Filled(ms: seq<Member>, keys: seq<Text>, out: seq<Member>) {
    && DistinctKeys(out) && SortedBy(MemberLeq(OwnProperties), out)
    && (forall m | m in out :: m.key in keys && m.key != Proto() && BecomesValue(Find(ms, m.key), m.value))
    && forall k | k in keys && k != Proto() :: k in KeysOf(out)
  }

  /** `out` with one more member, still in order. */
  ghost predicate OneMore(out: seq<Member>, m: Member, after: seq<Member>) {
    SortedBy(MemberLeq(OwnProperties), after) && DistinctKeys(after) && forall x :: x in after <==> x in out || x == m
  }

  lemma InsertedInOrder(out: seq<Member>, m: Member)
    requires SortedBy(MemberLeq(OwnProperties), out) && DistinctKeys(out) && forall x | x in out :: x.key != m.key
    ensures OneMore(out, m, Insert(MemberLeq(OwnProperties), m, out))
  {
    var leq := MemberLeq(OwnProperties);
    hide KeyBefore;
    hide IsIndex;
    MemberLeqIsPreorder(OwnProperties);
    InsertSorts(leq, m, out);
    InsertKeepsMultiset(leq, m, out);
    AppendedDistinct(out, m);
    hide MemberLeq;
    var after := Insert(leq, m, out);
    hide Insert;
    assert multiset(out + [m]) == multiset(after);
    DistinctKeepsUnderPermutation(out + [m], after);
    forall x ensures x in after <==> x in out || x == m { assert x in multiset(after) <==> x in multiset(out + [m]); }
  }

  lemma AppendedInOrder(out: seq<Member>, m: Member)
    requires SortedBy(MemberLeq(OwnProperties), out) && DistinctKeys(out) && !IsIndex(m.key) && forall x | x in out ::
        TextLeq(x.key, m.key) && x.key != m.key
    ensures OneMore(out, m, out + [m])
  {
    AppendedDistinct(out, m);
    forall i | 0 <= i < |out| ensures KeyBefore(OwnProperties, out[i].key, m.key) { assert out[i] in out; }
    hide IsIndex;
    hide TextLeq;
    hide KeyBefore;
  }

  /** Assigning a key greater than those before it keeps the order. */
  lemma AssignedInOrder(out: seq<Member>, m: Member)
    requires SortedBy(MemberLeq(OwnProperties), out) && DistinctKeys(out) && forall x | x in out ::
        TextLeq(x.key, m.key) && x.key != m.key
    ensures if m.key == Proto() then Assigned(out, m) == out else OneMore(out, m, Assigned(out, m))
  {
    hide OneMore;
    hide Proto;
    if m.key != Proto() {
      if IsIndex(m.key) { InsertedInOrder(out, m); } else { AppendedInOrder(out, m); }
    }
  }

  lemma AppendedDistinct(out: seq<Member>, m: Member)
    requires DistinctKeys(out) && forall x | x in out :: x.key != m.key
    ensures DistinctKeys(out + [m])
  {
    forall i | 0 <= i < |out| ensures out[i].key != m.key { assert out[i] in out; }
  }

  lemma FilledStep(ms: seq<Member>, keys: seq<Text>, out: seq<Member>, key: Text, value: Value)
    requires Filled(ms, keys, out) && BecomesValue(Find(ms, key), value) && forall k | k in keys ::
        TextLeq(k, key) && k != key
    ensures Filled(ms, keys + [key], Assigned(out, Member(key, value)))
  {
    hide BecomesValue;
    hide Find;
    hide Proto;
    var m := Member(key, value);
    var after := Assigned(out, m);
    AssignedInOrder(out, m);
    hide Assigned;
    forall k | k in keys + [key] && k != Proto() ensures k in KeysOf(after) {
      if k == key { InKeys(after, m); } else {
        var i :| 0 <= i < |out| && KeysOf(out)[i] == k;
        assert out[i] in out;
        InKeys(after, out[i]);
      }
    }
  }

  lemma InKeys(ms: seq<Member>, m: Member)
    requires m in ms
    ensures m.key in KeysOf(ms)
  {
    var i :| 0 <= i < |ms| && ms[i] == m;
    assert KeysOf(ms)[i] == m.key;
  }

  /** The member a filled member comes from. */
  lemma SourceOf(ms: seq<Member>, keys: seq<Text>, out: seq<Member>, m: Member) returns (source: Member)
    requires DistinctKeys(ms) && Filled(ms, keys, out) && m in out && forall k | k in keys :: k in KeysOf(ms)
    ensures source in ms && source.key == m.key && m.key != Proto() && BecomesValue(source.value, m.value)
  {
    hide BecomesValue;
    hide Proto;
    var i :| 0 <= i < |ms| && KeysOf(ms)[i] == m.key;
    FindAt(ms, i);
    source := ms[i];
  }

  /** What a member has become. */
  lemma TargetOf(ms: seq<Member>, keys: seq<Text>, out: seq<Member>, source: Member) returns (m: Member)
    requires DistinctKeys(ms) && Filled(ms, keys, out) && source in ms && source.key in keys && source.key != Proto()
    ensures m in out && m.key == source.key && BecomesValue(source.value, m.value)
  {
    hide BecomesValue;
    hide Proto;
    var i :| 0 <= i < |ms| && ms[i] == source;
    FindAt(ms, i);
    var j :| 0 <= j < |out| && KeysOf(out)[j] == source.key;
    m := out[j];
  }

  lemma SameDefinedKeys(v: Value, keys: seq<Text>, out: seq<Member>)
    requires v.Obj? && MembersOf(v, v.members) && DistinctKeys(v.members) && Filled(v.members, keys, out)
    requires forall k :: k in keys <==> k in KeysOf(v.members)
    ensures KeySet(PlainMembers(v, v.members)) == KeySet(out)
  {
    var ms, ns := v.members, PlainMembers(v, v.members);
    PlainMembersMeaning(v, ms);
    forall k | k in KeySet(ns) ensures k in KeySet(out) {
      var n :| n in ns && !n.value.Undefined? && n.key == k;
      var source :| source in ms && source.key != Proto() && n == Member(source.key, Plain(source.value));
      InKeys(ms, source);
      var m := TargetOf(ms, keys, out, source);
      DefinedAlike(source.value, m.value);
    }
    forall k | k in KeySet(out) ensures k in KeySet(ns) {
      var m :| m in out && !m.value.Undefined? && m.key == k;
      var source := SourceOf(ms, keys, out, m);
      DefinedAlike(source.value, m.value);
      assert Member(source.key, Plain(source.value)) in ns;
    }
    hide *;
  }

  lemma DefinedAlike(v: Value, r: Value)
    requires BecomesValue(v, r)
    ensures v.Undefined? <==> r.Undefined?
  {
  }

  lemma PlainMeetsOut(v: Value, keys: seq<Text>, out: seq<Member>, n: Member, m: Member)
    requires v.Obj? && MembersOf(v, v.members) && DistinctKeys(v.members) && Filled(v.members, keys, out)
    requires forall k :: k in keys <==> k in KeysOf(v.members)
    requires n in PlainMembers(v, v.members) && m in out && n.key == m.key && !n.value.Undefined? && !m.value.Undefined?
    ensures SameUpToKeyOrder(n.value, m.value)
  {
    PlainMembersMeaning(v, v.members);
    hide PlainMembers;
    hide SameUpToKeyOrder;
    var source := SourceOf(v.members, keys, out, m);
    hide Filled;
    var other :| other in v.members && n == Member(other.key, Plain(other.value));
    assert other == source by { SameKeySameMember(v.members, other, source); }
  }

  lemma SameKeySameMember(ms: seq<Member>, m: Member, n: Member)
    requires DistinctKeys(ms) && m in ms && n in ms && m.key == n.key
    ensures m == n
  {
    var i :| 0 <= i < |ms| && ms[i] == m;
    var j :| 0 <= j < |ms| && ms[j] == n;
    assert i == j;
  }

  lemma FilledIsSame(v: Value, keys: seq<Text>, out: seq<Member>)
    requires JsonShaped(v) && v.Obj? && Filled(v.members, keys, out) && forall k ::
        k in keys <==> k in KeysOf(v.members)
    ensures SameUpToKeyOrder(Plain(v), Obj(out))
  {
    assert MembersOf(v, v.members);
    var ns := PlainMembers(v, v.members);
    assert Plain(v) == Obj(ns);
    hide Plain;
    hide PlainMembers;
    hide JsonShaped;
    SameDefinedKeys(v, keys, out);
    forall n, m | n in ns && m in out && n.key == m.key && !n.value.Undefined? && !m.value.Undefined?
        ensures SameUpToKeyOrder(n.value, m.value) {
      PlainMeetsOut(v, keys, out, n, m);
    }
    hide Filled;
  }

  lemma FilledIsShaped(ms: seq<Member>, keys: seq<Text>, out: seq<Member>)
    requires Filled(ms, keys, out)
    ensures JsonShaped(Obj(out)) && InOwnOrder(Obj(out))
  {
    hide SameUpToKeyOrder;
    hide Plain;
  }

  lemma FilledIsPlain(v: Value, keys: seq<Text>, out: seq<Member>)
    requires JsonShaped(v) && v.Obj? && Filled(v.members, keys, out) && forall k ::
        k in keys <==> k in KeysOf(v.members)
    ensures BecomesValue(v, Obj(out))
  {
    FilledIsSame(v, keys, out);
    FilledIsShaped(v.members, keys, out);
    hide SameUpToKeyOrder;
    hide Plain;
    hide Filled;
    hide JsonShaped;
    hide InOwnOrder;
  }

  method SortKeys(v: Value) returns (r: Value)
    requires v.Undefined? || JsonShaped(v)
    ensures BecomesValue(v, r)
    decreases v, 1, 0
  {
    match v {
      case Arr(items) =>
        var out := SortItems(v, items);
        ItemsBecome(v, items, out);
        r := Arr(out);
      case Obj(ms) =>
        var keys := SortBy(TextLeq, KeysOf(ms));
        KeysInOrder(ms, keys);
        var out: seq<Member> := [];
        for i := 0 to |keys|
          invariant Filled(ms, keys[..i], out)
        {
          var value := Find(ms, keys[i]);
          FoundInside(v, keys[i]);
          var child := SortKeys(value);
          assert keys[..i + 1] == keys[..i] + [keys[i]];
          FilledStep(ms, keys[..i], out, keys[i], child);
          out := Assigned(out, Member(keys[i], child));
        }
        assert keys[..|keys|] == keys;
        FilledIsPlain(v, keys, out);
        r := Obj(out);
      case _ => r := v;
    }
  }

  method SortItems(ghost whole: Value, items: seq<Value>) returns (out: seq<Value>)
    requires PartsOf(whole, items) && forall x | x in items :: JsonShaped(x)
    ensures |out| == |items| && forall i | 0 <= i < |items| :: BecomesValue(items[i], out[i])
    decreases whole, 0
  {
    out := [];
    for i := 0 to |items|
      invariant |out| == i && forall j | 0 <= j < i :: BecomesValue(items[j], out[j])
    {
      hide BecomesValue;
      var x := SortKeys(items[i]);
      out := out + [x];
    }
  }

  lemma ItemsBecome(v: Value, items: seq<Value>, out: seq<Value>)
    requires v == Arr(items) && JsonShaped(v) && |out| == |items| && forall i | 0 <= i < |items| ::
        BecomesValue(items[i], out[i])
    ensures BecomesValue(v, Arr(out))
  {
    PlainItemsAre(v, items);
    forall x | x in out ensures JsonShaped(x) && InOwnOrder(x) {
      var i :| 0 <= i < |out| && out[i] == x;
      assert items[i] in items;
    }
  }

  lemma FoundInside(v: Value, key: Text)
    requires v.Obj? && JsonShaped(v) && key in KeysOf(v.members)
    ensures var r := Find(v.members, key); (r.Undefined? || JsonShaped(r)) && r < v
  {
    var i :| 0 <= i < |v.members| && KeysOf(v.members)[i] == key;
    FindAt(v.members, i);
    assert v.members[i] in v.members;
  }

  lemma KeysInOrder(ms: seq<Member>, keys: seq<Text>)
    requires DistinctKeys(ms) && keys == SortBy(TextLeq, KeysOf(ms))
    ensures Filled(ms, [], []) && forall k :: k in keys <==> k in KeysOf(ms)
    ensures forall i, j | 0 <= j < i < |keys| :: TextLeq(keys[j], keys[i]) && keys[j] != keys[i]
  {
    TextLeqIsTotalOrder();
    SortSorts(TextLeq, KeysOf(ms));
    SortKeepsMembers(TextLeq, KeysOf(ms));
    SortKeepsMultiset(TextLeq, KeysOf(ms));
    hide TextLeq;
    var p := FindPermutation(keys, KeysOf(ms));
    forall i, j | 0 <= j < i < |keys| ensures keys[j] != keys[i] {
      assert keys[i] == KeysOf(ms)[p[i]] && keys[j] == KeysOf(ms)[p[j]] && p[i] != p[j];
    }
  }

  /** The text of the rebuilt value, its members written as they are listed. */
  method StableStringify(v: Value) returns (text: Text)
    requires JsonShaped(v)
    ensures text == StableText(v)
  {
    var out := SortKeys(v);
    PlainIsJson(v);
    SameValueSameTextIn(OwnProperties, Plain(v), out);
    text := TextIn(OwnProperties, out);
  }
}
