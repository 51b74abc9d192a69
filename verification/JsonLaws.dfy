/** What JSON texts say, read by rules of their own. */
module JsonLaws {
  import opened CanonicalJson
  import opened JsonText
  import opened Numerals
  import opened Sorting
  import opened Texts

  // Section 7 of RFC 8259 read from the side of the reader, the value of a decimal numeral, and the order of keys:
  // none of it uses how the texts are made.

  // ---- strings -------------------------------------------------------------------------------

  function HexValue(c: Unit): int { if IsDigit(c) then c - ZERO else c - 87 }

  /** The code unit a short escape stands for. */
  function ShortEscape(c: Unit): Unit {
    if c == 98 then 8
    else if c == 116 then 9
    else if c == 110 then 10
    else if c == 102 then 12
    else if c == 114 then 13
    else c
  }

  /** The code unit of four hexadecimal digits. */
  function HexUnit(t: Text): Unit
    requires |t| == 4
  {
    var v := ((HexValue(t[0]) * 16 + HexValue(t[1])) * 16 + HexValue(t[2])) * 16 + HexValue(t[3]);
    if 0 <= v < 0x10000 then v else 0
  }

  /** What the inside of a quoted string stands for. */
  function Unescaped(t: Text): Text {
    if t == [] then []
    else if t[0] != BACKSLASH || |t| == 1 then [t[0]] + Unescaped(t[1..])
    else if t[1] == 117 && |t| >= 6 then [HexUnit(t[2..6])] + Unescaped(t[6..])
    else [ShortEscape(t[1])] + Unescaped(t[2..])
  }

  lemma HexDigitReadsBack(n: nat)
    requires n < 16
    ensures HexValue(HexDigit(n)) == n
  {
  }

  lemma Hex4ReadsBack(c: Unit)
    ensures HexUnit(Hex4(c)) == c
  {
    var a, b, d, e := c / 16 / 16 / 16, c / 16 / 16 % 16, c / 16 % 16, c % 16;
    HexDigitReadsBack(a);
    HexDigitReadsBack(b);
    HexDigitReadsBack(d);
    HexDigitReadsBack(e);
    assert c == ((a * 16 + b) * 16 + d) * 16 + e;
  }

  lemma UnitReadsBack(c: Unit, lone: bool, x: Text)
    requires lone ==> IsSurrogate(c)
    ensures Unescaped(EscapeUnit(c, lone) + x) == [c] + Unescaped(x)
  {
    var u := EscapeUnit(c, lone);
    var t := u + x;
    assert t[|u|..] == x;
    if |u| == 6 {
      assert u == [BACKSLASH, 117] + Hex4(c);
      assert t[2..6] == Hex4(c);
      Hex4ReadsBack(c);
    }
  }

  lemma {:induction false} EscapesReadBack(s: Text, i: nat)
    requires i <= |s|
    ensures Unescaped(EscapeFrom(s, i)) == s[i..]
    decreases |s| - i
  {
    if i < |s| {
      EscapesReadBack(s, i + 1);
      UnitReadsBack(s[i], IsLone(s, i), EscapeFrom(s, i + 1));
      assert s[i..] == [s[i]] + s[i + 1..];
    }
  }

  /** A code unit that is written as it is. */
  predicate WrittenPlainly(s: Text, i: nat)
    requires i < |s|
  {
    && s[i] >= 32 && s[i] != 34 && s[i] != 92
    && (0xD800 <= s[i] <= 0xDBFF ==> i + 1 < |s| && 0xDC00 <= s[i + 1] <= 0xDFFF)
    && (0xDC00 <= s[i] <= 0xDFFF ==> i > 0 && 0xD800 <= s[i - 1] <= 0xDBFF)
  }

  lemma {:induction false} PlainStringFrom(s: Text, i: nat)
    requires i <= |s| && forall j: nat | j < |s| :: WrittenPlainly(s, j)
    ensures EscapeFrom(s, i) == s[i..]
    decreases |s| - i
  {
    if i < |s| {
      assert WrittenPlainly(s, i);
      PlainStringFrom(s, i + 1);
    }
  }

  lemma {:induction false} NoControlUnits(s: Text, i: nat)
    requires i <= |s|
    ensures forall c | c in EscapeFrom(s, i) :: c >= 32
    decreases |s| - i
  {
    if i < |s| {
      NoControlUnits(s, i + 1);
      EscapeHasNoControl(s[i], IsLone(s, i));
      hide EscapeUnit;
      hide IsLone;
    }
  }

  lemma EscapeHasNoControl(c: Unit, lone: bool)
    ensures forall x | x in EscapeUnit(c, lone) :: x >= 32
  {
    assert forall n: nat | n < 16 :: HexDigit(n) >= 32;
    hide HexDigit;
  }

  /** A quoted string stands between quotes, is read back by the rules of RFC 8259, holds no control character, and is
      the string itself when nothing in it needs an escape. */
  lemma StringSays(s: Text)
    ensures exists t :: Quote(s) == [34] + t + [34]
                && Unescaped(t) == s && (forall c | c in t :: c >= 32)
                && ((forall i: nat | i < |s| :: WrittenPlainly(s, i)) ==> t == s)
  {
    var t := EscapeFrom(s, 0);
    EscapesReadBack(s, 0);
    NoControlUnits(s, 0);
    if forall i: nat | i < |s| :: WrittenPlainly(s, i) { PlainStringFrom(s, 0); }
    assert s[0..] == s;
  }

  // ---- numbers -------------------------------------------------------------------------------

  function Pow10(n: nat): nat { if n == 0 then 1 else 10 * Pow10(n - 1) }

  lemma {:induction false} ZerosBefore(k: nat, d: Text)
    ensures NatValue(Zeros(k) + d) == NatValue(d)
    decreases |d|, k
  {
    var t := Zeros(k) + d;
    if d != [] {
      assert t[..|t| - 1] == Zeros(k) + d[..|d| - 1];
      ZerosBefore(k, d[..|d| - 1]);
    } else if k > 0 {
      assert t[..|t| - 1] == Zeros(k - 1) + d;
      ZerosBefore(k - 1, d);
    }
  }

  lemma {:induction false} ZerosAfter(d: Text, k: nat)
    ensures NatValue(d + Zeros(k)) == NatValue(d) * Pow10(k)
    decreases k
  {
    var t := d + Zeros(k);
    if k > 0 {
      assert t[..|t| - 1] == d + Zeros(k - 1);
      ZerosAfter(d, k - 1);
    } else {
      assert t == d;
    }
  }

  /** `a.x` as a numeral; without `x` there is no point. */
  function Pointed(a: Text, x: Text): Text { if x == [] then a else a + [46] + x }

  /** `a.x` is `0.d * 10^p` as a plain decimal: as many places as needed, no leading zero but one before the point. */
  predicate PlainDecimal(d: Text, p: int, a: Text, x: Text) {
    && a != [] && AllDigits(a + x) && (a[0] == 48 ==> |a| == 1)
    && |x| == (if |d| > p then |d| - p else 0)
    && NatValue(a + x) == NatValue(d) * Pow10(if |d| < p then p - |d| else 0)
  }

  /** One digit, the others behind a point, and the exponent. */
  function Exponential(d: Text, p: int): Text
    requires d != []
  {
    Pointed(d[..1], d[1..]) + [101] + ([if p >= 1 then 43 else 45] + NatText(if p >= 1 then p - 1 else 1 - p))
  }

  lemma WholeSays(d: Text, p: int)
    requires IsSignificand(d) && 0 < p <= 21 && |d| <= p
    ensures Magnitude(d, p) == Pointed(d + Zeros(p - |d|), []) && PlainDecimal(d, p, d + Zeros(p - |d|), [])
  {
    var a := d + Zeros(p - |d|);
    ZerosAfter(d, p - |d|);
    assert a + [] == a;
  }

  lemma FractionSays(d: Text, p: int)
    requires IsSignificand(d) && -6 < p <= 0
    ensures Magnitude(d, p) == Pointed([48], Zeros(-p) + d) && PlainDecimal(d, p, [48], Zeros(-p) + d)
  {
    assert [48] + (Zeros(-p) + d) == Zeros(1 - p) + d;
    ZerosBefore(1 - p, d);
  }

  lemma MixedSays(d: Text, p: int)
    requires IsSignificand(d) && 0 < p <= 21 && p < |d|
    ensures Magnitude(d, p) == Pointed(d[..p], d[p..]) && PlainDecimal(d, p, d[..p], d[p..])
  {
    assert d[..p] + d[p..] == d;
  }

  lemma ExponentialSays(d: Text, p: int)
    requires IsSignificand(d) && !(-6 < p <= 21)
    ensures Magnitude(d, p) == Exponential(d, p)
  {
    assert Pointed(d[..1], d[1..]) == Mantissa(d) by {
      assert d[..1] == [d[0]];
      if |d| == 1 { assert d == d[..1]; }
    }
    assert ExponentText(p - 1) == [if p >= 1 then 43 else 45] + NatText(if p >= 1 then p - 1 else 1 - p) by {
      hide NatText;
    }
    hide Pointed;
    hide Mantissa;
    hide ExponentText;
    hide NatText;
  }

  /** A number with its point from five zeros before the digits to 21 places behind their beginning is written as a
      plain decimal, any other with an exponent; the sign comes first. */
  lemma NumberSays(n: JsNumber) returns (sign: Text, a: Text, x: Text)
    requires n.Decimal?
    ensures sign == if n.negative then [45] else []
    ensures -6 < n.point <= 21 ==> PlainDecimal(n.digits, n.point, a, x) && NumberText(n) == sign + Pointed(a, x)
    ensures n.digits != [] && (-6 < n.point <= 21 || NumberText(n) == sign + Exponential(n.digits, n.point))
  {
    var d, p := n.digits, n.point;
    if !(-6 < p <= 21) { ExponentialSays(d, p); }
    hide PlainDecimal;
    hide Magnitude;
    hide Exponential;
    hide Pointed;
    hide IsSignificand;
    sign, a, x := if n.negative then [45] else [], [], [];
    if 0 < p <= 21 && |d| <= p {
      WholeSays(d, p);
      a := d + Zeros(p - |d|);
    } else if 0 < p <= 21 {
      MixedSays(d, p);
      a, x := d[..p], d[p..];
    } else if -6 < p <= 0 {
      FractionSays(d, p);
      a, x := [48], Zeros(-p) + d;
    }
  }

  // ---- values --------------------------------------------------------------------------------

  function Commas(ts: seq<Text>): Text {
    if ts == [] then [] else if |ts| == 1 then ts[0] else ts[0] + [44] + Commas(ts[1..])
  }

  ghost predicate ItemTexts(o: KeyOrder, items: seq<Value>, ts: seq<Text>) {
    |ts| == |items| && forall i | 0 <= i < |ts| :: ts[i] == TextIn(o, items[i])
  }

  lemma {:induction false} JoinedAreCommas(o: KeyOrder, whole: Value, items: seq<Value>, ts: seq<Text>)
    requires PartsOf(whole, items) && ItemTexts(o, items, ts)
    ensures JoinItems(o, whole, items) == Commas(ts)
    decreases |items|
  {
    if |items| > 1 { JoinedAreCommas(o, whole, items[1..], ts[1..]); }
  }

  /** The text of an array: the texts of its items in order, between brackets, with commas. */
  lemma ArraySays(o: KeyOrder, v: Value, ts: seq<Text>)
    requires v.Arr? && ItemTexts(o, v.items, ts)
    ensures TextIn(o, v) == [91] + Commas(ts) + [93]
  {
    assert forall i | 0 <= i < |v.items| :: v.items[i] < v;
    JoinedAreCommas(o, v, v.items, ts);
  }

  ghost predicate MemberTexts(o: KeyOrder, ms: seq<Member>, ts: seq<Text>) {
    |ts| == |ms| && forall i | 0 <= i < |ts| :: ts[i] == Quote(ms[i].key) + [58] + TextIn(o, ms[i].value)
  }

  lemma {:induction false} MembersAreCommas(o: KeyOrder, whole: Value, ms: seq<Member>, ts: seq<Text>)
    requires MembersOf(whole, ms) && MemberTexts(o, ms, ts)
    ensures JoinMembers(o, whole, ms) == Commas(ts)
    decreases |ms|
  {
    hide Quote;
    if |ms| > 1 { MembersAreCommas(o, whole, ms[1..], ts[1..]); }
  }

  /** `a` comes before `b` by code units: it is a beginning of `b`, or less at the first place where they differ. */
  predicate UnitsBefore(a: Text, b: Text) {
    a != b && (a <= b || exists k :: 0 <= k < |a| && k < |b| && a[..k] == b[..k] && a[k] < b[k])
  }

  /** The canonical numeral of an integer below 2^32 - 1. */
  predicate Index(t: Text, n: nat) { n < 4294967295 && t == NatText(n) }

  /** Array indexes first and ascending, the other keys by code units. */
  ghost predicate OwnBefore(a: Text, b: Text) {
    || (exists m: nat :: Index(a, m) && ((forall n: nat :: !Index(b, n)) || exists n: nat :: Index(b, n) && m < n))
    || ((forall m: nat :: !Index(a, m)) && (forall n: nat :: !Index(b, n)) && UnitsBefore(a, b))
  }

  lemma IndexMeaning(t: Text)
    ensures IsIndex(t) <==> exists n: nat :: Index(t, n)
    ensures IsIndex(t) ==> Index(t, NatValue(t)) && forall n: nat | Index(t, n) :: n == NatValue(t)
  {
    forall n: nat | Index(t, n) ensures n == NatValue(t) && IsIndex(t) { NatValueOfText(n); }
    if IsIndex(t) { assert Index(t, NatValue(t)); }
  }

  lemma OrderMeaning(o: KeyOrder, a: Text, b: Text)
    requires a != b && KeyBefore(o, a, b)
    ensures if o == CodeUnits then UnitsBefore(a, b) else OwnBefore(a, b)
  {
    IndexMeaning(a);
    IndexMeaning(b);
    hide IsIndex;
    hide Index;
    if o == OwnProperties && IsIndex(a) {
      if IsIndex(b) && NatValue(a) == NatValue(b) { SameNumeral(a, b); }
    } else {
      TextLeqMeaning(a, b);
    }
  }

  lemma SameNumeral(a: Text, b: Text)
    requires IsIndex(a) && IsIndex(b) && NatValue(a) == NatValue(b)
    ensures a == b
  {
  }

  /** The text of an object: its members with a value, each once, as quoted key, colon and text of the value, in the
      order of keys, between braces, with commas. */
  lemma ObjectSays(o: KeyOrder, v: Value) returns (ws: seq<Member>)
    requires v.Obj? && DistinctKeys(v.members)
    ensures forall m :: m in ws <==> m in v.members && m.value != Undefined
    ensures forall i, j | 0 <= i < j < |ws| ::
      if o == CodeUnits then UnitsBefore(ws[i].key, ws[j].key) else OwnBefore(ws[i].key, ws[j].key)
    ensures forall ts | MemberTexts(o, ws, ts) :: TextIn(o, v) == [123] + Commas(ts) + [125]
  {
    ws := Written(o, v.members);
    WrittenIsSorted(o, v.members);
    WrittenAreParts(o, v);
    forall i, j | 0 <= i < j < |ws|
      ensures if o == CodeUnits then UnitsBefore(ws[i].key, ws[j].key) else OwnBefore(ws[i].key, ws[j].key)
    {
      assert KeyLeq(o)(KeysOf(ws)[i], KeysOf(ws)[j]);
      OrderMeaning(o, ws[i].key, ws[j].key);
    }
    forall ts | MemberTexts(o, ws, ts) ensures TextIn(o, v) == [123] + Commas(ts) + [125] {
      MembersAreCommas(o, v, ws, ts);
    }
  }

  /** The texts of the literals. */
  lemma LiteralsSay(o: KeyOrder)
    ensures TextIn(o, Null) == [110, 117, 108, 108]
    ensures TextIn(o, Bool(true)) == [116, 114, 117, 101]
    ensures TextIn(o, Bool(false)) == [102, 97, 108, 115, 101]
    ensures TextIn(o, Undefined) == [] && TextIn(o, Num(Zero)) == [48]
  {
  }
}
