/** `JSON.stringify` on strings: quoting and escaping, and why a quoted string can be
    read back from the front of any longer text. Quotes, backslashes and control characters are escaped (section 7 of
    RFC 8259); so is a surrogate that is not half of a pair. No escape is the beginning of another, and none begins with
    the closing quote, which is why the end of a string can be told from its inside. */
module JsonText {
  import opened Texts

  predicate IsLead(c: Unit) { 0xD800 <= c <= 0xDBFF }

  predicate IsTrail(c: Unit) { 0xDC00 <= c <= 0xDFFF }

  /** A surrogate that is not half of a pair is written as an escape. */
  predicate IsLone(s: Text, i: nat)
    requires i < |s|
  {
    || (IsLead(s[i]) && !(i + 1 < |s| && IsTrail(s[i + 1])))
    || (IsTrail(s[i]) && !(0 < i && IsLead(s[i - 1])))
  }

  function HexDigit(n: nat): Unit
    requires n < 16
  {
    if n < 10 then ZERO + n else 87 + n
  }

  function Hex4(c: Unit): (t: Text)
    ensures |t| == 4
  {
    [HexDigit(c / 16 / 16 / 16), HexDigit(c / 16 / 16 % 16), HexDigit(c / 16 % 16), HexDigit(c % 16)]
  }

  /** ECMA-262 section 25.5.2.2, QuoteJSONString, one code unit at a time. */
  function EscapeUnit(c: Unit, lone: bool): (t: Text)
    ensures t != [] && t[0] != QUOTE
  {
    if c == 8 then [BACKSLASH, 98]
    else if c == 9 then [BACKSLASH, 116]
    else if c == 10 then [BACKSLASH, 110]
    else if c == 12 then [BACKSLASH, 102]
    else if c == 13 then [BACKSLASH, 114]
    else if c == QUOTE || c == BACKSLASH then [BACKSLASH, c]
    else if c < 32 || lone then [BACKSLASH, 117] + Hex4(c)
    else [c]
  }

  function EscapeFrom(s: Text, i: nat): Text
    requires i <= |s|
    decreases |s| - i
  {
    if i == |s| then [] else EscapeUnit(s[i], IsLone(s, i)) + EscapeFrom(s, i + 1)
  }

  function Quote(s: Text): (t: Text)
    ensures t != [] && t[0] == QUOTE
  {
    [QUOTE] + EscapeFrom(s, 0) + [QUOTE]
  }

  lemma HexDigitInjective(m: nat, n: nat)
    requires m < 16 && n < 16 && HexDigit(m) == HexDigit(n)
    ensures m == n
  {
  }

  lemma Hex4Injective(c: Unit, d: Unit)
    requires Hex4(c) == Hex4(d)
    ensures c == d
  {
    var s := Hex4(c);
    var t := Hex4(d);
    assert s[0] == t[0] && s[1] == t[1] && s[2] == t[2] && s[3] == t[3];
    HexDigitInjective(c / 16 / 16 / 16, d / 16 / 16 / 16);
    HexDigitInjective(c / 16 / 16 % 16, d / 16 / 16 % 16);
    HexDigitInjective(c / 16 % 16, d / 16 % 16);
    HexDigitInjective(c % 16, d % 16);
  }

  predicate IsSurrogate(c: Unit) { IsLead(c) || IsTrail(c) }

  /** The first escape of a text determines the code unit it stands for. */
  lemma EscapeUnitCancel(c: Unit, l: bool, x: Text, d: Unit, m: bool, y: Text)
    requires l ==> IsSurrogate(c)
    requires m ==> IsSurrogate(d)
    requires EscapeUnit(c, l) + x == EscapeUnit(d, m) + y
    ensures c == d && x == y
  {
    var s := EscapeUnit(c, l);
    var t := EscapeUnit(d, m);
    assert s[0] == (s + x)[0] == (t + y)[0] == t[0];
    if s[0] == BACKSLASH {
      assert s[1] == (s + x)[1] == (t + y)[1] == t[1];
      if s[1] == 117 {
        CancelPrefix(s, x, t, y);
        assert s[2..] == Hex4(c) && t[2..] == Hex4(d);
        Hex4Injective(c, d);
      }
    }
    CancelPrefix(s, x, t, y);
  }

  /** What is left of a quoted string from position `i` on, followed by `x`. */
  function Pending(s: Text, i: nat, x: Text): (t: Text)
    requires i <= |s|
    ensures t != []
  {
    EscapeFrom(s, i) + ([QUOTE] + x)
  }

  lemma PendingStep(s: Text, i: nat, x: Text)
    requires i < |s|
    ensures Pending(s, i, x) == EscapeUnit(s[i], IsLone(s, i)) + Pending(s, i + 1, x)
    ensures Pending(s, i, x)[0] != QUOTE
  {
    var u := EscapeUnit(s[i], IsLone(s, i));
    hide EscapeUnit;
    assert EscapeFrom(s, i) == u + EscapeFrom(s, i + 1);
    assert Pending(s, i, x) == u + Pending(s, i + 1, x);
    assert Pending(s, i, x)[0] == u[0];
  }

  lemma {:induction false} EscapeCancel(s: Text, i: nat, x: Text, t: Text, j: nat, y: Text)
    requires i <= |s| && j <= |t|
    requires Pending(s, i, x) == Pending(t, j, y)
    ensures s[i..] == t[j..] && x == y
    decreases |s| - i
  {
    if i < |s| { PendingStep(s, i, x); }
    if j < |t| { PendingStep(t, j, y); }
    if i == |s| {
      assert x == Pending(s, i, x)[1..] && y == Pending(t, j, y)[1..];
    } else {
      EscapeUnitCancel(s[i], IsLone(s, i), Pending(s, i + 1, x), t[j], IsLone(t, j), Pending(t, j + 1, y));
      EscapeCancel(s, i + 1, x, t, j + 1, y);
      assert s[i..] == [s[i]] + s[i + 1..] && t[j..] == [t[j]] + t[j + 1..];
    }
  }

  /** Quoted strings are self-delimiting: whatever follows, string and rest can be recovered. */
  lemma QuoteCancel(s: Text, x: Text, t: Text, y: Text)
    requires Quote(s) + x == Quote(t) + y
    ensures s == t && x == y
  {
    assert Quote(s) + x == [QUOTE] + Pending(s, 0, x) && Quote(t) + y == [QUOTE] + Pending(t, 0, y);
    CancelPrefix([QUOTE], Pending(s, 0, x), [QUOTE], Pending(t, 0, y));
    EscapeCancel(s, 0, x, t, 0, y);
    assert s[0..] == s && t[0..] == t;
  }
}
