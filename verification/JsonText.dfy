/**
 JSON text as RFC 8259 defines it, for flat objects, and what the scanner of the window bridge makes of it: any blanks
 between the tokens, and any spelling of each character of a string.
 */
module JsonText {
  import opened Common
  import Decimal
  import Json

  // ---- Strings (section 7) ----

  const LOWER := "0123456789abcdef"
  const UPPER := "0123456789ABCDEF"

  predicate IsHexDigit(c: unit, v: int) {
    0 <= v < 16 && (c == LOWER[v] as int || c == UPPER[v] as int)
  }

  predicate AreHexDigits(t: wstring, a: int, b: int, c: int, d: int) {
    |t| == 4 && IsHexDigit(t[0], a) && IsHexDigit(t[1], b) && IsHexDigit(t[2], c) && IsHexDigit(t[3], d)
  }

  /** The two-character escapes. */
  const SHORT: seq<(int, int)> :=
    [('\"' as int, 0x22), ('\\' as int, 0x5C), ('/' as int, 0x2F), ('b' as int, 0x08), ('f' as int, 0x0C),
     ('n' as int, 0x0A), ('r' as int, 0x0D), ('t' as int, 0x09)]

  /** The text is a way to write code unit `c` inside a string: itself, a short escape, or `\u` and four digits. */
  ghost predicate IsSpelling(t: wstring, c: unit) {
    || (t == [c] && c >= 0x20 && c != 0x22 && c != 0x5C)
    || (|t| == 2 && t[0] == 0x5C && (t[1], c) in SHORT)
    || (|t| == 6 && t[0] == 0x5C && t[1] == 'u' as int && IsHexSpelling(t[2..], c))
  }

  ghost predicate IsHexSpelling(t: wstring, v: unit) {
    exists a, b, c, d :: AreHexDigits(t, a, b, c, d) && v == a * 0x1000 + b * 0x100 + c * 0x10 + d
  }

  /** The text spells the units of `v` one after another. */
  ghost predicate Spells(text: wstring, v: wstring)
    decreases |v|
  {
    if v == [] then text == []
    else exists n :: 0 < n <= |text| && IsSpelling(text[..n], v[0]) && Spells(text[n..], v[1..])
  }

  // ---- One character ----

  lemma HexValueIs(c: unit, v: int)
    ensures IsHexDigit(c, v) <==> Json.HexValue(c) == Some(v)
  {
    if 0 <= v < 16 {
      assert LOWER[v] as int == if v < 10 then 48 + v else 87 + v;
      assert UPPER[v] as int == if v < 10 then 48 + v else 55 + v;
    }
  }

  lemma HexDigitsFour(s: wstring)
    requires |s| >= 4
    ensures Json.HexDigits(s, 4).Some? <==>
              && Json.HexValue(s[0]).Some? && Json.HexValue(s[1]).Some?
              && Json.HexValue(s[2]).Some? && Json.HexValue(s[3]).Some?
    ensures Json.HexDigits(s, 4).Some? ==>
              Json.HexDigits(s, 4).value == Json.HexValue(s[0]).value * 0x1000 + Json.HexValue(s[1]).value * 0x100
                                            + Json.HexValue(s[2]).value * 0x10 + Json.HexValue(s[3]).value
  {
    hide Json.HexValue;
    assert Json.HexDigits(s, 0) == Some(0);
    assert Json.HexDigits(s, 1) == Json.HexValue(s[0]);
    assert Json.HexDigits(s, 2).Some? <==> Json.HexValue(s[0]).Some? && Json.HexValue(s[1]).Some?;
    assert Json.HexDigits(s, 3).Some? <==> Json.HexDigits(s, 2).Some? && Json.HexValue(s[2]).Some?;
  }

  lemma HexIff(s: wstring, c: unit)
    requires |s| >= 4
    ensures IsHexSpelling(s[..4], c) <==> Json.Hex4(s) == Some(c)
  {
    var t := s[..4];
    HexDigitsFour(s);
    hide Json.HexValue, Json.HexDigits, IsHexDigit;
    if Json.Hex4(s) == Some(c) {
      var a, b := Json.HexValue(s[0]).value, Json.HexValue(s[1]).value;
      var d, e := Json.HexValue(s[2]).value, Json.HexValue(s[3]).value;
      HexValueIs(s[0], a);
      HexValueIs(s[1], b);
      HexValueIs(s[2], d);
      HexValueIs(s[3], e);
      assert AreHexDigits(t, a, b, d, e);
    }
    if IsHexSpelling(t, c) {
      var a, b, d, e :| AreHexDigits(t, a, b, d, e) && c == a * 0x1000 + b * 0x100 + d * 0x10 + e;
      HexValueIs(s[0], a);
      HexValueIs(s[1], b);
      HexValueIs(s[2], d);
      HexValueIs(s[3], e);
    }
  }

  lemma ShortIff(x: unit, c: unit)
    ensures (x, c) in SHORT <==> Json.Unescaped(x) == Some(c)
  {
    assert SHORT[0] == (0x22, 0x22) && SHORT[1] == (0x5C, 0x5C) && SHORT[2] == (0x2F, 0x2F);
    assert SHORT[3] == (98, 8) && SHORT[4] == (102, 12) && SHORT[5] == (110, 10);
    assert SHORT[6] == (114, 13) && SHORT[7] == (116, 9);
  }

  lemma SpellingIsOne(s: wstring, n: nat, c: unit)
    requires 0 < n <= |s| && IsSpelling(s[..n], c)
    ensures s[0] != Json.QUOTE && Json.One(s) == Some((c, n))
  {
    hide Json.Hex4, Json.Unescaped, IsHexSpelling;
    var t := s[..n];
    if n == 6 {
      assert t[2..] == s[2..][..4];
      HexIff(s[2..], c);
    } else if n == 2 {
      ShortIff(s[1], c);
    }
    hide SHORT;
  }

  lemma OneIsSpelling(s: wstring, n: nat, c: unit)
    requires s != [] && s[0] != Json.QUOTE && s != [Json.BACKSLASH] && Json.One(s) == Some((c, n))
    ensures 0 < n <= |s| && IsSpelling(s[..n], c)
  {
    hide Json.Unescaped, IsHexSpelling;
    var t := s[..n];
    if s[0] == Json.BACKSLASH {
      if s[1] == 'u' as int {
        assert t[2..] == s[2..][..4];
        HexIff(s[2..], c);
      } else {
        ShortIff(s[1], c);
      }
    }
    hide SHORT, Json.Hex4;
  }

  // ---- A whole string ----

  lemma DecodedOne(s: wstring, c: unit, n: nat)
    requires s != [] && s[0] != Json.QUOTE && Json.One(s) == Some((c, n))
    ensures n <= |s| && Json.Decoded(s) == Prepend([c], Json.Decoded(s[n..]))
  {
    hide Json.One;
  }

  lemma FirstSpelled(text: wstring, v: wstring) returns (n: nat)
    requires v != [] && Spells(text, v)
    ensures 0 < n <= |text| && IsSpelling(text[..n], v[0]) && Spells(text[n..], v[1..])
  {
    hide IsSpelling;
    n :| 0 < n <= |text| && IsSpelling(text[..n], v[0]) && Spells(text[n..], v[1..]);
  }

  lemma {:induction false} SpelledDecodes(text: wstring, v: wstring, rest: wstring)
    requires Spells(text, v)
    ensures Json.Decoded(text + [Json.QUOTE] + rest) == Some(v)
    decreases |v|
  {
    var s := text + [Json.QUOTE] + rest;
    hide IsSpelling, Json.One;
    if v != [] {
      var n := FirstSpelled(text, v);
      hide Spells, Json.Decoded;
      assert s[..n] == text[..n] && s[n..] == text[n..] + [Json.QUOTE] + rest;
      SpellingIsOne(s, n, v[0]);
      DecodedOne(s, v[0], n);
      SpelledDecodes(text[n..], v[1..], rest);
      assert v == [v[0]] + v[1..];
    }
  }

  lemma {:induction false} DecodedIsSpelled(s: wstring, v: wstring) returns (end: nat)
    requires Json.Decoded(s) == Some(v)
    ensures end < |s| && s[end] == Json.QUOTE && Spells(s[..end], v)
    decreases |s|
  {
    hide Json.One, Spells;
    if s[0] == Json.QUOTE {
      end := 0;
      NothingSpelled(s[..0]);
      assert v == [];
    } else {
      var (c, n) := Json.One(s).value;
      var more := DecodedRest(s, v, c, n);
      end := DecodedIsSpelled(s[n..], more);
      hide IsSpelling, Json.Decoded;
      OneIsSpelling(s, n, c);
      assert s[..n + end][..n] == s[..n] && s[..n + end][n..] == s[n..][..end];
      SpellsMore(s[..n + end], n, v);
      end := n + end;
    }
  }

  lemma NothingSpelled(text: wstring)
    requires text == []
    ensures Spells(text, [])
  {
  }

  lemma DecodedRest(s: wstring, v: wstring, c: unit, n: nat) returns (more: wstring)
    requires Json.Decoded(s) == Some(v) && s[0] != Json.QUOTE && Json.One(s) == Some((c, n))
    ensures n <= |s| && Json.Decoded(s[n..]) == Some(more) && v == [c] + more && v[1..] == more
    ensures s != [Json.BACKSLASH]
  {
    LoneBackslash();
    DecodedOne(s, c, n);
    more := v[1..];
    hide Json.One, Json.Decoded;
  }

  lemma LoneBackslash()
    ensures Json.Decoded([Json.BACKSLASH]) == None
  {
    var s: wstring := [Json.BACKSLASH];
    assert s[1..] == [];
  }

  lemma SpellsMore(text: wstring, n: nat, v: wstring)
    requires v != [] && 0 < n <= |text| && IsSpelling(text[..n], v[0]) && Spells(text[n..], v[1..])
    ensures Spells(text, v)
  {
  }

  /**
   The decoder of the bridge accepts exactly the string texts of section 7 that hold no NUL, and decodes each to what
   it spells.
   */
  lemma DecodedIff(s: wstring, v: wstring)
    ensures Json.Decoded(s) == Some(v) <==> exists n :: 0 <= n < |s| && s[n] == Json.QUOTE && Spells(s[..n], v)
  {
    hide *;
    if Json.Decoded(s) == Some(v) {
      var end := DecodedIsSpelled(s, v);
    }
    if n :| 0 <= n < |s| && s[n] == Json.QUOTE && Spells(s[..n], v) {
      SpelledDecodes(s[..n], v, s[n + 1..]);
      assert s == s[..n] + [Json.QUOTE] + s[n + 1..];
    }
  }

  /** The digit of a value, in upper or lower case. */
  function HexDigit(v: nat, upper: bool): (c: unit)
    requires v < 16
    ensures IsHexDigit(c, v)
  {
    assert forall i :: 0 <= i < 16 ==> 0 < LOWER[i] as int < 0x80 && 0 < UPPER[i] as int < 0x80;
    if upper then UPPER[v] as int else LOWER[v] as int
  }

  lemma HasHexSpelling(c: unit, t: wstring)
    requires AreHexDigits(t, c / 0x1000, c / 0x100 % 0x10, c / 0x10 % 0x10, c % 0x10)
    ensures IsHexSpelling(t, c)
  {
    hide AreHexDigits;
    HexParts(c);
  }

  lemma HexParts(c: nat)
    ensures c == c / 0x1000 * 0x1000 + c / 0x100 % 0x10 * 0x100 + c / 0x10 % 0x10 * 0x10 + c % 0x10
  {
    var q := c / 0x10;
    var r := q / 0x10;
    assert r == c / 0x100 && r / 0x10 == c / 0x1000;
    assert c == q * 0x10 + c % 0x10 && q == r * 0x10 + q % 0x10 && r == r / 0x10 * 0x10 + r % 0x10;
  }

  /** `\u` and the four digits of a unit. */
  function UnicodeEscape(c: unit, upper: nat -> bool): wstring {
    [0x5C, 'u' as int, HexDigit(c / 0x1000, upper(0)), HexDigit(c / 0x100 % 0x10, upper(1)),
     HexDigit(c / 0x10 % 0x10, upper(2)), HexDigit(c % 0x10, upper(3))]
  }

  /** Every code unit but NUL is decoded from its four digits, each in either case. */
  lemma UnicodeEscapeDecodes(c: unit, upper: nat -> bool, rest: wstring)
    ensures Json.Decoded(UnicodeEscape(c, upper) + [Json.QUOTE] + rest) == Some([c])
  {
    var t, v: wstring := UnicodeEscape(c, upper), [c];
    UnicodeEscapeSpells(c, upper);
    assert t[..6] == t && t[6..] == [] && v[1..] == [] && Spells([], []);
    hide IsSpelling, UnicodeEscape;
    SpellsMore(t, 6, v);
    SpelledDecodes(t, v, rest);
  }

  lemma UnicodeEscapeSpells(c: unit, upper: nat -> bool)
    ensures |UnicodeEscape(c, upper)| == 6 && IsSpelling(UnicodeEscape(c, upper), c)
  {
    var t := UnicodeEscape(c, upper);
    assert t[2..] == [t[2], t[3], t[4], t[5]];
    hide IsHexDigit, IsHexSpelling, HexDigit;
    HasHexSpelling(c, t[2..]);
  }

  // ---- Flat objects (sections 2 to 4) ----

  const BLANKS: seq<unit> := [0x20, 0x09, 0x0A, 0x0D]

  predicate Blank(s: wstring) {
    forall i :: 0 <= i < |s| ==> s[i] in BLANKS
  }

  /** A member of an object: its value, how that is written, and the blanks around its tokens. */
  datatype Member = Member(before: wstring, key: wstring, afterKey: wstring, afterColon: wstring, value: Json.Value,
                           text: wstring, after: wstring)

  /** A way to write a value. */
  ghost predicate Writes(text: wstring, v: Json.Value) {
    match v
    case Text(s) => exists body :: text == [Json.QUOTE] + body + [Json.QUOTE] && Spells(body, s)
    case Number(n) => text == Decimal.Signed(n)
    case Flag(b) => text == if b then Units("true") else Units("false")
  }

  ghost predicate IsMember(m: Member) {
    && Blank(m.before) && Blank(m.afterKey) && Blank(m.afterColon) && Blank(m.after)
    && Json.Plain(m.key) && Writes(m.text, m.value)
  }

  function MemberText(m: Member): wstring {
    m.before + ([Json.QUOTE] + m.key + [Json.QUOTE]) + m.afterKey + [Json.COLON] + m.afterColon + m.text + m.after
  }

  function MembersText(ms: seq<Member>): wstring {
    if ms == [] then [] else MemberText(ms[0]) + Json.Comma(|ms| - 1) + MembersText(ms[1..])
  }

  function ObjectText(ms: seq<Member>): wstring {
    Units("{") + MembersText(ms) + Units("}")
  }

  /** The members of an object have their own keys. */
  ghost predicate AreMembers(ms: seq<Member>) {
    && (forall i :: 0 <= i < |ms| ==> IsMember(ms[i]))
    && forall i, j :: 0 <= i < j < |ms| ==> ms[i].key != ms[j].key
  }

  lemma BlanksAre(c: unit)
    ensures c in BLANKS <==> Json.IsBlank(c)
  {
    assert BLANKS[0] == 32 && BLANKS[1] == 9 && BLANKS[2] == 10 && BLANKS[3] == 13;
  }

  lemma {:induction false} SkipsBlanks(b: wstring, rest: wstring)
    requires Blank(b) && rest != [] && rest[0] !in BLANKS
    ensures Json.SkipBlanks(b + rest) == rest
  {
    var s := b + rest;
    BlanksAre(s[0]);
    if b == [] {
      assert s == rest;
    } else {
      SkipsBlanks(b[1..], rest);
      assert s[1..] == b[1..] + rest;
    }
  }

  lemma BlankHoldsNoQuote(b: wstring)
    requires Blank(b)
    ensures Json.QUOTE !in b
  {
  }

  // ---- A string is one token ----

  lemma ClosingOfSpelling(s: wstring, n: nat, c: unit)
    requires 0 < n <= |s| && IsSpelling(s[..n], c)
    ensures Json.Closing(s) == Json.Closing(s[n..])
  {
    hide SHORT, IsHexSpelling, Json.Closing;
    var t := s[..n];
    if n == 1 {
      ClosingOn(s);
    } else {
      ClosingPastEscape(s);
      if n == 6 {
        assert t[2..] == s[2..6];
        DigitsPassed(s, c);
      }
    }
  }

  lemma DigitsPassed(s: wstring, c: unit)
    requires |s| >= 6 && IsHexSpelling(s[2..6], c)
    ensures Json.Closing(s[2..]) == Json.Closing(s[6..])
  {
    hide Json.Closing;
    NoQuoteInDigits(s[2..6], c);
    hide IsHexSpelling;
    assert forall i :: 0 <= i < 4 ==> s[2..][i] == s[2..6][i];
    FourOn(s[2..]);
    assert s[2..][4..] == s[6..];
  }

  lemma ClosingPastEscape(s: wstring)
    requires |s| > 1 && s[0] == Json.BACKSLASH
    ensures Json.Closing(s) == Json.Closing(s[2..])
  {
  }

  lemma DigitIsPlain(c: unit, v: int)
    requires IsHexDigit(c, v)
    ensures c != Json.QUOTE && c != Json.BACKSLASH
  {
    HexValueIs(c, v);
    hide IsHexDigit;
  }

  lemma NoQuoteInDigits(t: wstring, c: unit)
    requires IsHexSpelling(t, c)
    ensures |t| == 4 && forall i :: 0 <= i < 4 ==> t[i] != Json.QUOTE && t[i] != Json.BACKSLASH
  {
    hide IsHexDigit;
    var v0, v1, v2, v3 :| AreHexDigits(t, v0, v1, v2, v3) && c == v0 * 0x1000 + v1 * 0x100 + v2 * 0x10 + v3;
    DigitIsPlain(t[0], v0);
    DigitIsPlain(t[1], v1);
    DigitIsPlain(t[2], v2);
    DigitIsPlain(t[3], v3);
  }

  lemma ClosingOn(s: wstring)
    requires s != [] && s[0] != Json.QUOTE && s[0] != Json.BACKSLASH
    ensures Json.Closing(s) == Json.Closing(s[1..])
  {
  }

  lemma FourOn(s: wstring)
    requires |s| >= 4 && forall i :: 0 <= i < 4 ==> s[i] != Json.QUOTE && s[i] != Json.BACKSLASH
    ensures Json.Closing(s) == Json.Closing(s[4..])
  {
    hide Json.Closing;
    assert s[1..][1..] == s[2..] && s[2..][1..] == s[3..] && s[3..][1..] == s[4..];
    ClosingOn(s);
    ClosingOn(s[1..]);
    ClosingOn(s[2..]);
    ClosingOn(s[3..]);
  }

  lemma {:induction false} ClosingAfterSpelling(text: wstring, v: wstring, rest: wstring)
    requires Spells(text, v)
    ensures Json.Closing(text + [Json.QUOTE] + rest) == [Json.QUOTE] + rest
    decreases |v|
  {
    var s := text + [Json.QUOTE] + rest;
    hide IsSpelling;
    if v == [] {
      assert s == [Json.QUOTE] + rest;
    } else {
      var n := FirstSpelled(text, v);
      hide Spells, Json.Closing;
      assert s[..n] == text[..n] && s[n..] == text[n..] + [Json.QUOTE] + rest;
      ClosingOfSpelling(s, n, v[0]);
      ClosingAfterSpelling(text[n..], v[1..], rest);
    }
  }

  // ---- One member ----

  /** A member from its first quote on, and what follows it. */
  function FromKey(m: Member, tail: wstring): wstring {
    [Json.QUOTE] + m.key + ([Json.QUOTE] + (m.afterKey + FromColon(m, tail)))
  }

  function FromColon(m: Member, tail: wstring): wstring {
    [Json.COLON] + (m.afterColon + (m.text + (m.after + tail)))
  }

  lemma MemberParts(m: Member, tail: wstring)
    ensures MemberText(m) + tail == m.before + FromKey(m, tail)
  {
    var v := m.text + (m.after + tail);
    assert MemberText(m) + tail
        == m.before + ([Json.QUOTE] + m.key + [Json.QUOTE]) + m.afterKey + [Json.COLON] + m.afterColon + v;
  }

  lemma TokenFound(s: wstring, close: wstring, after: wstring, key: wstring)
    requires s != [] && s[0] == Json.QUOTE && close == Json.Closing(s[1..]) && close != []
    requires after == Json.SkipBlanks(close[1..])
    ensures Json.Find(s, key) == if At(after, 0) != Json.COLON || s[1..|s| - |close|] != key
                                 then Json.Find(after, key) else Some(Json.SkipBlanks(after[1..]))
  {
    hide Json.Closing, Json.SkipBlanks;
  }

  lemma KeyFound(m: Member, tail: wstring, key: wstring)
    requires IsMember(m)
    ensures Json.Find(FromKey(m, tail), key)
            == if m.key == key then Some(Json.SkipBlanks(FromColon(m, tail)[1..]))
               else Json.Find(FromColon(m, tail), key)
  {
    hide IsMember, Blank, Json.Plain, Json.Find, Json.Closing, Json.SkipBlanks, FromKey, FromColon;
    var colon := FromColon(m, tail);
    var after := m.afterKey + colon;
    var close: wstring := [Json.QUOTE] + after;
    var s := FromKey(m, tail);
    KeyParts(m, tail);
    Json.ClosingAfterKey(m.key, after);
    SkipsBlanks(m.afterKey, colon);
    TokenFound(s, close, colon, key);
  }

  lemma KeyParts(m: Member, tail: wstring)
    requires IsMember(m)
    ensures var colon := FromColon(m, tail);
            var close: wstring := [Json.QUOTE] + (m.afterKey + colon);
            var s := FromKey(m, tail);
            && Json.Plain(m.key) && Blank(m.afterKey) && colon != [] && colon[0] == Json.COLON && colon[0] !in BLANKS
            && s != [] && s[0] == Json.QUOTE && s[1..] == m.key + [Json.QUOTE] + (m.afterKey + colon)
            && |s| >= |close| + 1 && s[1..|s| - |close|] == m.key && close[1..] == m.afterKey + colon
  {
    hide Writes, Blank, FromColon, Json.Plain;
    ColonFirst(m, tail);
    BlanksAre(Json.COLON);
    var s := FromKey(m, tail);
    var close: wstring := [Json.QUOTE] + (m.afterKey + FromColon(m, tail));
    assert s == [Json.QUOTE] + m.key + close;
    assert s[1..] == m.key + close == m.key + [Json.QUOTE] + (m.afterKey + FromColon(m, tail));
    assert close[1..] == m.afterKey + FromColon(m, tail);
  }

  lemma ColonFirst(m: Member, tail: wstring)
    ensures FromColon(m, tail) != [] && FromColon(m, tail)[0] == Json.COLON
    ensures FromColon(m, tail)[1..] == m.afterColon + (m.text + (m.after + tail))
  {
  }

  /** What may follow a member: a comma or the closing brace. */
  predicate EndsMember(tail: wstring) {
    tail != [] && (tail[0] == ',' as int || tail[0] == '}' as int)
  }

  lemma ValueStarts(text: wstring, v: Json.Value, rest: wstring)
    requires Writes(text, v)
    ensures text != [] && text + rest != [] && (text + rest)[0] !in BLANKS
  {
    hide Spells, Decimal.Digits;
    assert text != [] && (text[0] == Json.QUOTE || text[0] == 't' as int || text[0] == 'f' as int
                          || Decimal.IsDigit(text[0]) || text[0] == Decimal.MINUS);
    BlanksAre(text[0]);
  }

  /** The scan passes over a value, however it is written. */
  lemma ValuePassed(m: Member, tail: wstring, key: wstring)
    requires IsMember(m) && EndsMember(tail)
    ensures Json.Find(m.text + (m.after + tail), key) == Json.Find(tail, key)
  {
    hide Json.Find, Spells, Json.Closing, Decimal.Signed;
    var rest := m.after + tail;
    BlanksAre(tail[0]);
    match m.value
    case Text(s) =>
      var body :| m.text == [Json.QUOTE] + body + [Json.QUOTE] && Spells(body, s);
      ClosingAfterSpelling(body, s, rest);
      SkipsBlanks(m.after, tail);
      StringPassed(body, rest, tail, key);
      assert m.text + rest == [Json.QUOTE] + (body + [Json.QUOTE] + rest);
    case Number(n) =>
      NoQuoteInNumber(n);
      Json.FindSkips(m.text, rest, key);
      Json.FindSkips(m.after, tail, key);
    case Flag(b) =>
      Json.FindSkips(m.text, rest, key);
      Json.FindSkips(m.after, tail, key);
  }

  lemma NoQuoteInNumber(n: int)
    ensures Json.QUOTE !in Decimal.Signed(n)
  {
  }

  lemma StringPassed(body: wstring, rest: wstring, tail: wstring, key: wstring)
    requires Json.Closing(body + [Json.QUOTE] + rest) == [Json.QUOTE] + rest && Json.SkipBlanks(rest) == tail
    requires EndsMember(tail)
    ensures Json.Find([Json.QUOTE] + (body + [Json.QUOTE] + rest), key) == Json.Find(tail, key)
  {
    hide Json.Closing, Json.SkipBlanks, Json.Find;
    var s := [Json.QUOTE] + (body + [Json.QUOTE] + rest);
    var close := [Json.QUOTE] + rest;
    assert s[1..] == body + [Json.QUOTE] + rest && close[1..] == rest;
    TokenFound(s, close, tail, key);
  }

  /** A member under the wanted key is found, at its value; the scan passes over any other. */
  lemma MemberFound(m: Member, tail: wstring, key: wstring)
    requires IsMember(m) && EndsMember(tail)
    ensures Json.Find(MemberText(m) + tail, key)
            == if m.key == key then Some(m.text + (m.after + tail)) else Json.Find(tail, key)
  {
    var v := m.text + (m.after + tail);
    MemberParts(m, tail);
    BlankHoldsNoQuote(m.before);
    ValueStarts(m.text, m.value, m.after + tail);
    ColonFirst(m, tail);
    assert [Json.COLON] + (m.afterColon + v) == FromColon(m, tail);
    hide Json.Find, FromKey, FromColon, MemberText, Blank, Writes, Json.Plain;
    Json.FindSkips(m.before, FromKey(m, tail), key);
    KeyFound(m, tail, key);
    SkipsBlanks(m.afterColon, v);
    Json.FindSkipsOne(Json.COLON, m.afterColon + v, key);
    BlankHoldsNoQuote(m.afterColon);
    Json.FindSkips(m.afterColon, v, key);
    ValuePassed(m, tail, key);
  }

  // ---- The whole object ----

  function More(ms: seq<Member>): wstring
    requires ms != []
  {
    Json.Comma(|ms| - 1) + (MembersText(ms[1..]) + Units("}"))
  }

  lemma MoreFollows(ms: seq<Member>)
    requires ms != []
    ensures MembersText(ms) + Units("}") == MemberText(ms[0]) + More(ms)
  {
    hide MemberText;
  }

  lemma NoMembers()
    ensures MembersText([]) + Units("}") == Units("}") == ['}' as int]
  {
  }

  lemma FindPastComma(ms: seq<Member>, key: wstring)
    requires ms != []
    ensures EndsMember(More(ms))
    ensures Json.Find(More(ms), key) == Json.Find(MembersText(ms[1..]) + Units("}"), key)
  {
    hide MembersText, Json.Find, Units;
    var rest := MembersText(ms[1..]) + Units("}");
    NoMembers();
    if |ms| == 1 {
      assert ms[1..] == [];
      assert More(ms) == [] + rest == rest;
    } else {
      var comma: unit := ',' as int;
      Json.CommaIs(|ms| - 1);
      assert More(ms) == [comma] + rest;
      Json.FindSkipsOne(comma, rest, key);
    }
  }

  lemma FindStep(ms: seq<Member>, key: wstring)
    requires ms != [] && AreMembers(ms)
    ensures EndsMember(More(ms)) && AreMembers(ms[1..])
    ensures Json.Find(MembersText(ms) + Units("}"), key)
            == if ms[0].key == key then Some(ms[0].text + (ms[0].after + More(ms)))
               else Json.Find(MembersText(ms[1..]) + Units("}"), key)
  {
    hide MembersText, Json.Find, MemberText, More, EndsMember, IsMember;
    MoreFollows(ms);
    FindPastComma(ms, key);
    MemberFound(ms[0], More(ms), key);
  }

  lemma {:induction false} FindsMember(ms: seq<Member>, i: nat) returns (rest: wstring)
    requires AreMembers(ms) && i < |ms|
    ensures EndsMember(rest)
    ensures Json.Find(MembersText(ms) + Units("}"), ms[i].key) == Some(ms[i].text + (ms[i].after + rest))
  {
    hide Json.Find, MembersText, IsMember;
    FindStep(ms, ms[i].key);
    if i == 0 {
      rest := More(ms);
    } else {
      rest := FindsMember(ms[1..], i - 1);
    }
  }

  lemma NothingInBrace(key: wstring)
    ensures Json.Find(MembersText([]) + Units("}"), key) == None
  {
    NoMembers();
    var brace: unit := '}' as int;
    Json.FindSkipsOne(brace, [], key);
    assert [brace] + [] == [brace];
    assert Json.Find([], key) == None;
  }

  lemma {:induction false} FindsNothing(ms: seq<Member>, key: wstring)
    requires AreMembers(ms) && forall i :: 0 <= i < |ms| ==> ms[i].key != key
    ensures Json.Find(MembersText(ms) + Units("}"), key) == None
  {
    hide Json.Find, MembersText, IsMember;
    if ms == [] {
      NothingInBrace(key);
    } else {
      FindStep(ms, key);
      FindsNothing(ms[1..], key);
    }
  }

  lemma FindInObject(ms: seq<Member>, key: wstring)
    ensures Json.Find(ObjectText(ms), key) == Json.Find(MembersText(ms) + Units("}"), key)
  {
    hide MembersText;
    var brace: unit := '{' as int;
    assert ObjectText(ms) == [brace] + (MembersText(ms) + Units("}"));
    Json.FindSkipsOne(brace, MembersText(ms) + Units("}"), key);
  }

  /**
   Every flat object, with any blanks and any spelling of its strings: each key is found at its value, and read as it;
   a quoted number is read as a number too, and nothing but a string is read as a string.
   */
  lemma MemberReads(ms: seq<Member>, i: nat)
    requires AreMembers(ms) && i < |ms|
    ensures var json, key := ObjectText(ms), ms[i].key;
            match ms[i].value
            case Text(s) => Json.GetText(json, key) == Some(s)
            case Number(n) => Json.GetNumber(json, key) == Some(n) && Json.GetText(json, key) == None
            case Flag(b) => Json.GetFlag(json, key) == Some(b) && Json.GetText(json, key) == None
  {
    hide Json.Find, MembersText, ObjectText, Spells, Json.Decoded, Json.Plain;
    FindInObject(ms, ms[i].key);
    var rest := FindsMember(ms, i);
    var m, tail := ms[i], ms[i].after + rest;
    match m.value
    case Text(s) =>
      var body :| m.text == [Json.QUOTE] + body + [Json.QUOTE] && Spells(body, s);
      assert (m.text + tail)[1..] == body + [Json.QUOTE] + tail;
      SpelledDecodes(body, s, tail);
    case Number(n) =>
      NumberEnds(m.after, rest);
      Decimal.SignedReadsBack(n, tail);
    case Flag(b) =>
  }

  lemma NumberEnds(blanks: wstring, tail: wstring)
    requires Blank(blanks) && EndsMember(tail)
    ensures Decimal.Ends(blanks + tail)
  {
    if blanks != [] {
      BlanksAre(blanks[0]);
    }
  }

  lemma QuotedNumberReads(ms: seq<Member>, i: nat, n: Decimal.int32)
    requires AreMembers(ms) && i < |ms| && ms[i].text == [Json.QUOTE] + Decimal.Signed(n) + [Json.QUOTE]
    ensures Json.GetNumber(ObjectText(ms), ms[i].key) == Some(n)
  {
    hide Json.Find, MembersText, ObjectText, Json.Plain, Decimal.Signed, Decimal.WToI, AreMembers;
    FindInObject(ms, ms[i].key);
    var rest := FindsMember(ms, i);
    var close := [Json.QUOTE] + (ms[i].after + rest);
    assert (ms[i].text + (ms[i].after + rest))[1..] == Decimal.Signed(n) + close;
    Decimal.SignedReadsBack(n, close);
  }

  lemma AbsentIsNotFound(ms: seq<Member>, key: wstring)
    requires AreMembers(ms) && forall i :: 0 <= i < |ms| ==> ms[i].key != key
    ensures Json.Find(ObjectText(ms), key) == None
  {
    FindInObject(ms, key);
    FindsNothing(ms, key);
  }
}
