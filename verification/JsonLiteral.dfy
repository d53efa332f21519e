/**
 The HTTP API's own string writer, `append_json_str`: one JSON string literal into a `char`
 buffer, at a position, cut off when the buffer runs short. It is read with the scanner's rules.
 */
module JsonLiteral {
  import opened Common
  import Json

  /** A `char` of a NUL-terminated string. */
  type schar = c: unit | c < 0x100 witness 1

  function HexChar(v: nat): schar
    requires v < 16
  {
    if v < 10 then 48 + v else 87 + v
  }

  function EscapeOne(c: schar): (r: seq<schar>)
    ensures 1 <= |r| <= 6
  {
    if c < 32 && c != 10 && c != 13 && c != 9 then
      [Json.BACKSLASH, 'u' as int, 48, 48, HexChar(c / 16), HexChar(c % 16)]
    else Json.EscapeOne(c)
  }

  function Escape(s: seq<schar>): seq<schar> {
    if s == [] then [] else Escape(s[..|s| - 1]) + EscapeOne(s[|s| - 1])
  }

  lemma EscapeSnoc(s: seq<schar>, c: schar)
    ensures Escape(s + [c]) == Escape(s) + EscapeOne(c)
  {
    assert (s + [c])[..|s|] == s;
  }

  // ---- Reading back ----

  lemma OneOfEscape(c: schar, rest: wstring)
    requires rest != []
    ensures Json.One(EscapeOne(c) + rest) == Some((c, |EscapeOne(c)|))
  {
    if c < 32 && c != 10 && c != 13 && c != 9 {
      HexOfControl(c, rest);
    } else {
      Json.OneOfEscape(c, rest);
    }
  }

  lemma HexOfControl(c: schar, rest: wstring)
    requires c < 32
    ensures Json.Hex4([48, 48, HexChar(c / 16), HexChar(c % 16)] + rest) == Some(c)
    ensures ([Json.BACKSLASH, 'u' as int, 48, 48, HexChar(c / 16), HexChar(c % 16)] + rest)[2..]
            == [48, 48, HexChar(c / 16), HexChar(c % 16)] + rest
  {
    var s: wstring := [48, 48, HexChar(c / 16), HexChar(c % 16)] + rest;
    assert Json.HexDigits(s, 1) == Some(0);
    assert Json.HexDigits(s, 2) == Some(0);
    assert Json.HexDigits(s, 3) == Some(c / 16);
  }

  /** Every string, control characters included, decodes to itself. */
  lemma {:induction false} LiteralReadsBack(s: seq<schar>, v: wstring, rest: wstring)
    requires Json.Decoded(rest) == Some(v)
    ensures Json.Decoded(Escape(s) + rest) == Some(s + v)
    decreases |s|
  {
    hide *;
    if s == [] {
      EscapeNothing();
      assert [] + rest == rest && [] + v == v;
    } else {
      var front, c := s[..|s| - 1], s[|s| - 1];
      EscapeLast(s);
      CharReadsBack(c, v, rest);
      LiteralReadsBack(front, [c] + v, EscapeOne(c) + rest);
      JoinsAgain(s, front, c, v, Escape(front), EscapeOne(c), rest);
    }
  }

  lemma JoinsAgain(s: seq<schar>, front: seq<schar>, c: schar, v: wstring, e: seq<schar>, one: seq<schar>,
        rest: wstring)
    requires s == front + [c]
    ensures front + ([c] + v) == s + v && e + one + rest == e + (one + rest)
  {
  }

  lemma EscapeLast(s: seq<schar>)
    requires s != []
    ensures Escape(s) == Escape(s[..|s| - 1]) + EscapeOne(s[|s| - 1])
  {
  }

  lemma CharReadsBack(c: schar, v: wstring, rest: wstring)
    requires Json.Decoded(rest) == Some(v)
    ensures Json.Decoded(EscapeOne(c) + rest) == Some([c] + v)
  {
    var s: wstring := EscapeOne(c) + rest;
    OneOfEscape(c, rest);
    assert s[|EscapeOne(c)|..] == rest;
    assert s[0] != Json.QUOTE;
    hide EscapeOne, Json.One;
  }

  // ---- Writing ----

  /** Where the loop stops: `n` characters start below `limit`, and the next one would not. */
  predicate Cut(start: int, s: seq<schar>, limit: int, n: nat) {
    && n <= |s|
    && (n > 0 ==> start + |Escape(s[..n - 1])| < limit)
    && (n < |s| ==> start + |Escape(s[..n])| >= limit)
  }

  lemma {:induction false} EscapeGrows(s: seq<schar>, n: nat)
    requires n <= |s|
    ensures |Escape(s[..n])| <= |Escape(s)|
  {
    if n < |s| {
      EscapeGrows(s[..|s| - 1], n);
      assert s[..|s| - 1][..n] == s[..n];
    } else {
      assert s[..n] == s;
    }
  }

  /** The text that `append_json_str` leaves between `pos` and its result. */
  function Literal(s: seq<schar>, pos: int, cap: int): seq<schar> {
    [Json.QUOTE] + Escape(s) + if pos < cap - 2 then [Json.QUOTE] else []
  }

  method PutEscaped(out: array<byte>, cap: int, pos: nat, c: schar) returns (next: nat)
    requires pos < cap - 8 && cap <= out.Length
    modifies out
    ensures next == pos + |EscapeOne(c)|
    ensures out[..next] == old(out[..pos]) + EscapeOne(c)
    ensures forall i :: next < i < out.Length ==> out[i] == old(out[i])
  {
    if c == Json.QUOTE || c == Json.BACKSLASH {
      out[pos], out[pos + 1] := Json.BACKSLASH, c;
      next := pos + 2;
    } else if c == 10 {
      out[pos], out[pos + 1] := Json.BACKSLASH, 'n' as int;
      next := pos + 2;
    } else if c == 13 {
      out[pos], out[pos + 1] := Json.BACKSLASH, 'r' as int;
      next := pos + 2;
    } else if c == 9 {
      out[pos], out[pos + 1] := Json.BACKSLASH, 't' as int;
      next := pos + 2;
    } else if c < 32 {
      // sprintf_s writes its own NUL behind the six characters
      out[pos], out[pos + 1], out[pos + 2], out[pos + 3] := Json.BACKSLASH, 'u' as int, 48, 48;
      out[pos + 4], out[pos + 5], out[pos + 6] := HexChar(c / 16), HexChar(c % 16), 0;
      next := pos + 6;
    } else {
      out[pos] := c;
      next := pos + 1;
    }
  }

  /**
   `append_json_str`. Nothing is written when there is no room at all; else the result is NUL-terminated and only
   `pos .. r` is written. The string is cut after `n` characters, and the closing quote is there unless a single byte
   was left for the opening one.
   */
  method AppendJsonStr(out: array<byte>, cap: int, pos: nat, s: seq<schar>) returns (r: nat, ghost n: nat)
    requires cap <= out.Length
    modifies out
    ensures pos >= cap - 1 ==> r == pos && out[..] == old(out[..])
    ensures pos < cap - 1 ==> pos < r <= cap - 1 && out[r] == 0
    ensures pos < cap - 1 ==> Cut(pos + 1, s, cap - 8, n) && out[..r] == old(out[..pos]) + Literal(s[..n], pos, cap)
    ensures pos < cap - 1 ==> forall i :: r < i < out.Length ==> out[i] == old(out[i])
  {
    n := 0;
    if pos >= cap - 1 { return pos, 0; }
    hide Escape, EscapeOne;
    ghost var was := out[..];
    out[pos] := Json.QUOTE;
    r := pos + 1;
    EscapeNothing();
    assert s[..0] == [];
    var i := 0;
    while i < |s| && r < cap - 8
      invariant 0 <= i <= |s| && pos < r <= cap - 1 && (i > 0 ==> r <= cap - 3)
      invariant Body(was, out[..], pos, s, i, r)
      invariant i > 0 ==> pos + 1 + |Escape(s[..i - 1])| < cap - 8
    {
      r := Turn(was, out, cap, pos, s, i, r);
      i := i + 1;
    }
    n := i;
    r := Close(was, out, cap, pos, s, i, r);
  }

  /** The opening quote and `i` escaped characters lie between `pos` and `r`, and nothing behind them is touched. */
  ghost predicate Body(was: seq<byte>, now: seq<byte>, pos: nat, s: seq<schar>, i: nat, r: nat) {
    && i <= |s| && pos < r <= |now| == |was|
    && r == pos + 1 + |Escape(s[..i])|
    && now[..r] == was[..pos] + [Json.QUOTE] + Escape(s[..i])
    && forall k :: r < k < |now| ==> now[k] == was[k]
  }

  method Turn(ghost was: seq<byte>, out: array<byte>, cap: int, pos: nat, s: seq<schar>, i: nat, r: nat)
    returns (next: nat)
    requires i < |s| && r < cap - 8 && cap <= out.Length && Body(was, out[..], pos, s, i, r)
    modifies out
    ensures Body(was, out[..], pos, s, i + 1, next) && r < next <= cap - 3 && pos + 1 + |Escape(s[..i])| < cap - 8
  {
    hide Escape, EscapeOne;
    assert s[..i + 1] == s[..i] + [s[i]];
    EscapeSnoc(s[..i], s[i]);
    next := PutEscaped(out, cap, r, s[i]);
    AssocBytes(was[..pos] + [Json.QUOTE], Escape(s[..i]), EscapeOne(s[i]));
  }

  /** The closing quote and the NUL. */
  method Close(ghost was: seq<byte>, out: array<byte>, cap: int, pos: nat, s: seq<schar>, i: nat, end: nat)
    returns (r: nat)
    requires cap <= out.Length && Body(was, out[..], pos, s, i, end) && end <= cap - 1
              && (end == cap - 1 ==> pos == cap - 2)
    modifies out
    ensures r <= cap - 1 && pos < r && out[r] == 0 && out[..r] == was[..pos] + Literal(s[..i], pos, cap)
    ensures forall k :: r < k < out.Length ==> out[k] == was[k]
  {
    hide Escape;
    r := end;
    ghost var text := out[..r];
    if r < cap - 1 {
      out[r] := Json.QUOTE;
      r := r + 1;
      assert out[..r] == text + [Json.QUOTE];
      AssocBytes(was[..pos] + [Json.QUOTE], Escape(s[..i]), [Json.QUOTE]);
    }
    text := out[..r];
    out[if r < cap then r else cap - 1] := 0;
    assert out[..r] == text;
    assert was[..pos] + Literal(s[..i], pos, cap) == text;
  }

  lemma AssocBytes(a: seq<byte>, b: seq<byte>, c: seq<byte>)
    ensures a + b + c == a + (b + c)
  {
  }

  lemma EscapeNothing()
    ensures Escape([]) == []
  {
  }

  /** The whole string is there exactly when its last character started with nine bytes to spare. */
  lemma WholeIff(pos: nat, s: seq<schar>, cap: int, n: nat)
    requires Cut(pos + 1, s, cap - 8, n)
    ensures n == |s| <==> s == [] || pos + 1 + |Escape(s[..|s| - 1])| < cap - 8
  {
    if n < |s| {
      EscapeGrows(s[..|s| - 1], n);
      assert s[..|s| - 1][..n] == s[..n];
    }
  }

  /** The literal left in the buffer decodes to the characters kept. */
  lemma LeftLiteralDecodes(s: seq<schar>, pos: nat, cap: int, rest: wstring)
    requires pos < cap - 2
    ensures var text := Literal(s, pos, cap);
            text[0] == Json.QUOTE && Json.Decoded((text + rest)[1..]) == Some(s)
  {
    var close: wstring := [Json.QUOTE] + rest;
    assert Json.Decoded(close) == Some([]);
    hide Json.Decoded, Escape;
    LiteralReadsBack(s, [], close);
    assert (Literal(s, pos, cap) + rest)[1..] == Escape(s) + close;
    assert s + [] == s;
  }
}
