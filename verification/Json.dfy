/**
 The JSON builder and the JSON scanner of the window bridge (RFC 8259, section 7 strings in fixed
 buffers). A string is its code units without the terminating NUL; a pointer into one is the
 suffix it points at.
 */
module Json {
  import opened Common
  import Decimal

  const QUOTE: unit := '\"' as int
  const BACKSLASH: unit := '\\' as int
  const COLON: unit := ':' as int

  // ---- What the builder writes ----

  function EscapeOne(c: unit): (r: wstring)
    ensures 1 <= |r| <= 2 && r[0] != QUOTE
    ensures |r| == 1 ==> r[0] != BACKSLASH
    ensures |r| == 2 ==> r[0] == BACKSLASH
  {
    if c == BACKSLASH then [BACKSLASH, BACKSLASH]
    else if c == QUOTE then [BACKSLASH, QUOTE]
    else if c == 10 then [BACKSLASH, 'n' as int]
    else if c == 13 then [BACKSLASH, 'r' as int]
    else if c == 9 then [BACKSLASH, 't' as int]
    else [c]
  }

  function Escape(v: wstring): wstring {
    if v == [] then [] else EscapeOne(v[0]) + Escape(v[1..])
  }

  datatype Value = Text(s: wstring) | Number(v: Decimal.int32) | Flag(b: bool)
  datatype Field = Field(key: wstring, value: Value)

  function ValueText(v: Value): wstring {
    match v
    case Text(s) => [QUOTE] + Escape(s) + [QUOTE]
    case Number(n) => Decimal.Signed(n)
    case Flag(b) => if b then Units("true") else Units("false")
  }

  function FieldText(f: Field): wstring {
    [QUOTE] + f.key + [QUOTE, COLON] + ValueText(f.value)
  }

  function Comma(count: nat): wstring {
    if count > 0 then Units(",") else []
  }

  /** The fields after the opening brace, and whatever follows them. */
  function Body(fields: seq<Field>): wstring {
    if fields == [] then []
    else FieldText(fields[0]) + Comma(|fields| - 1) + Body(fields[1..])
  }

  function Render(fields: seq<Field>): wstring {
    Units("{") + Body(fields) + Units("}")
  }

  /** Keys are written as they are; this is what they may not hold. */
  predicate Plain(key: wstring) {
    QUOTE !in key && BACKSLASH !in key
  }

  // ---- What the scanner reads ----

  predicate IsBlank(c: wchar) {
    c == 32 || c == 9 || c == 10 || c == 13
  }

  function SkipBlanks(s: wstring): (r: wstring)
    ensures |r| <= |s|
  {
    if s != [] && IsBlank(s[0]) then SkipBlanks(s[1..]) else s
  }

  /** From inside a string: its closing quote, or the end of the text. */
  function Closing(s: wstring): (r: wstring)
    ensures |r| <= |s| && (r != [] ==> r[0] == QUOTE)
  {
    if s == [] || s[0] == QUOTE then s
    else if s[0] == BACKSLASH && |s| > 1 then Closing(s[2..])
    else Closing(s[1..])
  }

  /** `json_find_value`: the first string token that is followed by a colon and equals the key. */
  function Find(s: wstring, key: wstring): (r: Option<wstring>)
    ensures r.Some? ==> |r.value| < |s|
    decreases |s|
  {
    if s == [] then None
    else if s[0] != QUOTE then Find(s[1..], key)
    else
      var close := Closing(s[1..]);
      if close == [] then None
      else
        var after := SkipBlanks(close[1..]);
        if At(after, 0) != COLON || s[1..|s| - |close|] != key then Find(after, key)
        else Some(SkipBlanks(after[1..]))
  }

  function HexValue(c: wchar): (r: Option<nat>)
    ensures r.Some? ==> r.value < 16 && c != 0
  {
    if 48 <= c <= 57 then Some(c - 48)
    else if 97 <= c <= 102 then Some(c - 87)
    else if 65 <= c <= 70 then Some(c - 55)
    else None
  }

  /** Value of the first `n` hexadecimal digits. */
  function HexDigits(s: wstring, n: nat): (r: Option<nat>)
    requires n <= 4
    ensures r.Some? ==> n <= |s| && r.value < [1, 0x10, 0x100, 0x1000, 0x1_0000][n]
  {
    if n == 0 then Some(0)
    else
      var high := HexDigits(s, n - 1);
      if high.None? || HexValue(At(s, n - 1)).None? then None else Some(high.value * 16 + HexValue(At(s, n - 1)).value)
  }

  function Hex4(s: wstring): (r: Option<wchar>)
    ensures r.Some? ==> 4 <= |s|
  {
    match HexDigits(s, 4)
    case None => None
    case Some(v) => Some(v)
  }

  /** The character of a two-character escape. */
  function Unescaped(c: unit): Option<unit> {
    if c == QUOTE || c == BACKSLASH || c == '/' as int then Some(c)
    else if c == 'b' as int then Some(8)
    else if c == 'f' as int then Some(12)
    else if c == 'n' as int then Some(10)
    else if c == 'r' as int then Some(13)
    else if c == 't' as int then Some(9)
    else None
  }

  /** One decoded unit of a string value and the text units it took; None if it is refused. */
  function One(s: wstring): (r: Option<(unit, nat)>)
    requires s != []
    ensures r.Some? ==> 0 < r.value.1 <= |s|
  {
    if s[0] == BACKSLASH && |s| > 1 then
      if s[1] == 'u' as int then
        match Hex4(s[2..])
        case None => None
        case Some(v) => if v == 0 then None else Some((v, 6))
      else
        match Unescaped(s[1])
        case None => None
        case Some(c) => Some((c, 2))
    else if s[0] < 32 then None
    else Some((s[0], 1))
  }

  /** The decoded string that starts here and ends at its closing quote. */
  function Decoded(s: wstring): Option<wstring>
    decreases |s|
  {
    if s == [] then None
    else if s[0] == QUOTE then Some([])
    else
      match One(s)
      case None => None
      case Some((c, n)) => Prepend([c], Decoded(s[n..]))
  }

  function GetText(json: wstring, key: wstring): Option<wstring> {
    match Find(json, key)
    case None => None
    case Some(p) => if At(p, 0) == QUOTE then Decoded(p[1..]) else None
  }

  /** The key is there, with a string behind it. */
  predicate HoldsString(json: wstring, key: wstring) {
    var p := Find(json, key);
    p.Some? && At(p.value, 0) == QUOTE
  }

  function GetNumber(json: wstring, key: wstring): Option<Decimal.int32> {
    match Find(json, key)
    case None => None
    case Some(p) => Some(Decimal.WToI(if At(p, 0) == QUOTE then p[1..] else p))
  }

  function GetFlag(json: wstring, key: wstring): Option<bool> {
    match Find(json, key)
    case None => None
    case Some(p) => Some(At(p, 0) == 't' as int || At(p, 0) == 'T' as int)
  }

  // ---- Round trip: scanning ----

  /** A plain key is one token. */
  lemma {:induction false} ClosingAfterKey(key: wstring, rest: wstring)
    requires Plain(key)
    ensures Closing(key + [QUOTE] + rest) == [QUOTE] + rest
  {
    var s := key + [QUOTE] + rest;
    if key == [] {
      assert s == [QUOTE] + rest;
    } else {
      assert s[1..] == key[1..] + [QUOTE] + rest;
      ClosingAfterKey(key[1..], rest);
    }
  }

  /** An escaped value is one token, whatever it holds. */
  lemma {:induction false} ClosingAfterEscape(v: wstring, rest: wstring)
    ensures Closing(Escape(v) + [QUOTE] + rest) == [QUOTE] + rest
  {
    var s := Escape(v) + [QUOTE] + rest;
    if v == [] {
      assert s == [QUOTE] + rest;
    } else {
      var e := EscapeOne(v[0]);
      assert s[|e|..] == Escape(v[1..]) + [QUOTE] + rest;
      ClosingAfterEscape(v[1..], rest);
    }
  }

  /** What may follow a value: neither a blank nor a colon nor a digit. */
  predicate AfterValue(rest: wstring) {
    rest != [] && (rest[0] == ',' as int || rest[0] == '}' as int)
  }

  lemma FindSkipsOne(c: unit, rest: wstring, key: wstring)
    requires c != QUOTE
    ensures Find([c] + rest, key) == Find(rest, key)
  {
    assert ([c] + rest)[1..] == rest;
  }

  lemma {:induction false} FindSkips(text: wstring, rest: wstring, key: wstring)
    requires QUOTE !in text
    ensures Find(text + rest, key) == Find(rest, key)
  {
    if text == [] {
      assert text + rest == rest;
    } else {
      FindSkips(text[1..], rest, key);
      assert (text + rest)[1..] == text[1..] + rest;
    }
  }

  /** The scan passes over a value, even one that looks like a key. */
  lemma FindSkipsValue(v: Value, rest: wstring, key: wstring)
    requires AfterValue(rest)
    ensures Find(ValueText(v) + rest, key) == Find(rest, key)
  {
    match v
    case Text(s) =>
      var all := ValueText(v) + rest;
      assert all[1..] == Escape(s) + [QUOTE] + rest;
      ClosingAfterEscape(s, rest);
      assert ([QUOTE] + rest)[1..] == rest;
    case Number(n) =>
      FindSkips(ValueText(v), rest, key);
    case Flag(b) =>
      FindSkips(ValueText(v), rest, key);
  }

  /** The text of a field from inside its first quote, and from its colon on. */
  lemma FieldParts(f: Field, rest: wstring, after: wstring, close: wstring)
    requires after == [COLON] + (ValueText(f.value) + rest) && close == [QUOTE] + after
    ensures var s := FieldText(f) + rest;
            && s != [] && s[0] == QUOTE && s[1..] == f.key + [QUOTE] + after
            && |s| >= |close| + 1 && s[1..|s| - |close|] == f.key
            && close[1..] == after && after[1..] == ValueText(f.value) + rest
  {
    hide ValueText;
    var s := FieldText(f) + rest;
    assert s == [QUOTE] + f.key + close;
  }

  /** A field under the wanted key is found, at its value; the scan passes over any other. */
  lemma FindAtField(f: Field, rest: wstring, key: wstring)
    requires Plain(f.key) && AfterValue(rest)
    ensures Find(FieldText(f) + rest, key)
            == if f.key == key then Some(ValueText(f.value) + rest) else Find(rest, key)
  {
    hide Find, FieldText, ValueText, Closing, SkipBlanks, Plain, AfterValue;
    var after := [COLON] + (ValueText(f.value) + rest);
    var close := [QUOTE] + after;
    FieldParts(f, rest, after, close);
    ClosingAfterKey(f.key, after);
    FieldFound(FieldText(f) + rest, close, after, key);
    FindSkipsOne(COLON, ValueText(f.value) + rest, key);
    FindSkipsValue(f.value, rest, key);
    ValueStarts(f.value, rest);
  }

  lemma FieldFound(s: wstring, close: wstring, after: wstring, key: wstring)
    requires s != [] && s[0] == QUOTE && close == Closing(s[1..]) && close != [] && after == close[1..]
    requires after != [] && after[0] == COLON
    ensures Find(s, key) == if s[1..|s| - |close|] == key then Some(SkipBlanks(after[1..])) else Find(after, key)
  {
    NoBlank(after);
    hide Closing, SkipBlanks, IsBlank;
  }

  lemma NoBlank(s: wstring)
    requires s != [] && !IsBlank(s[0])
    ensures SkipBlanks(s) == s
  {
  }

  lemma ValueStarts(v: Value, rest: wstring)
    ensures SkipBlanks(ValueText(v) + rest) == ValueText(v) + rest
  {
  }

  predicate Keyed(fields: seq<Field>) {
    && (forall i :: 0 <= i < |fields| ==> Plain(fields[i].key))
    && forall i, j :: 0 <= i < j < |fields| ==> fields[i].key != fields[j].key
  }

  /** What follows the first field. */
  function More(fields: seq<Field>, tail: wstring): wstring
    requires fields != []
  {
    Comma(|fields| - 1) + (Body(fields[1..]) + tail)
  }

  lemma MoreFollows(fields: seq<Field>, tail: wstring)
    requires fields != []
    ensures Body(fields) + tail == FieldText(fields[0]) + More(fields, tail)
  {
    hide FieldText;
  }

  lemma FindPastComma(fields: seq<Field>, tail: wstring, key: wstring)
    requires fields != [] && AfterValue(tail)
    ensures AfterValue(More(fields, tail)) && Find(More(fields, tail), key) == Find(Body(fields[1..]) + tail, key)
  {
    hide Body, Find, Units;
    var rest := Body(fields[1..]) + tail;
    if |fields| == 1 {
      EmptyBody();
      assert fields[1..] == [];
      assert [] + tail == tail && More(fields, tail) == [] + rest;
    } else {
      var comma: unit := ',' as int;
      CommaIs(|fields| - 1);
      assert More(fields, tail) == [comma] + rest;
      FindSkipsOne(comma, rest, key);
    }
  }

  lemma CommaIs(count: nat)
    requires count > 0
    ensures Comma(count) == [',' as int]
  {
  }

  /** One step along the fields. */
  lemma FindStep(fields: seq<Field>, tail: wstring, key: wstring)
    requires fields != [] && Keyed(fields) && AfterValue(tail)
    ensures AfterValue(More(fields, tail))
    ensures Find(Body(fields) + tail, key)
            == if fields[0].key == key then Some(ValueText(fields[0].value) + More(fields, tail))
               else Find(Body(fields[1..]) + tail, key)
  {
    hide Body, Find, FieldText, ValueText, More, AfterValue;
    MoreFollows(fields, tail);
    FindPastComma(fields, tail, key);
    FindAtField(fields[0], More(fields, tail), key);
  }

  /** A key of the object is found at its own value. */
  lemma {:induction false} FindsField(fields: seq<Field>, tail: wstring, i: nat) returns (rest: wstring)
    requires Keyed(fields) && i < |fields| && AfterValue(tail)
    ensures AfterValue(rest) && Find(Body(fields) + tail, fields[i].key) == Some(ValueText(fields[i].value) + rest)
  {
    hide Find, Body, ValueText;
    FindStep(fields, tail, fields[i].key);
    if i == 0 {
      rest := More(fields, tail);
    } else {
      rest := FindsField(fields[1..], tail, i - 1);
    }
  }

  lemma {:induction false} FindsNothing(fields: seq<Field>, tail: wstring, key: wstring)
    requires Keyed(fields) && AfterValue(tail) && QUOTE !in tail
    requires forall i :: 0 <= i < |fields| ==> fields[i].key != key
    ensures Find(Body(fields) + tail, key) == None
  {
    if fields == [] {
      FindSkips(tail, [], key);
      assert Body(fields) + tail == tail + [];
    } else {
      hide Find, Body, ValueText;
      FindStep(fields, tail, key);
      FindsNothing(fields[1..], tail, key);
    }
  }

  lemma FindInObject(fields: seq<Field>, key: wstring)
    ensures Find(Render(fields), key) == Find(Body(fields) + Units("}"), key)
  {
    var brace: unit := '{' as int;
    assert Render(fields) == [brace] + (Body(fields) + Units("}"));
    FindSkipsOne(brace, Body(fields) + Units("}"), key);
  }

  // ---- Round trip: decoding ----

  /** No control character but tab, line feed and carriage return: the builder escapes only these. */
  predicate Clean(v: wstring) {
    forall i :: 0 <= i < |v| ==> CleanChar(v[i])
  }

  predicate CleanChar(c: unit) {
    c >= 32 || c == 9 || c == 10 || c == 13
  }

  lemma OneOfEscape(c: unit, rest: wstring)
    requires rest != []
    ensures One(EscapeOne(c) + rest) == if CleanChar(c) then Some((c, |EscapeOne(c)|)) else None
  {
  }

  /** An escaped string decodes to itself exactly when it is clean. */
  lemma {:induction false} DecodedEscape(v: wstring, rest: wstring)
    ensures Decoded(Escape(v) + [QUOTE] + rest) == if Clean(v) then Some(v) else None
  {
    var s := Escape(v) + [QUOTE] + rest;
    if v != [] {
      var e, more := EscapeOne(v[0]), Escape(v[1..]) + [QUOTE] + rest;
      assert s == e + more && s[|e|..] == more;
      OneOfEscape(v[0], more);
      DecodedEscape(v[1..], rest);
      assert v == [v[0]] + v[1..];
      hide One, EscapeOne, Escape, CleanChar;
    }
  }

  // ---- The object round trip ----

  /** A string field reads back its own value, or is refused; never another's. */
  lemma TextReadsBack(fields: seq<Field>, i: nat)
    requires Keyed(fields) && i < |fields| && fields[i].value.Text?
    ensures var v := fields[i].value.s;
            GetText(Render(fields), fields[i].key) == if Clean(v) then Some(v) else None
  {
    hide Find, Body, Decoded, Keyed, Render;
    FindInObject(fields, fields[i].key);
    var rest := FindsField(fields, Units("}"), i);
    var v := fields[i].value.s;
    var p := ValueText(fields[i].value) + rest;
    assert p[1..] == Escape(v) + [QUOTE] + rest;
    DecodedEscape(v, rest);
  }

  /** For one, a value with any other control character. */
  lemma RawControlIsRefused(key: wstring, c: unit)
    requires Plain(key) && c < 32 && c != 9 && c != 10 && c != 13
    ensures GetText(Render([Field(key, Text([c]))]), key) == None
  {
    var fields := [Field(key, Text([c]))];
    var v := fields[0].value.s;
    assert !CleanChar(v[0]);
    TextReadsBack(fields, 0);
    hide GetText, Render, CleanChar;
  }

  lemma NumberReadsBack(fields: seq<Field>, i: nat)
    requires Keyed(fields) && i < |fields| && fields[i].value.Number?
    ensures GetNumber(Render(fields), fields[i].key) == Some(fields[i].value.v)
  {
    hide Find, Body, Keyed, Render;
    FindInObject(fields, fields[i].key);
    var rest := FindsField(fields, Units("}"), i);
    Decimal.SignedReadsBack(fields[i].value.v, rest);
  }

  lemma FlagReadsBack(fields: seq<Field>, i: nat)
    requires Keyed(fields) && i < |fields| && fields[i].value.Flag?
    ensures GetFlag(Render(fields), fields[i].key) == Some(fields[i].value.b)
  {
    hide Find, Body, Keyed, Render;
    FindInObject(fields, fields[i].key);
    var rest := FindsField(fields, Units("}"), i);
  }

  lemma AbsentIsNotFound(fields: seq<Field>, key: wstring)
    requires Keyed(fields) && forall i :: 0 <= i < |fields| ==> fields[i].key != key
    ensures Find(Render(fields), key) == None
  {
    FindInObject(fields, key);
    FindsNothing(fields, Units("}"), key);
  }

  // ---- The builder ----

  lemma {:induction false} EscapeSnoc(v: wstring, c: unit)
    ensures Escape(v + [c]) == Escape(v) + EscapeOne(c)
  {
    if v == [] {
      assert [c][1..] == [] && v + [c] == [c];
    } else {
      assert (v + [c])[1..] == v[1..] + [c];
      EscapeSnoc(v[1..], c);
    }
  }

  /** How many units of `v` are escaped into a buffer of `cap` that already holds `len`: six free ones are kept back. */
  function Kept(len: nat, v: wstring, cap: nat): (n: nat)
    ensures n <= |v|
  {
    if v == [] || len + |Escape(v[..|v| - 1])| + 6 < cap then |v| else Kept(len, v[..|v| - 1], cap)
  }

  lemma {:induction false} KeptStops(len: nat, v: wstring, cap: nat, n: nat)
    requires n < |v| && len + |Escape(v[..n])| + 6 >= cap
    requires n == 0 || len + |Escape(v[..n - 1])| + 6 < cap
    ensures Kept(len, v, cap) == n
  {
    var m := |v| - 1;
    EscapeGrows(v[..m], n);
    assert v[..m][..n] == v[..n];
    if n < m {
      if n > 0 { assert v[..m][..n - 1] == v[..n - 1]; }
      KeptStops(len, v[..m], cap, n);
    } else if n > 0 {
      assert v[..m][..m - 1] == v[..n - 1];
    }
  }

  lemma {:induction false} EscapeGrows(v: wstring, n: nat)
    requires n <= |v|
    ensures |Escape(v[..n])| <= |Escape(v)|
  {
    if n == |v| {
      assert v[..n] == v;
    } else {
      var m := |v| - 1;
      EscapeGrows(v[..m], n);
      assert v[..m][..n] == v[..n] && v == v[..m] + [v[m]];
      EscapeSnoc(v[..m], v[m]);
    }
  }

  class JsonBuilder {
    const buf: array<wchar>
    var len: nat
    var count: nat

    /** The text so far ends before the buffer and holds no NUL. */
    ghost predicate Open()
      reads this, buf
    {
      len < buf.Length && forall i :: 0 <= i < len ==> buf[i] != 0
    }

    ghost predicate Valid()
      reads this, buf
    {
      Open() && buf[len] == 0
    }

    ghost function Contents(): (s: wstring)
      requires Open()
      reads this, buf
      ensures |s| == len
    {
      buf[..len]
    }

    constructor (buf: array<wchar>)
      requires buf.Length > 0
      modifies buf
      ensures Valid() && this.buf == buf && Contents() == [] && count == 0
    {
      this.buf := buf;
      len, count := 0, 0;
      new;
      buf[0] := 0;
    }

    /** Text that does not fit is dropped as a whole. */
    method Append(s: wstring)
      requires Valid()
      modifies buf, `len
      ensures Valid()
      ensures Contents() == if old(len) + |s| < buf.Length then old(Contents()) + s else old(Contents())
    {
      if len + |s| < buf.Length {
        forall i | 0 <= i < |s| { buf[len + i] := s[i]; }
        len := len + |s|;
        buf[len] := 0;
      }
    }

    method Put(c: unit)
      requires Open() && len + 1 < buf.Length
      modifies buf, `len
      ensures Open() && Contents() == old(Contents()) + [c]
    {
      buf[len] := c;
      len := len + 1;
    }

    method PutEscaped(c: unit)
      requires Open() && len + 6 < buf.Length
      modifies buf, `len
      ensures Open() && Contents() == old(Contents()) + EscapeOne(c)
    {
      if c == BACKSLASH { Put(BACKSLASH); Put(BACKSLASH); }
      else if c == QUOTE { Put(BACKSLASH); Put(QUOTE); }
      else if c == 10 { Put(BACKSLASH); Put('n' as int); }
      else if c == 13 { Put(BACKSLASH); Put('r' as int); }
      else if c == 9 { Put(BACKSLASH); Put('t' as int); }
      else { Put(c); }
    }

    /** A value is cut off between characters once fewer than seven units are free. */
    method AppendEscaped(v: wstring)
      requires Valid()
      modifies buf, `len
      ensures Valid() && Contents() == old(Contents()) + Escape(v[..Kept(old(len), v, buf.Length)])
    {
      hide Escape, EscapeOne, Kept;
      ghost var was := Contents();
      EscapeNothing();
      var p := 0;
      while p < |v|
        invariant 0 <= p <= |v| && Open() && Contents() == was + Escape(v[..p])
        invariant p == 0 || |was| + |Escape(v[..p - 1])| + 6 < buf.Length
      {
        if len + 6 >= buf.Length {
          KeptStops(|was|, v, buf.Length, p);
          break;
        }
        assert v[..p + 1] == v[..p] + [v[p]];
        EscapeSnoc(v[..p], v[p]);
        PutEscaped(v[p]);
        p := p + 1;
      }
      if p == |v| {
        KeptAll(|was|, v, buf.Length);
      }
      buf[len] := 0;
    }

    method ObjectBegin()
      requires Valid()
      modifies buf, `len, `count
      ensures Valid() && count == 0 && old(Contents()) <= Contents()
      ensures old(len) + 1 < buf.Length ==> Contents() == old(Contents()) + Units("{")
    {
      Append(Units("{"));
      count := 0;
    }

    method ObjectEnd()
      requires Valid()
      modifies buf, `len
      ensures Valid() && old(Contents()) <= Contents()
      ensures old(len) + 1 < buf.Length ==> Contents() == old(Contents()) + Units("}")
    {
      Append(Units("}"));
    }

    /** How every field starts. */
    method AppendKey(key: wstring)
      requires Valid()
      modifies buf, `len
      ensures Valid() && old(Contents()) <= Contents()
      ensures old(len) + |KeyText(count, key)| < buf.Length ==> Contents() == old(Contents()) + KeyText(count, key)
    {
      hide Units;
      ghost var was := Contents();
      if count > 0 { Append(Units(",")); }
      assert was + Comma(count) == if count > 0 then was + Units(",") else was;
      Append([QUOTE]);
      Append(key);
      AssocText(was, Comma(count), [QUOTE]);
      AssocText(was, Comma(count) + [QUOTE], key);
    }

    method TextField(key: wstring, v: wstring)
      requires Valid()
      modifies buf, `len, `count
      ensures Valid() && count == old(count) + 1 && old(Contents()) <= Contents()
      ensures var added := Comma(old(count)) + FieldText(Field(key, Text(v)));
              old(len) + |added| + 4 < buf.Length ==> Contents() == old(Contents()) + added
    {
      hide Units, Escape, EscapeOne, Kept, FieldText, ValueText, KeyText, Comma;
      ghost var was, added := Contents(), Comma(old(count)) + FieldText(Field(key, Text(v)));
      TextFieldIs(was, count, key, v);
      AppendKey(key);
      Append([QUOTE, COLON, QUOTE]);
      ghost var start := Contents();
      AppendEscaped(v);
      if |was| + |added| + 4 < buf.Length {
        KeptRoom(|start|, v, buf.Length);
      }
      Append([QUOTE]);
      count := count + 1;
    }

    /** The field is first printed into a local buffer of 32 units. */
    method NumberField(key: wstring, v: Decimal.int32)
      requires Valid() && |FieldText(Field(key, Number(v)))| < 32
      modifies buf, `len, `count
      ensures Valid() && count == old(count) + 1 && old(Contents()) <= Contents()
      ensures var added := Comma(old(count)) + FieldText(Field(key, Number(v)));
              old(len) + |added| < buf.Length ==> Contents() == old(Contents()) + added
    {
      hide Units, Decimal.Signed;
      ghost var was := Contents();
      if count > 0 { Append(Units(",")); }
      assert was + Comma(count) == if count > 0 then was + Units(",") else was;
      var tmp := [QUOTE] + key + [QUOTE, COLON] + Decimal.Signed(v);
      assert tmp == FieldText(Field(key, Number(v)));
      AssocText(was, Comma(count), tmp);
      Append(tmp);
      count := count + 1;
    }

    method FlagField(key: wstring, v: bool)
      requires Valid()
      modifies buf, `len, `count
      ensures Valid() && count == old(count) + 1 && old(Contents()) <= Contents()
      ensures var added := Comma(old(count)) + FieldText(Field(key, Flag(v)));
              old(len) + |added| < buf.Length ==> Contents() == old(Contents()) + added
    {
      hide Units, Escape, EscapeOne, Kept, FieldText, ValueText, KeyText, Comma;
      FlagFieldIs(Contents(), count, key, v);
      AppendKey(key);
      Append([QUOTE, COLON] + ValueText(Flag(v)));
      count := count + 1;
    }
  }

  function KeyText(count: nat, key: wstring): wstring {
    Comma(count) + [QUOTE] + key
  }

  lemma TextFieldIs(was: wstring, count: nat, key: wstring, v: wstring)
    ensures was + (Comma(count) + FieldText(Field(key, Text(v))))
            == was + KeyText(count, key) + [QUOTE, COLON, QUOTE] + Escape(v) + [QUOTE]
    ensures |Comma(count) + FieldText(Field(key, Text(v)))| == |KeyText(count, key)| + 3 + |Escape(v)| + 1
  {
    hide Units, Escape;
  }

  lemma FlagFieldIs(was: wstring, count: nat, key: wstring, v: bool)
    ensures was + (Comma(count) + FieldText(Field(key, Flag(v))))
              == was + KeyText(count, key) + ([QUOTE, COLON] + ValueText(Flag(v)))
    ensures |Comma(count) + FieldText(Field(key, Flag(v)))|
              == |KeyText(count, key)| + |[QUOTE, COLON] + ValueText(Flag(v))|
  {
    hide Units;
  }

  lemma AssocText(a: wstring, b: wstring, c: wstring)
    ensures a + b + c == a + (b + c)
  {
  }

  lemma EscapeNothing()
    ensures Escape([]) == []
  {
  }

  lemma KeptAll(len: nat, v: wstring, cap: nat)
    requires v == [] || len + |Escape(v[..|v| - 1])| + 6 < cap
    ensures Kept(len, v, cap) == |v|
  {
  }

  /** Five units to spare after the whole value are enough. */
  lemma KeptRoom(len: nat, v: wstring, cap: nat)
    requires len + |Escape(v)| + 5 < cap
    ensures v[..Kept(len, v, cap)] == v
  {
    if v != [] {
      var m := |v| - 1;
      assert v == v[..m] + [v[m]];
      EscapeSnoc(v[..m], v[m]);
    }
    KeptAll(len, v, cap);
  }

  /** Adding a field to an object. */
  lemma BodyCons(f: Field, rest: seq<Field>)
    ensures Body([f] + rest) == FieldText(f) + Comma(|rest|) + Body(rest)
  {
    hide FieldText, Comma;
    assert ([f] + rest)[1..] == rest;
  }

  lemma JoinFour(a: wstring, c: wstring, b: wstring, d: wstring)
    ensures a + c + (b + c + d) == a + c + b + c + d
    ensures a + c + ([] + [] + d) == a + [] + [] + c + d
  {
  }

  lemma {:induction false} BodySnoc(fields: seq<Field>, f: Field)
    ensures Body(fields + [f]) == Body(fields) + Comma(|fields|) + FieldText(f)
  {
    hide *;
    EmptyBody();
    if fields == [] {
      BodyCons(f, []);
      NoComma();
      assert [] + [f] == [f] + [] && FieldText(f) + [] + [] == FieldText(f) == [] + [] + FieldText(f);
    } else {
      var first, rest := fields[0], fields[1..];
      BodySnoc(rest, f);
      BodyCons(first, rest);
      BodyCons(first, rest + [f]);
      assert fields == [first] + rest && fields + [f] == [first] + (rest + [f]);
      NoComma();
      Commas(|rest|, |fields|);
      JoinFour(FieldText(first), Comma(|fields|), Body(rest), FieldText(f));
    }
  }

  lemma NoComma()
    ensures Comma(0) == []
  {
  }

  lemma Commas(m: nat, n: nat)
    ensures m > 0 && n > 0 ==> Comma(m) == Comma(n)
  {
  }

  lemma {:induction false} PrefixSize(fields: seq<Field>, n: nat)
    requires n <= |fields|
    ensures |Body(fields[..n])| <= |Body(fields)|
  {
    hide *;
    if n == |fields| {
      assert fields[..n] == fields;
    } else {
      var m := |fields| - 1;
      PrefixSize(fields[..m], n);
      assert fields[..m][..n] == fields[..n] && fields == fields[..m] + [fields[m]];
      BodySnoc(fields[..m], fields[m]);
    }
  }

  /**
   How the messages to the page are made: begin, one call a field, end. A buffer with four units to spare holds
   it all.
   */
  method WriteObject(fields: seq<Field>, buf: array<wchar>)
    requires |Render(fields)| + 4 <= buf.Length
    requires forall f :: f in fields && f.value.Number? ==> |FieldText(f)| < 32
    modifies buf
    ensures buf[..|Render(fields)|] == Render(fields) && buf[|Render(fields)|] == 0
  {
    hide Body, FieldText, Comma, Units, Escape;
    var jb := new JsonBuilder(buf);
    jb.ObjectBegin();
    EmptyBody();
    for i := 0 to |fields|
      invariant jb.Valid() && jb.buf == buf && fresh(jb)
      invariant jb.count == i && jb.Contents() == Units("{") + Body(fields[..i])
    {
      assert fields[..i + 1] == fields[..i] + [fields[i]];
      BodySnoc(fields[..i], fields[i]);
      PrefixSize(fields, i + 1);
      match fields[i].value
      case Text(v) => jb.TextField(fields[i].key, v);
      case Number(v) => jb.NumberField(fields[i].key, v);
      case Flag(v) => jb.FlagField(fields[i].key, v);
    }
    assert fields[..|fields|] == fields;
    jb.ObjectEnd();
  }

  lemma EmptyBody()
    ensures Body([]) == []
  {
  }

  // ---- The scanner ----

  /** Moves `p` over blanks. */
  method PassBlanks(json: wstring, start: nat) returns (p: nat)
    requires start <= |json|
    ensures start <= p <= |json| && json[p..] == SkipBlanks(json[start..])
  {
    p := start;
    while IsBlank(At(json, p))
      invariant start <= p <= |json| && SkipBlanks(json[p..]) == SkipBlanks(json[start..])
      decreases |json| - p
    {
      assert json[p..][1..] == json[p + 1..];
      p := p + 1;
    }
  }

  /** Moves `p` to the quote that ends the token, or to the end of the text. */
  method PassToken(json: wstring, start: nat) returns (p: nat)
    requires start <= |json|
    ensures start <= p <= |json| && json[p..] == Closing(json[start..])
  {
    p := start;
    while At(json, p) != 0 && At(json, p) != QUOTE
      invariant start <= p <= |json| && Closing(json[p..]) == Closing(json[start..])
      decreases |json| - p
    {
      if json[p] == BACKSLASH && At(json, p + 1) != 0 {
        assert json[p..][2..] == json[p + 2..];
        p := p + 2;
      } else {
        assert json[p..][1..] == json[p + 1..];
        p := p + 1;
      }
    }
  }

  lemma FindTurn(json: wstring, p: nat, end: nat, after: nat, key: wstring)
    requires p < end <= |json| && json[p] == QUOTE && json[end..] == Closing(json[p + 1..])
    requires end < after <= |json| && json[after..] == SkipBlanks(json[end + 1..])
    ensures At(json, after) != COLON || json[p + 1..end] != key ==> Find(json[p..], key) == Find(json[after..], key)
    ensures At(json, after) == COLON && json[p + 1..end] == key ==>
              Find(json[p..], key) == Some(SkipBlanks(json[after + 1..]))
  {
    var s := json[p..];
    assert s[1..] == json[p + 1..] && json[end..][1..] == json[end + 1..];
    assert s[1..|s| - |json[end..]|] == json[p + 1..end];
    if after < |json| { assert json[after..][1..] == json[after + 1..]; }
    hide Closing, SkipBlanks;
  }

  lemma FindNoClosing(json: wstring, p: nat, key: wstring)
    requires p < |json| && json[p] == QUOTE && Closing(json[p + 1..]) == []
    ensures Find(json[p..], key) == None
  {
    assert json[p..][1..] == json[p + 1..];
  }

  lemma FindPast(json: wstring, p: nat, key: wstring)
    requires p < |json| && json[p] != QUOTE
    ensures Find(json[p..], key) == Find(json[p + 1..], key)
  {
    assert json[p..][1..] == json[p + 1..];
  }

  /** The string token at `p`: the search ends here, with the value or NULL, or goes on at `next`. */
  method TryToken(json: wstring, p: nat, key: wstring) returns (done: bool, next: int)
    requires p < |json| && json[p] == QUOTE
    ensures !done ==> p < next <= |json| && Find(json[p..], key) == Find(json[next..], key)
    ensures done && next < 0 ==> Find(json[p..], key) == None
    ensures done && next >= 0 ==> next <= |json| && Find(json[p..], key) == Some(json[next..])
  {
    hide Find, Closing, SkipBlanks;
    var start := p + 1;
    var end := PassToken(json, start);
    if At(json, end) == 0 {
      FindNoClosing(json, p, key);
      return true, -1;
    }
    var after := PassBlanks(json, end + 1);
    FindTurn(json, p, end, after, key);
    if At(json, after) != COLON || end - start != |key| || json[start..end] != key {
      return false, after;
    }
    next := PassBlanks(json, after + 1);
    return true, next;
  }

  /** `json_find_value`; a negative result is NULL. */
  method FindValue(json: wstring, key: wstring) returns (r: int)
    ensures r < 0 ==> Find(json, key) == None
    ensures r >= 0 ==> r <= |json| && Find(json, key) == Some(json[r..])
  {
    var p := 0;
    assert json[0..] == json && Find([], key) == None;
    hide Find, Closing, SkipBlanks;
    while At(json, p) != 0
      invariant 0 <= p <= |json| && Find(json[p..], key) == Find(json, key)
      decreases |json| - p
    {
      if json[p] != QUOTE {
        FindPast(json, p, key);
        p := p + 1;
        continue;
      }
      var done, next := TryToken(json, p, key);
      if done { return next; }
      p := next;
    }
    return -1;
  }

  method HasKey(json: wstring, key: wstring) returns (has: bool)
    ensures has == Find(json, key).Some?
  {
    var p := FindValue(json, key);
    has := p >= 0;
  }

  method GetInt(json: wstring, key: wstring) returns (r: Option<Decimal.int32>)
    ensures r == GetNumber(json, key)
  {
    var p := FindValue(json, key);
    if p < 0 { return None; }
    if At(json, p) == QUOTE {
      assert json[p..][1..] == json[p + 1..];
      p := p + 1;
    }
    return Some(Decimal.WToI(json[p..]));
  }

  method GetBool(json: wstring, key: wstring) returns (r: Option<bool>)
    ensures r == GetFlag(json, key)
  {
    var p := FindValue(json, key);
    if p < 0 { return None; }
    return Some(At(json, p) == 't' as int || At(json, p) == 'T' as int);
  }

  /** Four hexadecimal digits from `p` on, as a number; negative if one is not. */
  method ReadHex4(json: wstring, p: nat) returns (v: int)
    requires p <= |json|
    ensures v < 0 ==> Hex4(json[p..]) == None
    ensures v >= 0 ==> p + 4 <= |json| && 0 <= v < 0x1_0000 && Hex4(json[p..]) == Some(v)
  {
    v := 0;
    var i := 0;
    while i < 4
      invariant 0 <= i <= 4 && p + i <= |json| && v >= 0 && HexDigits(json[p..], i) == Some(v)
    {
      var h := At(json, p + i);
      assert h == At(json[p..], i);
      if 48 <= h <= 57 { v := v * 16 + (h - 48); }
      else if 97 <= h <= 102 { v := v * 16 + (h - 97 + 10); }
      else if 65 <= h <= 70 { v := v * 16 + (h - 65 + 10); }
      else {
        NotHex(json[p..], i, 4);
        return -1;
      }
      i := i + 1;
    }
  }

  lemma {:induction false} NotHex(s: wstring, i: nat, n: nat)
    requires i < n <= 4 && i <= |s| && HexValue(At(s, i)).None?
    ensures HexDigits(s, n) == None
  {
    if i < n - 1 {
      NotHex(s, i, n - 1);
    }
  }

  /** One character of a value: its unit and the next position, or a negative position for a refusal. */
  method ReadOne(json: wstring, p: nat) returns (ch: wchar, next: int)
    requires p < |json| && json[p] != QUOTE
    ensures next < 0 ==> One(json[p..]) == None
    ensures next >= 0 ==> p < next <= |json| && ch != 0 && One(json[p..]) == Some((ch, next - p))
  {
    var s := json[p..];
    if json[p] == BACKSLASH && At(json, p + 1) != 0 {
      assert s[1] == json[p + 1];
      if json[p + 1] == 'u' as int {
        assert s[2..] == json[p + 2..];
        var v := ReadHex4(json, p + 2);
        if v <= 0 { return 0, -1; }
        return v, p + 6;
      }
      match Unescaped(json[p + 1])
      case None => return 0, -1;
      case Some(c) => return c, p + 2;
    }
    if json[p] < 32 { return 0, -1; }
    return json[p], p + 1;
  }

  /** `json_get_string`: all or nothing, except that a value too long for the buffer leaves its beginning there. */
  method GetString(json: wstring, key: wstring, out: array<wchar>) returns (ok: bool)
    modifies out
    ensures ok <==> GetText(json, key).Some? && |GetText(json, key).value| + 1 <= out.Length
    ensures ok ==> out[..|GetText(json, key).value|] == GetText(json, key).value && out[|GetText(json, key).value|] == 0
    ensures !ok && out.Length > 0 && GetText(json, key).Some? ==>
              && |GetText(json, key).value| >= out.Length && out[out.Length - 1] == 0
              && out[..out.Length - 1] == GetText(json, key).value[..out.Length - 1]
    ensures !HoldsString(json, key) ==> !ok && out[..] == old(out[..])
    ensures !ok && out.Length > 0 && HoldsString(json, key) ==> out[0] == 0 || out[out.Length - 1] == 0
  {
    var start := FindValue(json, key);
    if start < 0 || out.Length == 0 || At(json, start) != QUOTE { return false; }
    var p, o := start + 1, 0;
    assert json[start..][1..] == json[p..];
    ghost var v := Decoded(json[p..]);
    ghost var front: wstring := [];
    NoPrefix(v);
    while At(json, p) != 0 && At(json, p) != QUOTE
      invariant start < p <= |json| && 0 <= o < out.Length && |front| == o
      invariant out[..o] == front && v == Prepend(front, Decoded(json[p..]))
      decreases |json| - p
    {
      var ch, next := ReadOne(json, p);
      DecodedStep(json, p, ch, next);
      if next < 0 {
        out[0] := 0;
        return false;
      }
      PrependTwice(front, ch, Decoded(json[next..]));
      if o + 1 >= out.Length {
        out[o] := 0;
        TooLong(front, ch, Decoded(json[next..]));
        return false;
      }
      out[o] := ch;
      front := front + [ch];
      o := o + 1;
      p := next;
    }
    if At(json, p) != QUOTE {
      out[0] := 0;
      return false;
    }
    out[o] := 0;
    assert v == Some(front) by { assert front + [] == front; }
    return true;
  }

  lemma NoPrefix(v: Option<wstring>)
    ensures v == Prepend([], v)
  {
    if v.Some? { assert [] + v.value == v.value; }
  }

  lemma DecodedStep(json: wstring, p: nat, ch: wchar, next: int)
    requires p < |json| && json[p] != QUOTE
    requires next < 0 ==> One(json[p..]) == None
    requires next >= 0 ==> p < next <= |json| && ch != 0 && One(json[p..]) == Some((ch, next - p))
    ensures next < 0 ==> Decoded(json[p..]) == None
    ensures next >= 0 ==> Decoded(json[p..]) == Prepend([ch], Decoded(json[next..]))
  {
    hide One;
    if next >= 0 {
      assert json[p..][next - p..] == json[next..];
    }
  }

  lemma TooLong(front: wstring, ch: unit, rest: Option<wstring>)
    ensures var v := Prepend(front + [ch], rest);
            v.Some? ==> |v.value| > |front| && v.value[..|front|] == front
  {
  }
}
