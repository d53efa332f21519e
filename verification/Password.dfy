/**
 Password validation (`asb_validate_password`) against reference encoders, and what an
 accepted password guarantees further down: the crypt limits, the fixed buffers.

 UTF-16 follows RFC 2781, UTF-8 follows RFC 3629.
 */
module Password {
  import opened Common
  import CryptBase64
  import ShaCrypt

  /** A code point other than NUL. */
  type scalar = c: int | 0 < c < 0x11_0000 && !(0xD800 <= c < 0xE000) witness 1

  // ---- Reference encodings ----

  /** RFC 2781, section 2.1. */
  function Utf16Of(c: scalar): (r: wstring) {
    if c < 0x1_0000 then [c] else [0xD800 + (c - 0x1_0000) / 1024, 0xDC00 + (c - 0x1_0000) % 1024]
  }

  function Utf16(cps: seq<scalar>): (r: wstring) {
    if cps == [] then [] else Utf16(cps[..|cps| - 1]) + Utf16Of(cps[|cps| - 1])
  }

  /** RFC 3629, section 3. */
  function Utf8Of(c: scalar): (r: seq<byte>) {
    if c < 0x80 then [c]
    else if c < 0x800 then [0xC0 + c / 64, 0x80 + c % 64]
    else if c < 0x1_0000 then [0xE0 + c / 4096, 0x80 + c / 64 % 64, 0x80 + c % 64]
    else [0xF0 + c / 262144, 0x80 + c / 4096 % 64, 0x80 + c / 64 % 64, 0x80 + c % 64]
  }

  function Utf8(cps: seq<scalar>): (r: seq<byte>) {
    if cps == [] then [] else Utf8(cps[..|cps| - 1]) + Utf8Of(cps[|cps| - 1])
  }

  predicate IsHigh(c: unit) {
    0xD800 <= c <= 0xDBFF
  }

  predicate IsLow(c: unit) {
    0xDC00 <= c <= 0xDFFF
  }

  function Combine(high: unit, low: unit): (c: scalar)
    requires IsHigh(high) && IsLow(low)
    ensures c >= 0x1_0000 && Utf16Of(c) == [high, low]
  {
    0x1_0000 + (high - 0xD800) * 1024 + (low - 0xDC00)
  }

  /** The first code point and the units it takes (RFC 2781, section 2.2). */
  function First(u: wstring): (r: Option<(scalar, nat)>)
    requires u != []
    ensures r.Some? ==> 0 < r.value.1 <= |u| && u[..r.value.1] == Utf16Of(r.value.0)
  {
    if IsHigh(u[0]) then
      if |u| > 1 && IsLow(u[1]) then Some((Combine(u[0], u[1]), 2)) else None
    else if IsLow(u[0]) then None
    else Some((u[0], 1))
  }

  /** The code points of a string, unless it is ill-formed. */
  function Decode(u: wstring): Option<seq<scalar>> {
    if u == [] then Some([])
    else
      match First(u)
      case None => None
      case Some((c, n)) => Prepend([c], Decode(u[n..]))
  }

  lemma {:induction false} Utf16Front(c: scalar, cps: seq<scalar>)
    ensures Utf16([c] + cps) == Utf16Of(c) + Utf16(cps)
  {
    hide Utf16Of;
    if cps == [] {
      assert [c] + cps == [c] && [c][..0] == [];
    } else {
      var rest, last := cps[..|cps| - 1], cps[|cps| - 1];
      Utf16Front(c, rest);
      hide Utf16;
      assert cps == rest + [last];
      FrontStep(c, rest, last);
    }
  }

  lemma FrontStep(c: scalar, rest: seq<scalar>, last: scalar)
    requires Utf16([c] + rest) == Utf16Of(c) + Utf16(rest)
    ensures Utf16([c] + (rest + [last])) == Utf16Of(c) + Utf16(rest + [last])
  {
    hide *;
    calc {
      Utf16([c] + (rest + [last]));
      { assert [c] + (rest + [last]) == [c] + rest + [last]; }
      Utf16([c] + rest + [last]);
      { Utf16Snoc([c] + rest, last); }
      Utf16Of(c) + Utf16(rest) + Utf16Of(last);
      { Assoc(Utf16Of(c), Utf16(rest), Utf16Of(last)); }
      Utf16Of(c) + (Utf16(rest) + Utf16Of(last));
      { Utf16Snoc(rest, last); }
      Utf16Of(c) + Utf16(rest + [last]);
    }
  }

  lemma Assoc(a: wstring, b: wstring, c: wstring)
    ensures a + b + c == a + (b + c)
  {
  }

  lemma Utf16Snoc(cps: seq<scalar>, c: scalar)
    ensures Utf16(cps + [c]) == Utf16(cps) + Utf16Of(c)
  {
    hide Utf16Of;
    assert (cps + [c])[..|cps|] == cps;
  }

  /** Decoding inverts encoding ... */
  lemma {:induction false} DecodeOfEncoded(cps: seq<scalar>)
    ensures Decode(Utf16(cps)) == Some(cps)
  {
    if cps != [] {
      var c, rest := cps[0], cps[1..];
      DecodeOfEncoded(rest);
      assert cps == [c] + rest;
      Utf16Front(c, rest);
      DecodeFront(c, Utf16(rest));
    }
  }

  lemma DecodeFront(c: scalar, rest: wstring)
    ensures Decode(Utf16Of(c) + rest) == Prepend([c], Decode(rest))
  {
    var u := Utf16Of(c) + rest;
    assert u[|Utf16Of(c)|..] == rest;
    FirstOfEncoded(c, rest);
  }

  lemma FirstOfEncoded(c: scalar, rest: wstring)
    ensures First(Utf16Of(c) + rest) == Some((c, |Utf16Of(c)|))
  {
  }

  lemma DecodeUnfold(u: wstring, c: scalar, n: nat, rest: wstring)
    requires u != [] && Decode(u).Some? && First(u) == Some((c, n)) && n <= |u| && rest == u[n..]
    ensures Decode(rest).Some? && Decode(u).value == [c] + Decode(rest).value && u == Utf16Of(c) + rest
  {
    assert u == u[..n] + u[n..];
    assert u[..n] == Utf16Of(c);
    hide First, Utf16Of;
  }

  /** ... and encoding inverts decoding: only encoded strings decode. */
  lemma {:induction false} EncodeOfDecoded(u: wstring)
    requires Decode(u).Some?
    ensures Utf16(Decode(u).value) == u
    decreases |u|
  {
    if u != [] {
      var c, n := First(u).value.0, First(u).value.1;
      var rest := u[n..];
      hide *;
      DecodeUnfold(u, c, n, rest);
      EncodeOfDecoded(rest);
      Utf16Front(c, Decode(rest).value);
    }
  }

  lemma WellFormedIff(u: wstring)
    ensures Decode(u).Some? <==> exists cps :: Utf16(cps) == u
  {
    if Decode(u).Some? {
      EncodeOfDecoded(u);
    } else if cps :| Utf16(cps) == u {
      DecodeOfEncoded(cps);
    }
  }

  /** Units, code points and bytes bound one another. */
  lemma {:induction false} Sizes(cps: seq<scalar>)
    ensures |cps| <= |Utf16(cps)| <= |Utf8(cps)| <= 3 * |Utf16(cps)|
  {
    if cps != [] {
      Sizes(cps[..|cps| - 1]);
    }
  }

  // ---- Reading UTF-8 back (RFC 3629, sections 3 and 4) ----

  predicate IsTail(b: byte) {
    0x80 <= b < 0xC0
  }

  function Tail(b: byte): (v: nat)
    requires IsTail(b)
    ensures v < 64
  {
    b - 0x80
  }

  predicate IsScalar(c: int) {
    0 < c < 0x11_0000 && !(0xD800 <= c < 0xE000)
  }

  /** The number that a lead byte and its tail bytes stand for, and how many bytes that is; not yet checked. */
  function Lead(s: seq<byte>): (r: Option<(int, nat)>)
    requires s != []
    ensures r.Some? ==> 0 < r.value.1 <= |s|
  {
    var lead: int := s[0];
    if lead < 0x80 then Some((lead, 1))
    else if 0xC0 <= lead < 0xE0 && |s| > 1 && IsTail(s[1]) then Some(((lead - 0xC0) * 64 + Tail(s[1]), 2))
    else if 0xE0 <= lead < 0xF0 && |s| > 2 && IsTail(s[1]) && IsTail(s[2]) then
      Some(((lead - 0xE0) * 4096 + Tail(s[1]) * 64 + Tail(s[2]), 3))
    else if 0xF0 <= lead < 0xF8 && |s| > 3 && IsTail(s[1]) && IsTail(s[2]) && IsTail(s[3]) then
      Some(((lead - 0xF0) * 262144 + Tail(s[1]) * 4096 + Tail(s[2]) * 64 + Tail(s[3]), 4))
    else None
  }

  /** The shortest form only. */
  predicate Shortest(c: int, n: nat) {
    match n
    case 1 => c < 0x80
    case 2 => 0x80 <= c < 0x800
    case 3 => 0x800 <= c < 0x1_0000
    case _ => 0x1_0000 <= c
  }

  function First8(s: seq<byte>): (r: Option<(scalar, nat)>)
    requires s != []
    ensures r.Some? ==> 0 < r.value.1 <= |s|
  {
    match Lead(s)
    case None => None
    case Some((c, n)) => if IsScalar(c) && Shortest(c, n) then Some((c, n)) else None
  }

  /** The code points of a byte string, unless it is ill-formed. */
  function Decode8(s: seq<byte>): Option<seq<scalar>> {
    if s == [] then Some([])
    else
      match First8(s)
      case None => None
      case Some((c, n)) => Prepend([c], Decode8(s[n..]))
  }

  /** Six bits a byte. */
  lemma Digits64(c: nat)
    ensures c == c / 64 * 64 + c % 64
    ensures c == c / 4096 * 4096 + c / 64 % 64 * 64 + c % 64
    ensures c == c / 262144 * 262144 + c / 4096 % 64 * 4096 + c / 64 % 64 * 64 + c % 64
  {
    var q := c / 64;
    var r := q / 64;
    assert r == c / 4096 && r / 64 == c / 262144;
    assert q == r * 64 + q % 64 && r == r / 64 * 64 + r % 64;
  }

  lemma First8OfEncoded(c: scalar, rest: seq<byte>)
    ensures First8(Utf8Of(c) + rest) == Some((c, |Utf8Of(c)|))
  {
    Digits64(c);
    LeadOfEncoded(c, rest);
    hide Lead;
  }

  lemma LeadOfEncoded(c: scalar, rest: seq<byte>)
    ensures Lead(Utf8Of(c) + rest) == Some((c as int, |Utf8Of(c)|))
  {
    Digits64(c);
  }

  lemma First8IsEncoded(s: seq<byte>, c: scalar, n: nat)
    requires s != [] && First8(s) == Some((c, n))
    ensures n <= |s| && s[..n] == Utf8Of(c)
  {
    if n == 2 {
      Two(s[0] - 0xC0, Tail(s[1]));
    } else if n == 3 {
      Three(s[0] - 0xE0, Tail(s[1]), Tail(s[2]));
    } else if n == 4 {
      Four(s[0] - 0xF0, Tail(s[1]), Tail(s[2]), Tail(s[3]));
    }
  }

  lemma Two(a: nat, t: nat)
    requires t < 64
    ensures var c := a * 64 + t; c / 64 == a && c % 64 == t
  {
  }

  lemma Three(a: nat, t: nat, u: nat)
    requires t < 64 && u < 64
    ensures var c := a * 4096 + t * 64 + u; c / 4096 == a && c / 64 % 64 == t && c % 64 == u
  {
    Two(a * 64 + t, u);
    Two(a, t);
  }

  lemma Four(a: nat, t: nat, u: nat, v: nat)
    requires t < 64 && u < 64 && v < 64
    ensures var c := a * 262144 + t * 4096 + u * 64 + v;
            c / 262144 == a && c / 4096 % 64 == t && c / 64 % 64 == u && c % 64 == v
  {
    Two(a * 4096 + t * 64 + u, v);
    Three(a, t, u);
  }

  lemma {:induction false} Utf8Front(c: scalar, cps: seq<scalar>)
    ensures Utf8([c] + cps) == Utf8Of(c) + Utf8(cps)
  {
    hide Utf8Of;
    if cps == [] {
      assert [c] + cps == [c] && [c][..0] == [];
    } else {
      var rest, last := cps[..|cps| - 1], cps[|cps| - 1];
      Utf8Front(c, rest);
      Utf8Snoc([c] + rest, last);
      Utf8Snoc(rest, last);
      hide Utf8;
      assert cps == rest + [last] && [c] + cps == [c] + rest + [last];
      AssocBytes(Utf8Of(c), Utf8(rest), Utf8Of(last));
    }
  }

  lemma AssocBytes(a: seq<byte>, b: seq<byte>, c: seq<byte>)
    ensures a + b + c == a + (b + c)
  {
  }

  /** The UTF-8 form of any code points decodes to them ... */
  lemma {:induction false} Decode8OfEncoded(cps: seq<scalar>)
    ensures Decode8(Utf8(cps)) == Some(cps)
  {
    if cps != [] {
      var c, rest := cps[0], cps[1..];
      Decode8OfEncoded(rest);
      assert cps == [c] + rest;
      Utf8Front(c, rest);
      First8OfEncoded(c, Utf8(rest));
      var s := Utf8Of(c) + Utf8(rest);
      assert s[|Utf8Of(c)|..] == Utf8(rest);
      hide First8, Utf8Of, Utf8;
    }
  }

  /** ... and nothing else does. */
  lemma {:induction false} EncodeOfDecoded8(s: seq<byte>)
    requires Decode8(s).Some?
    ensures Utf8(Decode8(s).value) == s
    decreases |s|
  {
    if s != [] {
      var (c, n) := First8(s).value;
      First8IsEncoded(s, c, n);
      hide First8, Utf8Of, Utf8;
      var rest := s[n..];
      assert s == s[..n] + rest;
      EncodeOfDecoded8(rest);
      Utf8Front(c, Decode8(rest).value);
    }
  }

  // ---- Validation ----

  datatype Error = Required | InvalidUnicode | TooFewCharacters | TooManyBytes | TooManyUnits

  /** What a password must be, in terms of the reference encodings. */
  function Verdict(linux: bool, password: wstring): Option<Error> {
    if password == [] then Some(Required)
    else
      match Decode(password)
      case None => Some(InvalidUnicode)
      case Some(cps) =>
        if linux then
          if |cps| < 6 then Some(TooFewCharacters) else if |Utf8(cps)| > 255 then Some(TooManyBytes) else None
        else if |password| > 127 then Some(TooManyUnits)
        else None
  }

  lemma DecodeStep(password: wstring, i: nat, cps: seq<scalar>, c: scalar, n: nat)
    requires i + n <= |password| && Decode(password) == Prepend(cps, Decode(password[i..]))
    requires i < |password| && First(password[i..]) == Some((c, n))
    ensures Decode(password) == Prepend(cps + [c], Decode(password[i + n..]))
  {
    hide *;
    DecodeOne(password[i..], c, n);
    assert password[i..][n..] == password[i + n..];
    PrependTwice(cps, c, Decode(password[i + n..]));
  }

  lemma DecodeOne(u: wstring, c: scalar, n: nat)
    requires u != [] && First(u) == Some((c, n)) && n <= |u|
    ensures Decode(u) == Prepend([c], Decode(u[n..]))
  {
    hide First, Prepend;
  }

  lemma IllFormedStep(password: wstring, i: nat, cps: seq<scalar>)
    requires i < |password| && Decode(password) == Prepend(cps, Decode(password[i..])) && First(password[i..]).None?
    ensures Decode(password).None?
  {
  }

  lemma Utf8Snoc(cps: seq<scalar>, c: scalar)
    ensures Utf8(cps + [c]) == Utf8(cps) + Utf8Of(c)
  {
    assert (cps + [c])[..|cps|] == cps;
  }

  method Validate(linux: bool, password: wstring) returns (error: Option<Error>)
    ensures error == Verdict(linux, password)
  {
    hide Decode, Utf8;
    if At(password, 0) == 0 { return Some(Required); }
    var units, codePoints, utf8Bytes := 0, 0, 0;
    ghost var cps: seq<scalar> := [];
    NothingDecoded(password);
    while At(password, units) != 0
      invariant 0 <= units <= |password|
      invariant codePoints == |cps| && utf8Bytes == |Utf8(cps)|
      invariant Decode(password) == Prepend(cps, Decode(password[units..]))
      decreases |password| - units
    {
      ghost var next := First(password[units..]);
      if next.Some? {
        DecodeStep(password, units, cps, next.value.0, next.value.1);
      } else {
        IllFormedStep(password, units, cps);
      }
      var ch := At(password, units);
      units := units + 1;
      if 0xD800 <= ch <= 0xDBFF {
        var low := At(password, units);
        if low < 0xDC00 || low > 0xDFFF { return Some(InvalidUnicode); }
        units := units + 1;
        utf8Bytes := utf8Bytes + 4;
      } else if 0xDC00 <= ch <= 0xDFFF {
        return Some(InvalidUnicode);
      } else {
        utf8Bytes := utf8Bytes + if ch < 0x80 then 1 else if ch < 0x800 then 2 else 3;
      }
      codePoints := codePoints + 1;
      Utf8Snoc(cps, next.value.0);
      cps := cps + [next.value.0];
    }
    AllDecoded(password, cps);
    if linux {
      if codePoints < 6 { return Some(TooFewCharacters); }
      if utf8Bytes > 255 { return Some(TooManyBytes); }
    } else if units > 127 {
      return Some(TooManyUnits);
    }
    return None;
  }

  lemma NothingDecoded(password: wstring)
    ensures Utf8([]) == [] && Decode(password) == Prepend([], Decode(password[0..]))
  {
    assert password[0..] == password;
    if Decode(password).Some? {
      assert [] + Decode(password).value == Decode(password).value;
    }
  }

  lemma AllDecoded(password: wstring, cps: seq<scalar>)
    requires Decode(password) == Prepend(cps, Decode(password[|password|..]))
    ensures Decode(password) == Some(cps)
  {
    assert cps + [] == cps;
  }

  // ---- What an accepted password guarantees ----

  /** `VmConfig.admin_pass`, in units. */
  const ADMIN_PASS: nat := 256
  /** `utf8[512]` of `unix_password_hash`, whose last byte is kept free, and `pass_u[512]`. */
  const UTF8_BUF: nat := 512
  /** `combined[256]` and `b64_pass[512]`, in units. */
  const COMBINED: nat := 256
  const B64_PASS: nat := 512

  /** What the answer file carries: the password with a fixed suffix. */
  function Combined(password: seq<wchar>): seq<wchar> {
    password + Units("Password")
  }

  /** Characters of the base-64 form of `n` bytes, without line breaks. */
  function Base64Len(n: nat): nat {
    (n + 2) / 3 * 4
  }

  /** An accepted Linux password fits `admin_pass`, the conversion buffer and the limits of `sha512_crypt`. */
  lemma AcceptedLinuxFits(password: wstring, salt: seq<byte>, outSize: nat)
    requires Verdict(true, password) == None && |salt| <= 16 && outSize >= 110
    ensures Decode(password).Some?
    ensures var utf8 := Utf8(Decode(password).value);
            6 <= |utf8| && |utf8| + 1 <= UTF8_BUF - 1 && ShaCrypt.Accepted(utf8, salt, outSize)
    ensures |password| + 1 <= ADMIN_PASS
  {
    EncodeOfDecoded(password);
    Sizes(Decode(password).value);
  }

  /** An accepted Windows password fits the unattend buffers, plain and in base 64, and the UTF-8 buffer. */
  lemma AcceptedWindowsFits(password: wstring)
    requires Verdict(false, password) == None
    ensures Decode(password).Some?
    ensures |password| + 1 <= ADMIN_PASS && |Combined(password)| + 1 <= COMBINED
    ensures Base64Len(2 * |Combined(password)|) + 1 <= B64_PASS
    ensures |Utf8(Decode(password).value)| + 1 <= UTF8_BUF
  {
    EncodeOfDecoded(password);
    Sizes(Decode(password).value);
  }

  // ---- The Linux password hash ----

  /** `WideCharToMultiByte`: an unpaired surrogate becomes U+FFFD. */
  function Converted(u: wstring): seq<scalar> {
    if u == [] then []
    else
      match First(u)
      case None => [0xFFFD] + Converted(u[1..])
      case Some((c, n)) => [c] + Converted(u[n..])
  }

  lemma {:induction false} ConvertedIsDecoded(u: wstring)
    requires Decode(u).Some?
    ensures Converted(u) == Decode(u).value
  {
    if u != [] {
      ConvertedIsDecoded(u[First(u).value.1..]);
    }
  }

  /** Sixteen salt characters from twelve random bytes, the first four used twice. */
  function Salt(raw: seq<byte>): (r: seq<byte>)
    requires |raw| == 12
    ensures |r| == 16 && forall i :: 0 <= i < 16 ==> CryptBase64.IsCryptChar(r[i])
  {
    seq(16, i requires 0 <= i < 16 => CryptBase64.Char64(raw[i % 12] % 64))
  }

  /** Salt character `i` is the character of the alphabet that the low six bits of random byte `i` modulo 12 choose. */
  lemma SaltShows(raw: seq<byte>, i: nat)
    requires |raw| == 12 && i < 16
    ensures Salt(raw)[i] == CryptBase64.ALPHABET[raw[i % 12] % 64] as int
  {
    CryptBase64.AlphabetIs(raw[i % 12] % 64);
  }

  /** `unix_password_hash`; `random` is whether the system generator delivers. */
  method UnixPasswordHash(h: ShaCrypt.Hash, plain: wstring, raw: seq<byte>, random: bool, out: array<byte>)
    returns (ok: bool)
    requires |raw| == 12
    modifies out
    ensures ok <==> out.Length >= 110 && |Utf8(Converted(plain))| <= ShaCrypt.MAX_KEY && random
    ensures ok ==> out[..106] == ShaCrypt.CryptString(h, Utf8(Converted(plain)), Salt(raw)) && out[106] == 0
    ensures !ok ==> out[..] == old(out[..])
    ensures Verdict(true, plain) == None && out.Length >= 110 && random ==>
              ok && out[..106] == ShaCrypt.CryptString(h, Utf8(Decode(plain).value), Salt(raw))
  {
    hide Utf8, Converted, Decode, ShaCrypt.CryptString;
    if Verdict(true, plain) == None {
      AcceptedLinuxFits(plain, Salt(raw), 110);
      ConvertedIsDecoded(plain);
    }
    if out.Length < 110 { return false; }
    var utf8 := Utf8(Converted(plain));
    if |utf8| + 1 > UTF8_BUF - 1 || !random { return false; }
    var salt: seq<byte> := [];
    for i := 0 to 16
      invariant |salt| == i && forall k :: 0 <= k < i ==> salt[k] == CryptBase64.Char64(raw[k % 12] % 64)
    {
      salt := salt + [CryptBase64.Char64(raw[i % 12] % 64)];
    }
    assert salt == Salt(raw);
    var rc := ShaCrypt.Sha512Crypt(h, utf8, salt, out);
    ok := rc > 0;
  }
}
