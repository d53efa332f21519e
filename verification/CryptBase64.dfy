/**
 Step 22 of SHA-512 crypt: the digest is written in base 64 through a fixed permutation
 of its bytes. A decoder shows that nothing of the digest is lost.
 */
module CryptBase64 {
  import opened Common

  type Digest = d: seq<byte> | |d| == 64 witness seq(64, _ => 0)

  const TAIL_LEN: nat := 86

  predicate IsCryptChar(c: byte) {
    c == 46 || c == 47 || 48 <= c <= 57 || 65 <= c <= 90 || 97 <= c <= 122
  }

  /** The alphabet: `.`, `/`, digits, upper case, lower case. */
  function Char64(v: nat): (c: byte)
    requires v < 64
    ensures IsCryptChar(c)
  {
    if v < 12 then '.' as int + v else if v < 38 then 'A' as int + v - 12 else 'a' as int + v - 38
  }

  /** Inverse of the alphabet. */
  function Value64(c: byte): (v: nat)
    requires IsCryptChar(c)
    ensures v < 64
  {
    if c <= 57 then c - 46 else if c <= 90 then c - 65 + 12 else c - 97 + 38
  }

  const LOW := "./0123456789"
  const UPPER := "ABCDEFGHIJKLMNOPQRSTUVWXYZ"
  const LOWER := "abcdefghijklmnopqrstuvwxyz"
  const ALPHABET := LOW + UPPER + LOWER

  /** The characters in the order of step 22. */
  lemma AlphabetIs(v: nat)
    requires v < 64
    ensures |ALPHABET| == 64 && Char64(v) == ALPHABET[v] as int
  {
    if v < 12 {
      LowIs(v);
    } else if v < 38 {
      UpperIs(v - 12);
    } else {
      LowerIs(v - 38);
    }
    hide LOW, UPPER, LOWER;
  }

  lemma LowIs(v: nat)
    requires v < 12
    ensures LOW[v] as int == '.' as int + v
  {
  }

  lemma UpperIs(v: nat)
    requires v < 26
    ensures UPPER[v] as int == 'A' as int + v
  {
  }

  lemma LowerIs(v: nat)
    requires v < 26
    ensures LOWER[v] as int == 'a' as int + v
  {
  }

  lemma AlphabetInverse(v: nat)
    requires v < 64
    ensures Value64(Char64(v)) == v
  {
  }

  /** `n` characters of `w`, lowest six bits first. */
  function Chars(w: nat, n: nat): (r: seq<byte>)
    ensures |r| == n
  {
    if n == 0 then [] else [Char64(w % 64)] + Chars(w / 64, n - 1)
  }

  /** Value of characters, lowest first. */
  function Number(s: seq<byte>): nat
    requires forall i :: 0 <= i < |s| ==> IsCryptChar(s[i])
  {
    if s == [] then 0 else Value64(s[0]) + 64 * Number(s[1..])
  }

  function Pow64(n: nat): nat {
    if n == 0 then 1 else 64 * Pow64(n - 1)
  }

  lemma {:induction false} CharsInverse(w: nat, n: nat)
    requires w < Pow64(n)
    ensures (forall i :: 0 <= i < n ==> IsCryptChar(Chars(w, n)[i])) && Number(Chars(w, n)) == w
  {
    if n > 0 {
      CharsInverse(w / 64, n - 1);
      AlphabetInverse(w % 64);
      assert Chars(w, n)[1..] == Chars(w / 64, n - 1);
    }
  }

  /** The byte positions (b2, b1, b0) of group `k`: a rotation of (k, k + 21, k + 42). */
  function Group(k: nat): (g: (nat, nat, nat))
    requires k < 21
    ensures g.0 < 63 && g.1 < 63 && g.2 < 63
  {
    if k % 3 == 0 then (k, k + 21, k + 42)
    else if k % 3 == 1 then (k + 21, k + 42, k)
    else (k + 42, k, k + 21)
  }

  function Word(b2: byte, b1: byte, b0: byte): nat {
    b2 * 0x1_0000 + b1 * 0x100 + b0
  }

  function GroupWord(d: Digest, k: nat): (w: nat)
    requires k < 21
  {
    Word(d[Group(k).0], d[Group(k).1], d[Group(k).2])
  }

  /** The first `k` groups. */
  function Encoded(d: Digest, k: nat): (r: seq<byte>)
    requires k <= 21
    ensures |r| == 4 * k
  {
    if k == 0 then [] else Encoded(d, k - 1) + Chars(GroupWord(d, k - 1), 4)
  }

  /** Step 22. */
  function Tail(d: Digest): (r: seq<byte>)
    ensures |r| == TAIL_LEN
  {
    Encoded(d, 21) + Chars(d[63], 2)
  }

  // ---- Decoding ----

  /** Number of the four characters of group `k`. */
  function GroupNumber(t: seq<byte>, k: nat): nat
    requires |t| == TAIL_LEN && k < 21
    requires forall i :: 0 <= i < |t| ==> IsCryptChar(t[i])
  {
    Number(t[4 * k..4 * k + 4])
  }

  /** Byte `i` of the digest: its group is `i % 21`, its place in the group depends on the rotation. */
  function DecodedByte(t: seq<byte>, i: nat): nat
    requires |t| == TAIL_LEN && i < 64
    requires forall j :: 0 <= j < |t| ==> IsCryptChar(t[j])
  {
    if i == 63 then Number(t[84..])
    else
      var k := i % 21;
      var w := GroupNumber(t, k);
      if Place(i) == 0 then w / 0x1_0000 else if Place(i) == 1 then w / 0x100 % 0x100 else w % 0x100
  }

  lemma {:induction false} EncodedAt(d: Digest, n: nat, k: nat)
    requires k < n <= 21
    ensures Encoded(d, n)[4 * k..4 * k + 4] == Chars(GroupWord(d, k), 4)
  {
    if k < n - 1 {
      EncodedAt(d, n - 1, k);
      assert Encoded(d, n)[4 * k..4 * k + 4] == Encoded(d, n - 1)[4 * k..4 * k + 4];
    }
  }

  lemma {:induction false} EncodedChars(d: Digest, n: nat)
    requires n <= 21
    ensures forall i :: 0 <= i < 4 * n ==> IsCryptChar(Encoded(d, n)[i])
  {
    if n > 0 {
      EncodedChars(d, n - 1);
      assert Pow64(4) == 0x100_0000;
      CharsInverse(GroupWord(d, n - 1), 4);
    }
  }

  /** The tail is 86 characters of the alphabet and every digest byte is read back from it. */
  lemma TailDecodes(d: Digest)
    ensures forall i :: 0 <= i < TAIL_LEN ==> IsCryptChar(Tail(d)[i])
    ensures forall i :: 0 <= i < 64 ==> DecodedByte(Tail(d), i) == d[i]
  {
    var t := Tail(d);
    EncodedChars(d, 21);
    assert Pow64(2) == 0x1000;
    CharsInverse(d[63], 2);
    assert t[84..] == Chars(d[63], 2);
    forall i | 0 <= i < 63
      ensures DecodedByte(t, i) == d[i]
    {
      DecodeOne(d, i);
    }
  }

  lemma GroupNumberIs(d: Digest, k: nat)
    requires k < 21
    requires forall j :: 0 <= j < TAIL_LEN ==> IsCryptChar(Tail(d)[j])
    ensures GroupNumber(Tail(d), k) == GroupWord(d, k)
  {
    EncodedAt(d, 21, k);
    assert Tail(d)[4 * k..4 * k + 4] == Encoded(d, 21)[4 * k..4 * k + 4];
    assert Pow64(4) == 0x100_0000;
    CharsInverse(GroupWord(d, k), 4);
  }

  lemma WordBytes(b2: byte, b1: byte, b0: byte)
    ensures var w := Word(b2, b1, b0); w / 0x1_0000 == b2 && w / 0x100 % 0x100 == b1 && w % 0x100 == b0
  {
    assert Word(b2, b1, b0) / 0x100 == b2 * 0x100 + b1;
  }

  /** Where byte `i` stands in its group. */
  function Place(i: nat): (p: nat)
    ensures p < 3
  {
    (i / 21 - i % 21 % 3 + 3) % 3
  }

  /** The byte that group `k` holds at place `p`. */
  function Slot(k: nat, p: nat): (i: nat)
    requires k < 21 && p < 3
    ensures i < 63
  {
    if p == 0 then Group(k).0 else if p == 1 then Group(k).1 else Group(k).2
  }

  /** Every byte below 63 has a place in one group, and no other. */
  lemma GroupHolds(i: nat)
    requires i < 63
    ensures Slot(i % 21, Place(i)) == i
    ensures forall k, p | 0 <= k < 21 && 0 <= p < 3 && Slot(k, p) == i :: k == i % 21 && p == Place(i)
  {
    var k, column := i % 21, i / 21;
    assert i == 21 * column + k && 0 <= column < 3;
    forall k, p | 0 <= k < 21 && 0 <= p < 3 && Slot(k, p) == i
      ensures k == i % 21 && p == Place(i)
    {
      SlotColumn(k, p);
    }
  }

  lemma SlotColumn(k: nat, p: nat)
    requires k < 21 && p < 3
    ensures Slot(k, p) % 21 == k && Place(Slot(k, p)) == p
  {
    var column := (k % 3 + p) % 3;
    assert Slot(k, p) == 21 * column + k;
  }

  lemma DecodeOne(d: Digest, i: nat)
    requires i < 63
    requires forall j :: 0 <= j < TAIL_LEN ==> IsCryptChar(Tail(d)[j])
    ensures DecodedByte(Tail(d), i) == d[i]
  {
    var k := i % 21;
    GroupNumberIs(d, k);
    var (i2, i1, i0) := Group(k);
    WordBytes(d[i2], d[i1], d[i0]);
    GroupHolds(i);
    hide GroupNumber;
    hide Tail;
    hide Word;
    hide Group;
    hide Place;
  }

  /** Different digests have different tails. */
  lemma TailInjective(d1: Digest, d2: Digest)
    requires Tail(d1) == Tail(d2)
    ensures d1 == d2
  {
    TailDecodes(d1);
    TailDecodes(d2);
    forall i | 0 <= i < 64
      ensures d1[i] == d2[i]
    {
      assert DecodedByte(Tail(d1), i) == DecodedByte(Tail(d2), i);
    }
  }

  // ---- The program ----

  /** `crypt_b64_3`: writes `n` characters at `pos` and returns the advanced position. */
  method CryptB64(b2: byte, b1: byte, b0: byte, n: nat, out: array<byte>, pos: nat) returns (end: nat)
    requires pos + n <= out.Length
    modifies out
    ensures end == pos + n
    ensures out[..end] == old(out[..pos]) + Chars(Word(b2, b1, b0), n)
  {
    hide Chars;
    var w := Word(b2, b1, b0);
    var left := n;
    end := pos;
    ghost var written: seq<byte> := [];
    while left > 0
      invariant 0 <= left <= n && end == pos + n - left
      invariant out[..end] == old(out[..pos]) + written
      invariant written + Chars(w, left) == Chars(Word(b2, b1, b0), n)
    {
      NextChar(written, w, left);
      out[end] := Char64(w % 64);
      written := written + [Char64(w % 64)];
      end := end + 1;
      w := w / 64;
      left := left - 1;
    }
    NoChars(w);
  }

  lemma NextChar(written: seq<byte>, w: nat, n: nat)
    requires n > 0
    ensures written + Chars(w, n) == written + [Char64(w % 64)] + Chars(w / 64, n - 1)
  {
  }

  lemma NoChars(w: nat)
    ensures Chars(w, 0) == []
  {
  }

  /** One of the 21 full groups. */
  method Emit(digest: seq<byte>, b2: nat, b1: nat, b0: nat, out: array<byte>, pos: nat, ghost k: nat,
        ghost prefix: seq<byte>)
    returns (end: nat)
    requires |digest| == 64 && k < 21 && pos + 4 <= out.Length
    requires Group(k) == (b2, b1, b0)
    requires out[..pos] == prefix + Encoded(digest, k)
    modifies out
    ensures end == pos + 4 && out[..end] == prefix + Encoded(digest, k + 1)
  {
    hide Chars;
    end := CryptB64(digest[b2], digest[b1], digest[b0], 4, out, pos);
    assert prefix + Encoded(digest, k + 1) == prefix + Encoded(digest, k) + Chars(GroupWord(digest, k), 4);
  }

  // The 22 calls of step 22, seven groups at a time.

  method EmitGroups0(digest: seq<byte>, out: array<byte>, pos: nat, ghost prefix: seq<byte>) returns (end: nat)
    requires |digest| == 64 && pos + 28 <= out.Length
    requires out[..pos] == prefix + Encoded(digest, 0)
    modifies out
    ensures end == pos + 28 && out[..end] == prefix + Encoded(digest, 7)
  {
    hide Encoded;
    end := pos;
    end := Emit(digest, 0, 21, 42, out, end, 0, prefix);
    end := Emit(digest, 22, 43, 1, out, end, 1, prefix);
    end := Emit(digest, 44, 2, 23, out, end, 2, prefix);
    end := Emit(digest, 3, 24, 45, out, end, 3, prefix);
    end := Emit(digest, 25, 46, 4, out, end, 4, prefix);
    end := Emit(digest, 47, 5, 26, out, end, 5, prefix);
    end := Emit(digest, 6, 27, 48, out, end, 6, prefix);
  }

  method EmitGroups7(digest: seq<byte>, out: array<byte>, pos: nat, ghost prefix: seq<byte>) returns (end: nat)
    requires |digest| == 64 && pos + 28 <= out.Length
    requires out[..pos] == prefix + Encoded(digest, 7)
    modifies out
    ensures end == pos + 28 && out[..end] == prefix + Encoded(digest, 14)
  {
    hide Encoded;
    end := pos;
    end := Emit(digest, 28, 49, 7, out, end, 7, prefix);
    end := Emit(digest, 50, 8, 29, out, end, 8, prefix);
    end := Emit(digest, 9, 30, 51, out, end, 9, prefix);
    end := Emit(digest, 31, 52, 10, out, end, 10, prefix);
    end := Emit(digest, 53, 11, 32, out, end, 11, prefix);
    end := Emit(digest, 12, 33, 54, out, end, 12, prefix);
    end := Emit(digest, 34, 55, 13, out, end, 13, prefix);
  }

  method EmitGroups14(digest: seq<byte>, out: array<byte>, pos: nat, ghost prefix: seq<byte>) returns (end: nat)
    requires |digest| == 64 && pos + 28 <= out.Length
    requires out[..pos] == prefix + Encoded(digest, 14)
    modifies out
    ensures end == pos + 28 && out[..end] == prefix + Encoded(digest, 21)
  {
    hide Encoded;
    end := pos;
    end := Emit(digest, 56, 14, 35, out, end, 14, prefix);
    end := Emit(digest, 15, 36, 57, out, end, 15, prefix);
    end := Emit(digest, 37, 58, 16, out, end, 16, prefix);
    end := Emit(digest, 59, 17, 38, out, end, 17, prefix);
    end := Emit(digest, 18, 39, 60, out, end, 18, prefix);
    end := Emit(digest, 40, 61, 19, out, end, 19, prefix);
    end := Emit(digest, 62, 20, 41, out, end, 20, prefix);
  }

  method EmitTail(digest: seq<byte>, out: array<byte>, start: nat) returns (end: nat)
    requires |digest| == 64 && start + TAIL_LEN <= out.Length
    modifies out
    ensures end == start + TAIL_LEN && out[..end] == old(out[..start]) + Tail(digest)
  {
    ghost var prefix := out[..start];
    assert prefix + Encoded(digest, 0) == prefix;
    hide Encoded;
    hide Chars;
    end := EmitGroups0(digest, out, start, prefix);
    end := EmitGroups7(digest, out, end, prefix);
    end := EmitGroups14(digest, out, end, prefix);
    end := CryptB64(0, 0, digest[63], 2, out, end);
    assert prefix + Encoded(digest, 21) + Chars(digest[63], 2) == prefix + Tail(digest);
  }
}
