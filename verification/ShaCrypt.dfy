/**
 SHA-512 crypt (`$6$`): `sha512_crypt` against Drepper's "Unix crypt using SHA-256 and
 SHA-512", with SHA-512 itself an arbitrary function from byte strings to 64 bytes.

 The specification functions follow the numbered steps of that document; the methods
 follow the program.
 */
module ShaCrypt {
  import opened Common
  import opened CryptBase64

  const DIGEST_LEN: nat := 64
  const MAX_PARTS: nat := 64
  const MAX_KEY: nat := 256
  const MAX_SALT: nat := 16
  const ROUNDS: nat := 5000

  type Hash = seq<byte> -> Digest

  // ---- The definition, step by step ----

  /** `n` copies of `s`. */
  function Repeat(s: seq<byte>, n: nat): seq<byte> {
    if n == 0 then [] else Repeat(s, n - 1) + s
  }

  /** The first `n` bytes of `d` repeated for ever (steps 9-10, 16 and 20). */
  function Cycle(d: Digest, n: nat): (r: seq<byte>)
    ensures |r| == n
  {
    seq(n, i requires 0 <= i < n => d[i % 64])
  }

  function Pow2(k: nat): (p: posint) {
    if k == 0 then 1 else 2 * Pow2(k - 1)
  }

  /** `n` shifted right by `k`. */
  function Shift(n: nat, k: nat): nat {
    if k == 0 then n else Shift(n, k - 1) / 2
  }

  function Bit(n: nat, k: nat): nat {
    Shift(n, k) % 2
  }

  /** Number of binary digits of `n`. */
  function BitLength(n: nat): nat {
    if n == 0 then 0 else 1 + BitLength(n / 2)
  }

  /** Step 11 for the `k` lowest bits of the key length: digest B for a 1, the key for a 0. */
  function BitFeeds(b: seq<byte>, key: seq<byte>, k: nat): seq<byte> {
    if k == 0 then []
    else BitFeeds(b, key, k - 1) + if Bit(|key|, k - 1) == 1 then b else key
  }

  /** Steps 4-8. */
  function DigestB(h: Hash, key: seq<byte>, salt: seq<byte>): Digest {
    h(key + salt + key)
  }

  /** Steps 1-3 and 9-12. */
  function DigestA(h: Hash, key: seq<byte>, salt: seq<byte>): Digest {
    var b := DigestB(h, key, salt);
    h(key + salt + Cycle(b, |key|) + BitFeeds(b, key, BitLength(|key|)))
  }

  /** Steps 13-16: byte sequence P. */
  function SequenceP(h: Hash, key: seq<byte>): seq<byte> {
    Cycle(h(Repeat(key, |key|)), |key|)
  }

  /** Steps 17-20: byte sequence S. */
  function SequenceS(h: Hash, salt: seq<byte>, a: Digest): seq<byte> {
    Cycle(h(Repeat(salt, 16 + a[0] as int)), |salt|)
  }

  /** What round `i` of step 21 hashes. */
  function RoundInput(p: seq<byte>, s: seq<byte>, c: seq<byte>, i: nat): seq<byte> {
    (if i % 2 == 1 then p else c) + (if i % 3 != 0 then s else [])
    + (if i % 7 != 0 then p else []) + (if i % 2 == 1 then c else p)
  }

  function AfterRounds(h: Hash, p: seq<byte>, s: seq<byte>, a: Digest, n: nat): Digest {
    if n == 0 then a else h(RoundInput(p, s, AfterRounds(h, p, s, a, n - 1), n - 1))
  }

  /** Steps 1-21. */
  function CryptDigest(h: Hash, key: seq<byte>, salt: seq<byte>): Digest {
    var a := DigestA(h, key, salt);
    AfterRounds(h, SequenceP(h, key), SequenceS(h, salt, a), a, ROUNDS)
  }

  // ---- The definition in instances ----

  lemma {:induction false} RepeatMeans(s: seq<byte>, n: nat)
    requires s != []
    ensures |Repeat(s, n)| == n * |s| && forall i :: 0 <= i < |Repeat(s, n)| ==> Repeat(s, n)[i] == s[i % |s|]
  {
    if n > 0 {
      RepeatMeans(s, n - 1);
      MulAdd(n - 1, 1, |s|);
      var front := Repeat(s, n - 1);
      forall i | 0 <= i < |front| + |s|
        ensures Repeat(s, n)[i] == s[i % |s|]
      {
        if i >= |front| {
          DivMod(i, |s|, n - 1, i - |front|);
        }
      }
    }
  }

  /** The eight inputs of the rounds: by oddness, by divisibility by 3, by divisibility by 7. */
  lemma RoundCases(p: seq<byte>, s: seq<byte>, c: seq<byte>, i: nat)
    ensures RoundInput(p, s, c, i) ==
            match (i % 2 == 1, i % 3 == 0, i % 7 == 0)
            case (false, false, false) => c + s + p + p
            case (false, false, true) => c + s + p
            case (false, true, false) => c + p + p
            case (false, true, true) => c + p
            case (true, false, false) => p + s + p + c
            case (true, false, true) => p + s + c
            case (true, true, false) => p + p + c
            case (true, true, true) => p + c
  {
    assert p + [] == p && c + [] == c;
  }

  /** Step 11 for a key of five bytes: 5 is 101 in binary, read from its lowest digit. */
  lemma FeedsOfFive(b: seq<byte>, key: seq<byte>)
    requires |key| == 5
    ensures BitFeeds(b, key, BitLength(|key|)) == b + key + b
  {
    assert BitLength(5) == 3;
    assert Bit(5, 0) == 1 && Bit(5, 1) == 0 && Bit(5, 2) == 1;
    assert BitFeeds(b, key, 0) == [];
    assert BitFeeds(b, key, 1) == b;
    assert BitFeeds(b, key, 2) == b + key;
  }

  // ---- Arithmetic of the bit loop ----

  lemma {:induction false} BitLengthBound(n: nat, k: nat)
    requires n < Pow2(k)
    ensures BitLength(n) <= k
  {
    if n != 0 {
      BitLengthBound(n / 2, k - 1);
    }
  }

  /** The shift loop runs once for each binary digit. */
  lemma {:induction false} BitLengthOfShift(n: nat, k: nat)
    ensures Shift(n, k) == 0 ==> BitLength(n) <= k
    ensures Shift(n, k) != 0 ==> BitLength(n) > k && BitLength(n) == k + BitLength(Shift(n, k))
  {
    if k > 0 {
      BitLengthOfShift(n, k - 1);
    }
  }

  // ---- Lists of parts ----

  function Concat(parts: seq<seq<byte>>): seq<byte> {
    if parts == [] then [] else Concat(parts[..|parts| - 1]) + parts[|parts| - 1]
  }

  lemma ConcatSnoc(parts: seq<seq<byte>>, part: seq<byte>)
    ensures Concat(parts + [part]) == Concat(parts) + part
  {
    assert (parts + [part])[..|parts|] == parts;
  }

  lemma ConcatEmpty()
    ensures Concat([]) == []
  {
  }

  /** Appends a part; the array index is the proof that `parts[64]` does not overflow. */
  method AddPart(parts: array<seq<byte>>, n: nat, part: seq<byte>) returns (n': nat)
    requires n < parts.Length
    modifies parts
    ensures n' == n + 1
    ensures Concat(parts[..n']) == Concat(old(parts[..n])) + part
  {
    ghost var before := parts[..n];
    ConcatSnoc(before, part);
    parts[n] := part;
    n' := n + 1;
    assert parts[..n'] == before + [part];
  }

  /** `sha512_oneshot`: hashes the parts in order, skipping empty ones, and overwrites `out`. */
  method Sha512OneShot(h: Hash, parts: array<seq<byte>>, n: nat, out: array<byte>)
    requires n <= parts.Length && out.Length == DIGEST_LEN
    modifies out
    ensures out[..] == h(Concat(parts[..n]))
  {
    var fed: seq<byte> := [];
    var i := 0;
    while i < n
      invariant 0 <= i <= n && fed == Concat(parts[..i])
    {
      ConcatSnoc(parts[..i], parts[i]);
      assert parts[..i] + [parts[i]] == parts[..i + 1];
      if |parts[i]| != 0 {
        fed := fed + parts[i];
      }
      i := i + 1;
    }
    ghost var fill := parts[..n];
    var digest := h(fed);
    forall j | 0 <= j < DIGEST_LEN {
      out[j] := digest[j];
    }
    assert out[..] == digest && parts[..n] == fill;
  }

  // ---- The program ----

  method ComputeDigestB(h: Hash, key: seq<byte>, salt: seq<byte>, parts: array<seq<byte>>, alt: array<byte>)
    requires parts.Length == MAX_PARTS && alt.Length == DIGEST_LEN
    modifies parts, alt
    ensures alt[..] == DigestB(h, key, salt)
  {
    ConcatEmpty();
    assert parts[..0] == [];
    var n := AddPart(parts, 0, key);
    n := AddPart(parts, n, salt);
    n := AddPart(parts, n, key);
    assert Concat(parts[..n]) == key + salt + key;
    Sha512OneShot(h, parts, n, alt);
  }

  lemma CycleBlock(d: Digest, n: nat)
    requires n % 64 == 0
    ensures forall m | 0 <= m <= 64 :: Cycle(d, n + m) == Cycle(d, n) + d[..m]
  {
    forall m | 0 <= m <= 64
      ensures Cycle(d, n + m) == Cycle(d, n) + d[..m]
    {
      forall i | 0 <= i < n + m
        ensures Cycle(d, n + m)[i] == (Cycle(d, n) + d[..m])[i]
      {
        if i >= n {
          assert i % 64 == i - n;
        }
      }
    }
  }

  method FeedBlocks(key: seq<byte>, b: Digest, parts: array<seq<byte>>, n0: nat) returns (n: nat)
    requires |key| <= MAX_KEY && parts.Length == MAX_PARTS && n0 == 2
    modifies parts
    ensures 2 <= n <= 6
    ensures Concat(parts[..n]) == Concat(old(parts[..n0])) + Cycle(b, |key|)
  {
    n := n0;
    var cnt := |key|;
    assert Cycle(b, 0) == [];
    hide *;
    while cnt > DIGEST_LEN
      invariant 0 <= cnt <= |key| && (|key| - cnt) % 64 == 0
      invariant n == 2 + (|key| - cnt) / 64
      invariant |key| > 0 ==> cnt > 0
      invariant Concat(parts[..n]) == Concat(old(parts[..n0])) + Cycle(b, |key| - cnt)
    {
      CycleBlock(b, |key| - cnt);
      assert b[..64] == b;
      n := AddPart(parts, n, b);
      cnt := cnt - DIGEST_LEN;
    }
    if cnt > 0 {
      CycleBlock(b, |key| - cnt);
      n := AddPart(parts, n, b[..cnt]);
    }
  }

  /** One turn of the shift loop reads the next binary digit. */
  lemma NextBit(len: nat, k: nat)
    requires Shift(len, k) > 0 && len <= MAX_KEY
    ensures k < BitLength(len) <= 9
    ensures Shift(len, k) % 2 == Bit(len, k) && Shift(len, k) / 2 == Shift(len, k + 1)
  {
    BitLengthOfShift(len, k);
    assert Pow2(9) == 512;
    BitLengthBound(len, 9);
  }

  lemma NoMoreBits(len: nat, k: nat)
    requires Shift(len, k) == 0 && k <= BitLength(len)
    ensures k == BitLength(len)
  {
    BitLengthOfShift(len, k);
  }

  lemma NextFeed(b: seq<byte>, key: seq<byte>, k: nat)
    ensures BitFeeds(b, key, k + 1) == BitFeeds(b, key, k) + if Bit(|key|, k) == 1 then b else key
  {
  }

  lemma AppendAssoc(a: seq<byte>, b: seq<byte>, c: seq<byte>)
    ensures a + b + c == a + (b + c)
  {
  }

  method FeedBits(key: seq<byte>, b: Digest, parts: array<seq<byte>>, n0: nat) returns (n: nat)
    requires |key| <= MAX_KEY && parts.Length == MAX_PARTS && n0 <= 6
    modifies parts
    ensures n <= MAX_PARTS
    ensures Concat(parts[..n]) == Concat(old(parts[..n0])) + BitFeeds(b, key, BitLength(|key|))
  {
    n := n0;
    var cnt := |key|;
    ghost var k, fed: seq<byte>, before := 0, [], Concat(parts[..n0]);
    assert Shift(cnt, 0) == cnt && BitFeeds(b, key, 0) == [];
    hide *;
    while cnt > 0
      invariant cnt == Shift(|key|, k) && n == n0 + k
      invariant k <= BitLength(|key|) && k <= 9
      invariant fed == BitFeeds(b, key, k) && Concat(parts[..n]) == before + fed
    {
      NextBit(|key|, k);
      NextFeed(b, key, k);
      var part := if cnt % 2 == 1 then b else key;
      ghost var sofar := before + fed;
      n := AddPart(parts, n, part);
      assert Concat(parts[..n]) == sofar + part;
      AppendAssoc(before, fed, part);
      fed := fed + part;
      cnt := cnt / 2;
      k := k + 1;
    }
    NoMoreBits(|key|, k);
  }

  method ComputeDigestA(h: Hash, key: seq<byte>, salt: seq<byte>, parts: array<seq<byte>>,
                        alt: array<byte>, digest: array<byte>)
    requires |key| <= MAX_KEY && parts.Length == MAX_PARTS
    requires alt.Length == digest.Length == DIGEST_LEN && alt != digest
    requires alt[..] == DigestB(h, key, salt)
    modifies parts, digest
    ensures digest[..] == DigestA(h, key, salt)
  {
    ConcatEmpty();
    hide Concat;
    hide Cycle;
    hide BitFeeds;
    hide BitLength;
    hide DigestB;
    ghost var b := alt[..];
    assert parts[..0] == [];
    var n := AddPart(parts, 0, key);
    n := AddPart(parts, n, salt);
    assert Concat(parts[..n]) == key + salt;
    n := FeedBlocks(key, alt[..], parts, n);
    assert alt[..] == b;
    n := FeedBits(key, alt[..], parts, n);
    assert Concat(parts[..n]) == key + salt + Cycle(b, |key|) + BitFeeds(b, key, BitLength(|key|));
    Sha512OneShot(h, parts, n, digest);
  }

  /** Incremental hash of `times` copies of `s` (DP and DS). */
  method HashRepeated(h: Hash, s: seq<byte>, times: nat, out: array<byte>)
    requires out.Length == DIGEST_LEN
    modifies out
    ensures out[..] == h(Repeat(s, times))
  {
    var fed: seq<byte> := [];
    var cnt := 0;
    while cnt < times
      invariant 0 <= cnt <= times && fed == Repeat(s, cnt)
    {
      fed := fed + s;
      cnt := cnt + 1;
    }
    var digest := h(fed);
    forall j | 0 <= j < DIGEST_LEN {
      out[j] := digest[j];
    }
    assert out[..] == digest;
  }

  /** Fills `dst` with whole copies of `d` and then as much of it as fits. */
  method Expand(d: array<byte>, dst: array<byte>)
    requires d.Length == DIGEST_LEN && d != dst
    modifies dst
    ensures dst[..] == Cycle(d[..], dst.Length)
  {
    var left := dst.Length;
    while left >= DIGEST_LEN
      invariant 0 <= left <= dst.Length && (dst.Length - left) % 64 == 0
      invariant forall i :: 0 <= i < dst.Length - left ==> dst[i] == d[i % 64]
    {
      var at := dst.Length - left;
      CopyInto(d, DIGEST_LEN, dst, at);
      left := left - DIGEST_LEN;
    }
    if left > 0 {
      CopyInto(d, left, dst, dst.Length - left);
    }
  }

  /** `memcpy(dst + at, d, n)` on a block boundary. */
  method CopyInto(d: array<byte>, n: nat, dst: array<byte>, at: nat)
    requires d != dst && n <= d.Length == 64 && at + n <= dst.Length && at % 64 == 0
    modifies dst
    ensures forall i :: 0 <= i < dst.Length && !(at <= i < at + n) ==> dst[i] == old(dst[i])
    ensures forall i :: at <= i < at + n ==> dst[i] == d[i % 64]
  {
    forall i | 0 <= i < n {
      dst[at + i] := d[i];
    }
    forall i | at <= i < at + n
      ensures dst[i] == d[i % 64]
    {
      assert i % 64 == i - at;
      assert dst[at + (i - at)] == d[i - at];
    }
  }

  method MainLoop(h: Hash, p: seq<byte>, s: seq<byte>, parts: array<seq<byte>>, digest: array<byte>)
    requires parts.Length == MAX_PARTS && digest.Length == DIGEST_LEN
    modifies parts, digest
    ensures digest[..] == AfterRounds(h, p, s, old(digest[..]), ROUNDS)
  {
    var i := 0;
    while i < ROUNDS
      invariant 0 <= i <= ROUNDS
      invariant digest[..] == AfterRounds(h, p, s, old(digest[..]), i)
    {
      OneRound(h, p, s, i, parts, digest);
      i := i + 1;
    }
  }

  method OneRound(h: Hash, p: seq<byte>, s: seq<byte>, i: nat, parts: array<seq<byte>>, digest: array<byte>)
    requires parts.Length == MAX_PARTS && digest.Length == DIGEST_LEN
    modifies parts, digest
    ensures digest[..] == h(RoundInput(p, s, old(digest[..]), i))
  {
    ConcatEmpty();
    hide Concat;
    ghost var c := digest[..];
    assert parts[..0] == [];
    var n := 0;
    if i % 2 == 1 { n := AddPart(parts, n, p); } else { n := AddPart(parts, n, digest[..]); }
    ghost var fed := if i % 2 == 1 then p else c;
    assert n == 1 && Concat(parts[..n]) == fed;
    if i % 3 != 0 { n := AddPart(parts, n, s); }
    fed := fed + if i % 3 != 0 then s else [];
    assert n <= 2 && Concat(parts[..n]) == fed;
    if i % 7 != 0 { n := AddPart(parts, n, p); }
    fed := fed + if i % 7 != 0 then p else [];
    assert n <= 3 && Concat(parts[..n]) == fed;
    if i % 2 == 1 { n := AddPart(parts, n, digest[..]); } else { n := AddPart(parts, n, p); }
    assert Concat(parts[..n]) == RoundInput(p, s, c, i);
    Sha512OneShot(h, parts, n, digest);
  }

  /** What the caller must provide: the length guard of the program. */
  predicate Accepted(key: seq<byte>, salt: seq<byte>, outSize: nat) {
    |key| <= MAX_KEY && |salt| <= MAX_SALT && outSize >= 110
  }

  /** The finished hash string `$6$<salt>$<86 characters>`. */
  function CryptString(h: Hash, key: seq<byte>, salt: seq<byte>): (r: seq<byte>)
    ensures |r| == 90 + |salt|
  {
    Units("$6$") + salt + Units("$") + Tail(CryptDigest(h, key, salt))
  }

  /** DP, then `P`: the key-length sequence made of it. */
  method ComputeP(h: Hash, key: seq<byte>) returns (P: array<byte>)
    ensures fresh(P) && P[..] == SequenceP(h, key)
  {
    hide Repeat;
    hide Cycle;
    var pSeq := new byte[DIGEST_LEN](_ => 0);
    HashRepeated(h, key, |key|, pSeq);
    P := new byte[|key|](_ => 0);
    Expand(pSeq, P);
  }

  /** DS, then `S`: the salt-length sequence made of it. */
  method ComputeS(h: Hash, salt: seq<byte>, a: Digest) returns (S: array<byte>)
    ensures fresh(S) && S[..] == SequenceS(h, salt, a)
  {
    hide Repeat;
    hide Cycle;
    var sSeq := new byte[DIGEST_LEN](_ => 0);
    HashRepeated(h, salt, 16 + a[0] as int, sSeq);
    S := new byte[|salt|](_ => 0);
    Expand(sSeq, S);
  }

  /** Steps 1-21, leaving the digest in `digest`. */
  method ComputeDigest(h: Hash, key: seq<byte>, salt: seq<byte>, digest: array<byte>)
    requires |key| <= MAX_KEY && digest.Length == DIGEST_LEN
    modifies digest
    ensures digest[..] == CryptDigest(h, key, salt)
  {
    hide AfterRounds;
    hide DigestA;
    hide DigestB;
    hide SequenceP;
    hide SequenceS;
    var parts := new seq<byte>[MAX_PARTS](_ => []);
    var alt := new byte[DIGEST_LEN](_ => 0);
    ComputeDigestB(h, key, salt, parts, alt);
    ComputeDigestA(h, key, salt, parts, alt, digest);
    var P := ComputeP(h, key);
    var S := ComputeS(h, salt, digest[..]);
    MainLoop(h, P[..], S[..], parts, digest);
  }

  /** Step 22: prefix, salt, separator, tail and the terminating NUL. */
  method WriteString(d: Digest, salt: seq<byte>, out: array<byte>) returns (rc: nat)
    requires |salt| <= MAX_SALT && out.Length >= 110
    modifies out
    ensures rc == 90 + |salt|
    ensures out[..rc] == Units("$6$") + salt + Units("$") + Tail(d) && out[rc] == 0
  {
    var head: seq<byte> := Units("$6$") + salt + Units("$");
    forall i | 0 <= i < |head| {
      out[i] := head[i];
    }
    assert out[..|head|] == head;
    hide Tail;
    rc := EmitTail(d, out, |head|);
    ghost var text := out[..rc];
    out[rc] := 0;
    assert out[..rc] == text;
  }

  /** `sha512_crypt`: refuses what does not fit, else writes the NUL-terminated string and returns its length. */
  method Sha512Crypt(h: Hash, key: seq<byte>, salt: seq<byte>, out: array<byte>) returns (rc: nat)
    modifies out
    ensures !Accepted(key, salt, out.Length) ==> rc == 0 && out[..] == old(out[..])
    ensures Accepted(key, salt, out.Length) ==>
              && rc == 90 + |salt| && rc < 110
              && out[..rc] == CryptString(h, key, salt) && out[rc] == 0
  {
    if |key| > MAX_KEY || |salt| > MAX_SALT || out.Length < 110 {
      return 0;
    }
    hide CryptDigest;
    hide Tail;
    hide Units;
    var digest := new byte[DIGEST_LEN](_ => 0);
    ComputeDigest(h, key, salt, digest);
    rc := WriteString(digest[..], salt, out);
  }
}
