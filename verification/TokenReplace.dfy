/**
 `str_replace_all`: a first pass counts the occurrences of a token with `strstr` and sizes
 the buffer, a second pass copies with `strncmp` at every position. The two passes must
 agree for the allocation to suffice.
 */
module TokenReplace {
  import opened Common

  type Text = seq<byte>

  /** `strncmp(s, tok, strlen(tok)) == 0`. */
  predicate Matches(s: Text, tok: Text) {
    |tok| <= |s| && s[..|tok|] == tok
  }

  /** `strstr(s, tok)`: offset of the first occurrence, or `None`. */
  function StrStr(s: Text, tok: Text): (r: Option<nat>)
    ensures r.Some? ==> r.value + |tok| <= |s|
  {
    if Matches(s, tok) then Some(0)
    else if s == [] then None
    else match StrStr(s[1..], tok)
      case None => None
      case Some(i) => Some(i + 1)
  }

  /** It is the first occurrence: the token is there and nowhere before. */
  lemma {:induction false} StrStrMeans(s: Text, tok: Text)
    requires tok != []
    ensures StrStr(s, tok).Some? ==>
              var i := StrStr(s, tok).value;
              Matches(s[i..], tok) && forall j :: 0 <= j < i ==> !Matches(s[j..], tok)
    ensures StrStr(s, tok) == None ==> forall j :: 0 <= j <= |s| ==> !Matches(s[j..], tok)
  {
    assert s[0..] == s;
    if !Matches(s, tok) && s != [] {
      StrStrMeans(s[1..], tok);
      forall j | 1 <= j <= |s|
        ensures s[j..] == s[1..][j - 1..]
      {
      }
    }
  }

  // ---- The specification ----

  /** The text cut at its leftmost non-overlapping occurrences of the token. */
  function Pieces(s: Text, tok: Text): (r: seq<Text>)
    requires tok != []
    ensures r != []
    decreases |s|
  {
    match StrStr(s, tok)
    case None => [s]
    case Some(i) => [s[..i]] + Pieces(s[i + |tok|..], tok)
  }

  function Join(pieces: seq<Text>, sep: Text): Text
    requires pieces != []
  {
    if |pieces| == 1 then pieces[0] else pieces[0] + sep + Join(pieces[1..], sep)
  }

  function ReplaceAll(s: Text, tok: Text, val: Text): Text
    requires tok != []
  {
    Join(Pieces(s, tok), val)
  }

  function Count(s: Text, tok: Text): nat
    requires tok != []
  {
    |Pieces(s, tok)| - 1
  }

  lemma JoinCons(first: Text, more: seq<Text>, sep: Text)
    requires more != []
    ensures Join([first] + more, sep) == first + sep + Join(more, sep)
  {
    assert ([first] + more)[1..] == more;
  }

  /** The cuts lose nothing: putting the token back gives the source. */
  lemma {:induction false} PiecesJoinBack(s: Text, tok: Text)
    requires tok != []
    ensures Join(Pieces(s, tok), tok) == s
    decreases |s|
  {
    match StrStr(s, tok) {
      case None =>
      case Some(i) =>
        var more := s[i + |tok|..];
        PiecesJoinBack(more, tok);
        StrStrMeans(s, tok);
        assert s == s[..i] + s[i..i + |tok|] + more && s[i..][..|tok|] == s[i..i + |tok|];
        assert Pieces(s, tok) == [s[..i]] + Pieces(more, tok);
        hide *;
        JoinCons(s[..i], Pieces(more, tok), tok);
    }
  }

  /** No occurrence is left inside a piece. */
  lemma {:induction false} PiecesHoldNoToken(s: Text, tok: Text, k: nat)
    requires tok != [] && k < |Pieces(s, tok)|
    ensures StrStr(Pieces(s, tok)[k], tok) == None
    decreases |s|
  {
    if StrStr(s, tok).Some? {
      var i := StrStr(s, tok).value;
      if k > 0 {
        PiecesHoldNoToken(s[i + |tok|..], tok, k - 1);
      } else if StrStr(s[..i], tok).Some? {
        EarlierToken(s, tok, i);
      }
    }
  }

  lemma EarlierToken(s: Text, tok: Text, i: nat)
    requires tok != [] && StrStr(s, tok) == Some(i) && i <= |s|
    ensures StrStr(s[..i], tok) == None
  {
    StrStrMeans(s, tok);
    StrStrMeans(s[..i], tok);
    hide StrStr;
    forall j | 0 <= j <= i
      ensures Matches(s[..i][j..], tok) ==> j < i && Matches(s[j..], tok)
    {
      if j + |tok| <= i { assert s[..i][j..][..|tok|] == s[j..][..|tok|]; }
    }
  }

  lemma ReplaceNone(s: Text, tok: Text, val: Text)
    requires tok != [] && StrStr(s, tok) == None
    ensures ReplaceAll(s, tok, val) == s && Count(s, tok) == 0
  {
  }

  lemma ReplaceFound(s: Text, tok: Text, val: Text, i: nat)
    requires tok != [] && StrStr(s, tok) == Some(i)
    ensures i + |tok| <= |s|
    ensures ReplaceAll(s, tok, val) == s[..i] + val + ReplaceAll(s[i + |tok|..], tok, val)
    ensures Count(s, tok) == 1 + Count(s[i + |tok|..], tok)
  {
    hide StrStr, Matches;
    var more := Pieces(s[i + |tok|..], tok);
    assert Pieces(s, tok) == [s[..i]] + more;
    hide Pieces, Join;
    JoinCons(s[..i], more, val);
  }

  /** One step of the copying pass. */
  lemma ReplaceStep(s: Text, tok: Text, val: Text)
    requires tok != [] && s != []
    ensures Matches(s, tok) ==> ReplaceAll(s, tok, val) == val + ReplaceAll(s[|tok|..], tok, val)
    ensures !Matches(s, tok) ==> ReplaceAll(s, tok, val) == [s[0]] + ReplaceAll(s[1..], tok, val)
  {
    if Matches(s, tok) {
      ReplaceFound(s, tok, val, 0);
      assert s[..0] + val == val;
    } else {
      assert StrStr(s, tok) == match StrStr(s[1..], tok) case None => None case Some(i) => Some(i + 1);
      ReplaceSkip(s, tok, val);
    }
  }

  lemma ReplaceSkip(s: Text, tok: Text, val: Text)
    requires tok != [] && s != []
    requires StrStr(s, tok) == match StrStr(s[1..], tok) case None => None case Some(i) => Some(i + 1)
    ensures ReplaceAll(s, tok, val) == [s[0]] + ReplaceAll(s[1..], tok, val)
  {
    hide *;
    match StrStr(s[1..], tok) {
      case None =>
        ReplaceNone(s, tok, val);
        ReplaceNone(s[1..], tok, val);
      case Some(i) =>
        ReplaceFound(s, tok, val, i + 1);
        ReplaceFound(s[1..], tok, val, i);
        var more := s[i + 1 + |tok|..];
        assert s[1..][i + |tok|..] == more;
        assert s[..i + 1] == [s[0]] + s[1..][..i];
    }
  }

  /** The buffer sized by the counting pass holds what the copying pass writes. */
  lemma {:induction false} ReplacementFits(s: Text, tok: Text, val: Text)
    requires tok != []
    ensures |ReplaceAll(s, tok, val)| <= |s| + Count(s, tok) * |val|
    decreases |s|
  {
    hide *;
    match StrStr(s, tok) {
      case None => ReplaceNone(s, tok, val);
      case Some(i) =>
        ReplaceFound(s, tok, val, i);
        var more := s[i + |tok|..];
        ReplacementFits(more, tok, val);
        var n, m := Count(more, tok), |val|;
        assert (1 + n) * m == m + n * m;
    }
  }

  // ---- The program ----

  method CountOccurrences(src: Text, tok: Text) returns (cnt: nat)
    requires tok != []
    ensures cnt == Count(src, tok)
  {
    hide StrStr, Count;
    cnt := 0;
    var p := 0;
    assert src[0..] == src;
    var found := StrStr(src[p..], tok);
    while found.Some?
      invariant 0 <= p <= |src| && found == StrStr(src[p..], tok)
      invariant cnt + Count(src[p..], tok) == Count(src, tok)
      decreases |src| - p
    {
      ReplaceFound(src[p..], tok, [], found.value);
      assert src[p..][found.value + |tok|..] == src[p + found.value + |tok|..];
      cnt := cnt + 1;
      p := p + found.value + |tok|;
      found := StrStr(src[p..], tok);
    }
    ReplaceNone(src[p..], tok, []);
  }

  /** Where the counting pass stands after `n` turns; None once `strstr` has found nothing. */
  function Position(src: Text, tok: Text, n: nat): (r: Option<nat>)
    ensures r.Some? ==> n * |tok| <= r.value <= |src|
  {
    if n == 0 then Some(0)
    else
      match Position(src, tok, n - 1)
      case None => None
      case Some(p) =>
        match StrStr(src[p..], tok)
        case None => None
        case Some(i) =>
          OneTurn(n, |tok|);
          Some(p + i + |tok|)
  }

  lemma OneTurn(n: nat, m: nat)
    requires n > 0
    ensures n * m == (n - 1) * m + m
  {
  }

  /** An empty token is found where the pass stands, so it does not move. */
  lemma {:induction false} EmptyTokenStands(src: Text, n: nat)
    ensures Position(src, [], n) == Some(0)
  {
    if n > 0 {
      EmptyTokenStands(src, n - 1);
      assert src[0..] == src && Matches(src, []);
    }
  }

  /** The counting pass ends, after some number of turns, exactly when the token is not empty. */
  lemma CountingEndsIff(src: Text, tok: Text)
    ensures (exists n: nat :: Position(src, tok, n) == None) <==> tok != []
  {
    if tok == [] {
      forall n: nat
        ensures Position(src, tok, n) != None
      {
        EmptyTokenStands(src, n);
      }
    } else {
      var n := |src| + 1;
      AtLeast(n, |tok|);
      assert Position(src, tok, n) == None;
    }
  }

  lemma AtLeast(n: nat, m: nat)
    requires m >= 1
    ensures n * m >= n
  {
    assert n * m == n * (m - 1) + n;
  }

  /** The caller gets a NUL-terminated buffer. */
  method StrReplaceAll(src: Text, tok: Text, val: Text) returns (out: array<byte>, end: nat)
    requires tok != []
    ensures fresh(out) && end < out.Length
    ensures out[..end] == ReplaceAll(src, tok, val) && out[end] == 0
  {
    var cnt := CountOccurrences(src, tok);
    ReplacementFits(src, tok, val);
    out := new byte[|src| + cnt * |val| + 1](_ => 0);
    end := CopyPass(src, tok, val, out);
  }

  method CopyPass(src: Text, tok: Text, val: Text, out: array<byte>) returns (end: nat)
    requires tok != [] && |ReplaceAll(src, tok, val)| < out.Length
    modifies out
    ensures end < out.Length && out[..end] == ReplaceAll(src, tok, val) && out[end] == 0
  {
    ReplaceEnds(src, tok, val);
    var s, d := 0, 0;
    assert Copied(out[..0], src, s, tok, val);
    hide Copied;
    while s < |src|
      invariant 0 <= s <= |src| && 0 <= d <= |ReplaceAll(src, tok, val)|
      invariant Copied(out[..d], src, s, tok, val)
      decreases |src| - s
    {
      s, d := CopyOne(src, s, tok, val, out, d);
    }
    CopiedAll(out[..d], src, tok, val);
    out[d] := 0;
    end := d;
  }

  /** `written` is the part of the result that stands for the source up to `s`. */
  ghost predicate Copied(written: Text, src: Text, s: nat, tok: Text, val: Text)
    requires tok != [] && s <= |src|
  {
    var all := ReplaceAll(src, tok, val);
    |written| <= |all| && written == all[..|written|] && all[|written|..] == ReplaceFrom(src, s, tok, val)
  }

  lemma CopiedAll(written: Text, src: Text, tok: Text, val: Text)
    requires tok != [] && Copied(written, src, |src|, tok, val)
    ensures written == ReplaceAll(src, tok, val)
  {
    ReplaceEnds(src, tok, val);
    hide ReplaceAll;
    hide ReplaceFrom;
  }

  /** One turn of the copying loop. */
  method CopyOne(src: Text, s: nat, tok: Text, val: Text, out: array<byte>, d: nat) returns (s': nat, d': nat)
    requires tok != [] && s < |src| && d <= |ReplaceAll(src, tok, val)| < out.Length
    requires Copied(out[..d], src, s, tok, val)
    modifies out
    ensures s < s' <= |src| && d' <= |ReplaceAll(src, tok, val)|
    ensures Copied(out[..d'], src, s', tok, val)
  {
    hide *;
    if MatchesAt(src, s, tok) {
      StepMatched(src, s, tok, val);
      Put(src, s, s + |tok|, tok, val, out, d, val);
      s', d' := s + |tok|, d + |val|;
    } else {
      StepCopied(src, s, tok, val);
      Put(src, s, s + 1, tok, val, out, d, [src[s]]);
      s', d' := s + 1, d + 1;
    }
  }

  /** The replacement of the source from position `s` on. */
  function ReplaceFrom(src: Text, s: nat, tok: Text, val: Text): Text
    requires tok != [] && s <= |src|
  {
    ReplaceAll(src[s..], tok, val)
  }

  lemma ReplaceEnds(src: Text, tok: Text, val: Text)
    requires tok != []
    ensures ReplaceFrom(src, 0, tok, val) == ReplaceAll(src, tok, val) && ReplaceFrom(src, |src|, tok, val) == []
  {
    assert src[0..] == src && src[|src|..] == [];
    ReplaceNone([], tok, val);
  }

  predicate MatchesAt(src: Text, s: nat, tok: Text)
    requires s <= |src|
  {
    Matches(src[s..], tok)
  }

  lemma StepMatched(src: Text, s: nat, tok: Text, val: Text)
    requires tok != [] && s < |src| && MatchesAt(src, s, tok)
    ensures s + |tok| <= |src|
    ensures ReplaceFrom(src, s, tok, val) == val + ReplaceFrom(src, s + |tok|, tok, val)
  {
    ReplaceStep(src[s..], tok, val);
    hide ReplaceAll;
    assert src[s..][|tok|..] == src[s + |tok|..];
  }

  lemma StepCopied(src: Text, s: nat, tok: Text, val: Text)
    requires tok != [] && s < |src| && !MatchesAt(src, s, tok)
    ensures ReplaceFrom(src, s, tok, val) == [src[s]] + ReplaceFrom(src, s + 1, tok, val)
  {
    ReplaceStep(src[s..], tok, val);
    hide ReplaceAll;
    assert src[s..][1..] == src[s + 1..];
  }

  lemma Written(all: Text, d: nat, piece: Text, left: Text)
    requires d <= |all| && all[d..] == piece + left
    ensures d + |piece| <= |all| && left == all[d + |piece|..] && all[..d + |piece|] == all[..d] + piece
  {
    assert all == all[..d] + (piece + left);
  }

  /** Writes at `d` the `bytes` that stand for the source between `s` and `t`. */
  method Put(src: Text, s: nat, t: nat, tok: Text, val: Text, out: array<byte>, d: nat, bytes: Text)
    requires tok != [] && s <= |src| && t <= |src| && d <= |ReplaceAll(src, tok, val)| < out.Length
    requires Copied(out[..d], src, s, tok, val)
    requires ReplaceFrom(src, s, tok, val) == bytes + ReplaceFrom(src, t, tok, val)
    modifies out
    ensures d + |bytes| <= |ReplaceAll(src, tok, val)| && Copied(out[..d + |bytes|], src, t, tok, val)
  {
    hide ReplaceAll;
    hide ReplaceFrom;
    ghost var all := ReplaceAll(src, tok, val);
    Written(all, d, bytes, ReplaceFrom(src, t, tok, val));
    forall i | 0 <= i < |bytes| {
      out[d + i] := bytes[i];
    }
    assert out[..d + |bytes|] == all[..d] + bytes;
  }
}
