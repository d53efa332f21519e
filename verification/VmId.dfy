/** Stable VM ids: their text, `vm-` and sixteen lower-case hexadecimal digits, and their repair after a load. */
module VmId {
  import opened Common

  const TEXT: nat := 19
  const LIMIT: nat := 0x1_0000_0000_0000_0000

  function Pow16(n: nat): nat {
    if n == 0 then 1 else 16 * Pow16(n - 1)
  }

  function HexChar(v: nat): unit
    requires v < 16
  {
    if v < 10 then 48 + v else 87 + v
  }

  /** The `n` low digits of `id`. */
  function Hex(id: nat, n: nat): (r: wstring)
    ensures |r| == n
  {
    if n == 0 then [] else Hex(id / 16, n - 1) + [HexChar(id % 16)]
  }

  /** `asb_vm_id_format`. */
  function Format(id: nat): (r: wstring)
    ensures |r| == TEXT
  {
    Units("vm-") + Hex(id, 16)
  }

  const DIGITS := "0123456789abcdef"

  lemma DigitIs(v: nat)
    requires v < 16
    ensures HexChar(v) == DIGITS[v] as int
  {
  }

  lemma DivDiv(id: nat, p: nat)
    requires p > 0
    ensures id / 16 / p == id / (16 * p)
  {
    var q := id / 16;
    var r := q / p;
    assert q == r * p + q % p && id == 16 * q + id % 16;
    var rest := 16 * (q % p) + id % 16;
    assert id == r * (16 * p) + rest && 0 <= rest < 16 * p;
    DivMod(id, 16 * p, r, rest);
  }

  lemma HexFront(id: nat, n: nat, k: nat)
    requires k < n - 1
    ensures Hex(id, n)[k] == Hex(id / 16, n - 1)[k]
  {
  }

  /** Digit `k` of the text of an id is the one of weight 16 to the power `n - 1 - k`. */
  lemma {:induction false} HexAt(id: nat, n: nat, k: nat)
    requires k < n
    ensures Pow16(n - 1 - k) > 0 && Hex(id, n)[k] == DIGITS[id / Pow16(n - 1 - k) % 16] as int
  {
    hide Pow16, HexChar;
    PowPositive(n - 1 - k);
    if k == n - 1 {
      PowNext(0);
      HexLast(id, n);
    } else {
      PowPositive(n - 2 - k);
      HexAt(id / 16, n - 1, k);
      HexFront(id, n, k);
      DivDiv(id, Pow16(n - 2 - k));
      PowNext(n - 2 - k);
    }
  }

  lemma PowNext(n: nat)
    ensures Pow16(0) == 1 && Pow16(n + 1) == 16 * Pow16(n)
  {
  }

  lemma HexLast(id: nat, n: nat)
    requires n > 0
    ensures Hex(id, n)[n - 1] == DIGITS[id % 16] as int
  {
    DigitIs(id % 16);
    hide HexChar;
  }

  lemma {:induction false} PowPositive(n: nat)
    ensures Pow16(n) > 0
  {
    if n > 0 {
      PowPositive(n - 1);
    }
  }

  function DigitOf(c: wchar): (r: Option<nat>)
    ensures r.Some? ==> r.value < 16
  {
    if 48 <= c <= 57 then Some(c - 48) else if 97 <= c <= 102 then Some(c - 87) else None
  }

  function Number(s: wstring): (r: Option<nat>)
    ensures r.Some? ==> r.value < Pow16(|s|)
  {
    if s == [] then Some(0)
    else
      var high := Number(s[..|s| - 1]);
      if high.None? || DigitOf(s[|s| - 1]).None? then None else Some(high.value * 16 + DigitOf(s[|s| - 1]).value)
  }

  /** `asb_vm_id_parse`: 0 for anything that is not an id. */
  function Parse(s: wstring): (id: nat) {
    if |s| != TEXT || s[..3] != Units("vm-") || Number(s[3..]).None? then 0 else Number(s[3..]).value
  }

  lemma {:induction false} NumberOfHex(id: nat, n: nat)
    requires id < Pow16(n)
    ensures Number(Hex(id, n)) == Some(id)
  {
    if n > 0 {
      NumberOfHex(id / 16, n - 1);
      assert Hex(id, n)[..n - 1] == Hex(id / 16, n - 1);
    }
  }

  lemma PowerIs()
    ensures Pow16(16) == LIMIT
  {
    assert Pow16(4) == 0x1_0000;
    assert Pow16(8) == 0x1_0000_0000;
    assert Pow16(12) == 0x1_0000_0000_0000;
  }

  /** Every 64-bit id reads back. */
  lemma ReadsBack(id: nat)
    requires id < LIMIT
    ensures Parse(Format(id)) == id
  {
    PowerIs();
    NumberOfHex(id, 16);
    assert Format(id)[..3] == Units("vm-") && Format(id)[3..] == Hex(id, 16);
  }

  /** Anything accepted is the text of its id, so ids and accepted texts correspond one to one. */
  lemma ParsesOnlyFormatted(s: wstring)
    requires Parse(s) != 0
    ensures Parse(s) < LIMIT && Format(Parse(s)) == s
  {
    PowerIs();
    HexOfNumber(s[3..]);
    assert s == s[..3] + s[3..];
  }

  lemma {:induction false} HexOfNumber(s: wstring)
    requires Number(s).Some?
    ensures Hex(Number(s).value, |s|) == s
  {
    if s != [] {
      var front, last := s[..|s| - 1], s[|s| - 1];
      HexOfNumber(front);
      DigitBack(last, Number(front).value);
      assert s == front + [last];
    }
  }

  lemma DigitBack(c: unit, high: nat)
    requires DigitOf(c).Some?
    ensures HexChar(DigitOf(c).value) == c
    ensures (high * 16 + DigitOf(c).value) / 16 == high && (high * 16 + DigitOf(c).value) % 16 == DigitOf(c).value
  {
  }

  // ---- Repair ----

  predicate AllDistinct(ids: seq<nat>) {
    && (forall i :: 0 <= i < |ids| ==> ids[i] != 0)
    && forall i, j :: 0 <= i < j < |ids| ==> ids[i] != ids[j]
  }

  /** The entry holds an id that none before it holds. */
  predicate FirstHolder(ids: seq<nat>, i: int) {
    0 <= i < |ids| && ids[i] != 0 && forall j :: 0 <= j < i ==> ids[j] != ids[i]
  }

  /** First holders have kept their ids. */
  ghost predicate KeepsFirst(was: seq<nat>, now: seq<nat>) {
    |was| == |now| && forall i | 0 <= i < |was| && FirstHolder(was, i) :: now[i] == was[i]
  }

  /** The repair has passed entry `n`: first holders have kept their ids, the others have got unused ones. */
  ghost predicate RepairedUpTo(was: seq<nat>, now: seq<nat>, n: nat) {
    && n <= |was| == |now|
    && (forall k :: n <= k < |was| ==> now[k] == was[k])
    && (forall k :: 0 <= k < n && FirstHolder(was, k) ==> now[k] == was[k])
    && (forall k :: 0 <= k < n && !FirstHolder(was, k) ==> now[k] != 0 && now[k] !in was)
    && forall j, k :: 0 <= j < k < n ==> now[j] != now[k]
  }

  /** Every id used has a first holder. */
  lemma {:induction false} FirstOf(was: seq<nat>, i: nat) returns (m: nat)
    requires i < |was| && was[i] != 0
    ensures m <= i && FirstHolder(was, m) && was[m] == was[i]
  {
    if j :| 0 <= j < i && was[j] == was[i] {
      m := FirstOf(was, j);
    } else {
      m := i;
    }
  }

  /** An id repeats an earlier one exactly when its entry is not its first holder. */
  lemma RepeatsIff(was: seq<nat>, now: seq<nat>, i: nat)
    requires RepairedUpTo(was, now, i) && i < |was|
    ensures (exists j :: 0 <= j < i && now[j] == now[i]) || was[i] == 0 <==> !FirstHolder(was, i)
  {
    if was[i] != 0 {
      var m := FirstOf(was, i);
      if m < i {
        assert now[m] == now[i];
      }
      forall j | 0 <= j < i && now[j] == now[i]
        ensures was[j] == was[i]
      {
        assert was[i] in was;
      }
    }
  }

  lemma Kept(was: seq<nat>, now: seq<nat>, i: nat)
    requires RepairedUpTo(was, now, i) && FirstHolder(was, i)
    ensures RepairedUpTo(was, now, i + 1)
  {
    RepeatsIff(was, now, i);
  }

  lemma Replaced(was: seq<nat>, now: seq<nat>, i: nat, id: nat)
    requires RepairedUpTo(was, now, i) && i < |was| && !FirstHolder(was, i)
    requires id != 0 && forall k :: 0 <= k < |now| && k != i ==> now[k] != id
    requires was[i] != id
    ensures RepairedUpTo(was, now[i := id], i + 1) && id !in was
  {
    forall k | 0 <= k < |was|
      ensures was[k] != id
    {
      if was[k] != 0 {
        var m := FirstOf(was, k);
        assert m != i && now[m] == was[m];
      }
    }
  }

  lemma RepairedAll(was: seq<nat>, now: seq<nat>)
    requires RepairedUpTo(was, now, |was|)
    ensures AllDistinct(now) && (now == was <==> AllDistinct(was))
  {
    if k :| 0 <= k < |was| && !FirstHolder(was, k) {
      assert now[k] !in was && was[k] in was;
    }
  }

  // ---- When the draws suffice ----

  /** What the generator delivers before it fails. */
  function Delivered(draws: seq<nat>): seq<nat> {
    if draws == [] || draws[0] == 0 then [] else [draws[0]] + Delivered(draws[1..])
  }

  function NewIn(draws: seq<nat>, was: seq<nat>): set<nat> {
    set x | x in draws && x !in was
  }

  /** Entries among the first `n` that need another id. */
  function Missing(was: seq<nat>, n: nat): nat {
    if n == 0 then 0 else Missing(was, n - 1) + if FirstHolder(was, n - 1) then 0 else 1
  }

  /** The generator delivers as many new ids as there are entries without one of their own. */
  predicate Suffices(draws: seq<nat>, was: seq<nat>) {
    |NewIn(Delivered(draws), was)| >= Missing(was, |was|)
  }

  lemma {:induction false} DeliveredIs(draws: seq<nat>, n: nat)
    requires n <= |draws| && 0 !in draws[..n]
    ensures |Delivered(draws)| >= n && Delivered(draws)[..n] == draws[..n]
    ensures n == |draws| || draws[n] == 0 ==> Delivered(draws) == draws[..n]
  {
    if n > 0 {
      assert draws[..n][0] == draws[0] && draws[1..][..n - 1] == draws[..n][1..];
      DeliveredIs(draws[1..], n - 1);
      assert draws[..n] == [draws[0]] + draws[1..][..n - 1];
    }
  }

  lemma {:induction false} MissingGrows(was: seq<nat>, i: nat, n: nat)
    requires i <= n
    ensures Missing(was, i) <= Missing(was, n)
  {
    if i < n {
      MissingGrows(was, i, n - 1);
    }
  }

  /** Besides, the new ids among the first `next` draws are those that the entries before `n` have got. */
  ghost predicate DrawnUpTo(was: seq<nat>, now: seq<nat>, n: nat, draws: seq<nat>, next: nat) {
    && next <= |draws| && 0 !in draws[..next] && n <= |was| == |now|
    && |NewIn(draws[..next], was)| == Missing(was, n)
    && (forall k :: 0 <= k < n && !FirstHolder(was, k) ==> now[k] in NewIn(draws[..next], was))
    && forall x :: x in NewIn(draws[..next], was) ==> x in now[..n]
  }

  /** Draws that some entry holds add nothing new. */
  lemma NothingNew(was: seq<nat>, now: seq<nat>, n: nat, draws: seq<nat>, next: nat, to: nat)
    requires RepairedUpTo(was, now, n) && DrawnUpTo(was, now, n, draws, next) && Skipped(now, draws, next, to)
    ensures 0 !in draws[..to] && NewIn(draws[..to], was) == NewIn(draws[..next], was)
  {
    forall x | x in NewIn(draws[..to], was)
      ensures x in NewIn(draws[..next], was)
    {
      var j :| 0 <= j < to && draws[j] == x;
      if j < next {
        assert draws[..next][j] == x;
      } else {
        var k :| 0 <= k < |now| && now[k] == x;
        assert k < n && !FirstHolder(was, k);
      }
    }
    forall x | x in NewIn(draws[..next], was)
      ensures x in NewIn(draws[..to], was)
    {
      var j :| 0 <= j < next && draws[..next][j] == x;
      assert draws[..to][j] == x;
    }
    forall j | 0 <= j < to
      ensures draws[j] != 0
    {
      if j < next { assert draws[..next][j] == draws[j]; }
    }
  }

  /** One more new id. */
  lemma DrawnOne(was: seq<nat>, now: seq<nat>, n: nat, draws: seq<nat>, next: nat, to: nat, id: nat)
    requires RepairedUpTo(was, now, n) && DrawnUpTo(was, now, n, draws, next) && n < |was| && !FirstHolder(was, n)
    requires Skipped(now, draws, next, to) && to < |draws| && draws[to] == id != 0 && id !in was && id !in now[..n]
    ensures DrawnUpTo(was, now[n := id], n + 1, draws, to + 1)
  {
    NothingNew(was, now, n, draws, next, to);
    hide NewIn, FirstHolder, RepairedUpTo, Missing;
    DrawnNext(was, now, n, draws, to);
  }

  lemma DrawnNext(was: seq<nat>, now: seq<nat>, n: nat, draws: seq<nat>, to: nat)
    requires DrawnUpTo(was, now, n, draws, to) && n < |was| && !FirstHolder(was, n)
    requires to < |draws| && draws[to] != 0 && draws[to] !in was && draws[to] !in now[..n]
    ensures DrawnUpTo(was, now[n := draws[to]], n + 1, draws, to + 1)
  {
    var id, before := draws[to], NewIn(draws[..to], was);
    NewOne(draws, to, was);
    MissingOne(was, n);
    hide NewIn, FirstHolder, Missing;
    assert draws[..to + 1] == draws[..to] + [id];
    var front, longer := now[..n] + [id], now[n := id];
    assert longer[..n + 1] == front;
    forall k | 0 <= k < n + 1 && !FirstHolder(was, k)
      ensures longer[k] in before + {id}
    {
      assert k < n ==> longer[k] == now[k];
    }
    forall x | x in before + {id}
      ensures x in front
    {
      assert x in now[..n] || x == id;
    }
  }

  lemma MissingOne(was: seq<nat>, n: nat)
    ensures Missing(was, n + 1) == Missing(was, n) + if FirstHolder(was, n) then 0 else 1
  {
  }

  lemma NewOne(draws: seq<nat>, to: nat, was: seq<nat>)
    requires to < |draws| && draws[to] !in was
    ensures NewIn(draws[..to + 1], was) == NewIn(draws[..to], was) + {draws[to]}
  {
    assert draws[..to + 1] == draws[..to] + [draws[to]];
  }

  lemma DrawnNone(was: seq<nat>, now: seq<nat>, n: nat, draws: seq<nat>, next: nat)
    requires DrawnUpTo(was, now, n, draws, next) && n < |was| && FirstHolder(was, n)
    ensures DrawnUpTo(was, now, n + 1, draws, next)
  {
    assert now[..n + 1] == now[..n] + [now[n]];
  }

  /** The draws run out at entry `n`. */
  lemma RunsOut(was: seq<nat>, now: seq<nat>, n: nat, draws: seq<nat>, next: nat, to: nat)
    requires RepairedUpTo(was, now, n) && DrawnUpTo(was, now, n, draws, next) && n < |was| && !FirstHolder(was, n)
    requires Skipped(now, draws, next, to) && (to == |draws| || draws[to] == 0)
    ensures !Suffices(draws, was)
  {
    NothingNew(was, now, n, draws, next, to);
    DeliveredIs(draws, to);
    MissingGrows(was, n + 1, |was|);
  }

  lemma AllDrawn(was: seq<nat>, now: seq<nat>, draws: seq<nat>, next: nat)
    requires DrawnUpTo(was, now, |was|, draws, next)
    ensures Suffices(draws, was)
  {
    DeliveredIs(draws, next);
    var some, all := NewIn(draws[..next], was), NewIn(Delivered(draws), was);
    forall x | x in some
      ensures x in all
    {
      var j :| 0 <= j < next && draws[..next][j] == x;
      assert Delivered(draws)[j] == Delivered(draws)[..next][j];
    }
    assert all == some + (all - some);
  }

  /** Draws ids until one is no entry's; 0 when the generator fails. */
  method DrawUnused(ids: array<nat>, draws: seq<nat>, from: nat) returns (id: nat, next: nat)
    requires from <= |draws|
    ensures from <= next <= |draws| && (id != 0 ==> forall k :: 0 <= k < ids.Length ==> ids[k] != id)
    ensures id != 0 ==> from < next && draws[next - 1] == id && Skipped(ids[..], draws, from, next - 1)
    ensures id == 0 ==> exists to :: from <= to <= next && Skipped(ids[..], draws, from, to)
                                     && (to == |draws| || draws[to] == 0)
  {
    next := from;
    while next < |draws|
      invariant from <= next <= |draws| && Skipped(ids[..], draws, from, next)
    {
      id := draws[next];
      next := next + 1;
      if id == 0 { return; }
      var j := 0;
      while j < ids.Length && ids[j] != id
        invariant 0 <= j <= ids.Length && forall k :: 0 <= k < j ==> ids[k] != id
      {
        j := j + 1;
      }
      if j == ids.Length { return; }
    }
    id := 0;
  }

  /** The draws `from .. to` are ids that some entry holds. */
  predicate Skipped(ids: seq<nat>, draws: seq<nat>, from: nat, to: nat) {
    from <= to <= |draws| && forall j :: from <= j < to ==> draws[j] != 0 && draws[j] in ids
  }

  method RepeatsEarlier(ids: array<nat>, i: nat) returns (repeats: bool)
    requires i < ids.Length
    ensures repeats <==> exists j :: 0 <= j < i && ids[j] == ids[i]
  {
    for j := 0 to i
      invariant forall k :: 0 <= k < j ==> ids[k] != ids[i]
    {
      if ids[i] == ids[j] { return true; }
    }
    return false;
  }

  /** The repair of entry `i`: whether the draws suffice for it, and whether it was replaced. */
  method RepairOne(ids: array<nat>, i: nat, draws: seq<nat>, from: nat, ghost was: seq<nat>)
    returns (ok: bool, next: nat, replaced: bool)
    requires i < ids.Length && RepairedUpTo(was, ids[..], i) && DrawnUpTo(was, ids[..], i, draws, from)
    modifies ids
    ensures !ok ==> !Suffices(draws, was)
    ensures KeepsFirst(was, ids[..])
    ensures ok ==> RepairedUpTo(was, ids[..], i + 1) && DrawnUpTo(was, ids[..], i + 1, draws, next)
    ensures ok ==> (replaced <==> !FirstHolder(was, i))
  {
    ghost var now := ids[..];
    RepeatsIff(was, now, i);
    var repeats := RepeatsEarlier(ids, i);
    if repeats { ids[i] := 0; }
    assert ids[i] == 0 <==> !FirstHolder(was, i);
    assert repeats ==> ids[..] == now[i := 0];
    assert !repeats && ids[i] == 0 ==> now[i := 0] == now;
    hide DrawnUpTo, Suffices, RepairedUpTo, FirstHolder, KeepsFirst;
    if ids[i] != 0 {
      Kept(was, now, i);
      DrawnNone(was, now, i, draws, from);
      FirstHoldersKept(was, now, i);
      return true, from, false;
    }
    ok, next := Replace(ids, i, draws, from, was, now);
    replaced := ok;
  }

  lemma FirstHoldersKept(was: seq<nat>, now: seq<nat>, n: nat)
    requires RepairedUpTo(was, now, n)
    ensures KeepsFirst(was, now)
  {
  }

  lemma ReplacedKeepsFirst(was: seq<nat>, now: seq<nat>, i: nat, id: nat)
    requires KeepsFirst(was, now) && i < |was| && !FirstHolder(was, i)
    ensures KeepsFirst(was, now[i := id])
  {
    hide FirstHolder;
  }

  lemma FromIs(was: seq<nat>, now: seq<nat>, i: nat, draws: seq<nat>, from: nat)
    requires DrawnUpTo(was, now, i, draws, from)
    ensures from <= |draws|
  {
  }

  /** The search for an id for entry `i`, which is 0 by now. */
  method Replace(ids: array<nat>, i: nat, draws: seq<nat>, from: nat, ghost was: seq<nat>, ghost now: seq<nat>)
    returns (ok: bool, next: nat)
    requires i < ids.Length && RepairedUpTo(was, now, i) && DrawnUpTo(was, now, i, draws, from)
    requires |now| == |was| == ids.Length && ids[..] == now[i := 0] && !FirstHolder(was, i)
    modifies ids
    ensures !ok ==> !Suffices(draws, was)
    ensures KeepsFirst(was, ids[..])
    ensures ok ==> RepairedUpTo(was, ids[..], i + 1) && DrawnUpTo(was, ids[..], i + 1, draws, next)
  {
    hide RepairedUpTo, DrawnUpTo, FirstHolder, KeepsFirst, Suffices, Skipped;
    FirstHoldersKept(was, now, i);
    ghost var open := ids[..];
    assert forall k :: 0 <= k < |now| && k != i ==> ids[k] == now[k];
    FromIs(was, now, i, draws, from);
    ReplacedKeepsFirst(was, now, i, 0);
    var id;
    id, next := DrawUnused(ids, draws, from);
    if id == 0 {
      ghost var to :| from <= to <= next && Skipped(open, draws, from, to) && (to == |draws| || draws[to] == 0);
      SkippedHere(now, i, draws, from, to);
      RunsOut(was, now, i, draws, from, to);
      return false, next;
    }
    SkippedHere(now, i, draws, from, next - 1);
    NewId(was, now, i, draws, from, next - 1);
    ReplacedKeepsFirst(was, now, i, id);
    ids[i] := id;
    assert ids[..] == now[i := id];
    return true, next;
  }

  lemma SkippedHere(now: seq<nat>, i: nat, draws: seq<nat>, from: nat, to: nat)
    requires i < |now| && Skipped(now[i := 0], draws, from, to)
    ensures Skipped(now, draws, from, to)
  {
  }

  lemma NewId(was: seq<nat>, now: seq<nat>, i: nat, draws: seq<nat>, from: nat, to: nat)
    requires RepairedUpTo(was, now, i) && DrawnUpTo(was, now, i, draws, from) && i < |was| && !FirstHolder(was, i)
    requires Skipped(now, draws, from, to) && to < |draws| && draws[to] != 0
    requires forall k :: 0 <= k < |now| && k != i ==> now[k] != draws[to]
    ensures RepairedUpTo(was, now[i := draws[to]], i + 1)
    ensures DrawnUpTo(was, now[i := draws[to]], i + 1, draws, to + 1)
  {
    Unused(was, now, i, draws[to]);
    Replaced(was, now, i, draws[to]);
    assert draws[to] !in now[..i];
    DrawnOne(was, now, i, draws, from, to, draws[to]);
  }

  /**
   `asb_vm_ids_ensure`; `draws` are the ids generated, 0 for a failure of the generator. The result is -1 for that
   failure, else whether an id was replaced.
   */
  method EnsureIds(ids: array<nat>, draws: seq<nat>) returns (changed: int)
    modifies ids
    ensures changed == -1 || changed == 0 || changed == 1
    ensures changed >= 0 ==> AllDistinct(ids[..]) && (changed == 1 <==> ids[..] != old(ids[..]))
    ensures KeepsFirst(old(ids[..]), ids[..])
    ensures AllDistinct(old(ids[..])) ==> changed == 0
    ensures changed >= 0 <==> Suffices(draws, old(ids[..]))
  {
    ghost var was := ids[..];
    changed := 0;
    var next := 0;
    NoneRepaired(was, draws);
    assert Missing(was, 0) == 0;
    hide RepairedUpTo, DrawnUpTo, FirstHolder, KeepsFirst, Missing, AllDistinct, Suffices;
    for i := 0 to ids.Length
      invariant RepairedUpTo(was, ids[..], i) && DrawnUpTo(was, ids[..], i, draws, next)
      invariant changed == 0 || changed == 1
      invariant changed == 1 <==> Missing(was, i) > 0
    {
      MissingOne(was, i);
      var ok, replaced;
      ok, next, replaced := RepairOne(ids, i, draws, next, was);
      if !ok {
        DistinctSuffice(draws, was);
        return -1;
      }
      if replaced { changed := 1; }
    }
    FirstHoldersKept(was, ids[..], ids.Length);
    RepairedAll(was, ids[..]);
    NoneMissingIff(was, ids.Length);
    AllDrawn(was, ids[..], draws, next);
  }

  lemma NoneRepaired(was: seq<nat>, draws: seq<nat>)
    ensures RepairedUpTo(was, was, 0) && DrawnUpTo(was, was, 0, draws, 0)
  {
  }

  lemma DistinctSuffice(draws: seq<nat>, was: seq<nat>)
    ensures AllDistinct(was) ==> Suffices(draws, was)
  {
    NoneMissingIff(was, |was|);
  }

  lemma NoneMissingIff(was: seq<nat>, n: nat)
    requires n == |was|
    ensures Missing(was, n) == 0 <==> AllDistinct(was)
  {
    MissingNone(was, n);
    if Missing(was, n) == 0 {
      forall j | 0 <= j < n
        ensures was[j] != 0 && forall i :: 0 <= i < j ==> was[i] != was[j]
      {
        assert FirstHolder(was, j);
      }
    }
    if AllDistinct(was) {
      assert forall k :: 0 <= k < n ==> FirstHolder(was, k);
    }
  }

  lemma {:induction false} MissingNone(was: seq<nat>, n: nat)
    ensures Missing(was, n) == 0 <==> forall k :: 0 <= k < n ==> FirstHolder(was, k)
  {
    if n > 0 {
      MissingNone(was, n - 1);
    }
  }

  /** The id of an entry that repeats an earlier one is still in use. */
  lemma Unused(was: seq<nat>, now: seq<nat>, i: nat, id: nat)
    requires RepairedUpTo(was, now, i) && i < |was| && !FirstHolder(was, i) && id != 0
    requires forall k :: 0 <= k < |now| && k != i ==> now[k] != id
    ensures was[i] != id
  {
    RepeatsIff(was, now, i);
  }
}
