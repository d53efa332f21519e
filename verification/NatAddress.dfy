/**
 NAT addresses: `allocate_nat_ip` gives a VM the lowest free address of the /24 in use, and
 `try_endpoint_with_retry` may bump it afterwards.

 An address is what `sscanf_s("%d.%d.%d.%d")` reads from the VM's text; `None` stands for
 an empty or unreadable one.
 */
module NatAddress {
  import opened Common

  datatype Quad = Quad(a: int, b: int, c: int, d: int)
  datatype Base = Base(a: int, b: int, c: int)

  const FIRST := 2
  const LAST := 254
  const MAX_RETRIES := 10

  function At(base: Base, d: int): Quad {
    Quad(base.a, base.b, base.c, d)
  }

  /** A usable host address of the /24. */
  predicate InPool(ip: Option<Quad>, base: Base) {
    ip.Some? && FIRST <= ip.value.d <= LAST && ip.value == At(base, ip.value.d)
  }

  /** Another VM holds address `d`. */
  predicate Taken(ips: seq<Option<Quad>>, self: nat, base: Base, d: int) {
    exists i :: 0 <= i < |ips| && i != self && ips[i] == Some(At(base, d))
  }

  // ---- There is always room ----

  /** The pool addresses held by others. */
  function TakenSet(ips: seq<Option<Quad>>, self: nat, base: Base): (s: set<int>)
    ensures |s| <= |ips|
    ensures forall d :: d in s <==> Taken(ips, self, base, d) && FIRST <= d <= LAST
  {
    if ips == [] then {}
    else
      var n := |ips| - 1;
      var rest := TakenSet(ips[..n], self, base);
      NextTaken(ips, n, self, base);
      assert ips[..n + 1] == ips;
      if n != self && InPool(ips[n], base) then rest + {ips[n].value.d} else rest
  }

  function Octets(n: nat): (s: set<int>)
    ensures |s| == n
    ensures forall d :: d in s <==> FIRST <= d < FIRST + n
  {
    if n == 0 then {} else Octets(n - 1) + {FIRST + n - 1}
  }

  lemma SubsetSize(a: set<int>, b: set<int>)
    requires a <= b
    ensures |a| <= |b|
  {
    assert b == a + (b - a);
  }

  /** Pigeonhole: fewer VMs than the 253 pool addresses leave one free. */
  lemma SomeFree(ips: seq<Option<Quad>>, self: nat, base: Base)
    requires |ips| < LAST - FIRST + 1
    ensures exists d :: FIRST <= d <= LAST && !Taken(ips, self, base, d)
  {
    var all, taken := Octets(253), TakenSet(ips, self, base);
    if forall d :: FIRST <= d <= LAST ==> Taken(ips, self, base, d) {
      SubsetSize(all, taken);
    }
  }

  // ---- The allocator ----

  /** The lowest octet from `o` on that nobody else holds. */
  function LowestFree(ips: seq<Option<Quad>>, self: nat, base: Base, o: int): (r: Option<int>)
    requires FIRST <= o <= LAST + 1
    ensures r.Some? ==> o <= r.value <= LAST && !Taken(ips, self, base, r.value)
    ensures forall d :: o <= d < (if r.Some? then r.value else LAST + 1) ==> Taken(ips, self, base, d)
    decreases LAST + 1 - o
  {
    if o > LAST then None else if !Taken(ips, self, base, o) then Some(o) else LowestFree(ips, self, base, o + 1)
  }

  /** The octet that a scan of the table picks for a VM whose own entry is `own`. */
  function Choice(ips: seq<Option<Quad>>, self: nat, own: Option<Quad>, base: Base): (r: Option<int>)
    ensures r.Some? ==> FIRST <= r.value <= LAST && !Taken(ips, self, base, r.value)
    ensures Keeps(ips, self, own, base) ==> r == Some(own.value.d)
    ensures !Keeps(ips, self, own, base) ==>
              forall d :: FIRST <= d < (if r.Some? then r.value else LAST + 1) ==> Taken(ips, self, base, d)
  {
    if InPool(own, base) && !Taken(ips, self, base, own.value.d) then Some(own.value.d)
    else LowestFree(ips, self, base, FIRST)
  }

  /** The entry is a pool address that nobody else holds. */
  predicate Keeps(ips: seq<Option<Quad>>, self: nat, own: Option<Quad>, base: Base) {
    InPool(own, base) && !Taken(ips, self, base, own.value.d)
  }

  /** A free octet with only taken ones below it is the lowest. */
  lemma LowestIs(ips: seq<Option<Quad>>, self: nat, base: Base, d: int)
    requires FIRST <= d <= LAST && !Taken(ips, self, base, d)
    requires forall e :: FIRST <= e < d ==> Taken(ips, self, base, e)
    ensures LowestFree(ips, self, base, FIRST) == Some(d)
  {
    var r := LowestFree(ips, self, base, FIRST);
    hide LowestFree;
    assert r.None? || r.value > d ==> Taken(ips, self, base, d);
  }

  /**
   `allocate_nat_ip` for the VM at `self` among the first `count` of the table. The result
   is fixed: a pool address nobody else holds is kept, else the lowest free one is taken.
   */
  method AllocateNatIp(ips: array<Option<Quad>>, count: nat, self: nat, base: Base) returns (ok: bool)
    requires count <= ips.Length && self < ips.Length
    modifies ips
    ensures forall i :: 0 <= i < ips.Length && i != self ==> ips[i] == old(ips[i])
    ensures ok <==> exists d :: FIRST <= d <= LAST && !Taken(old(ips[..count]), self, base, d)
    ensures ok <==> Choice(old(ips[..count]), self, old(ips[self]), base).Some?
    ensures !ok ==> ips[self] == old(ips[self])
    ensures ok ==> ips[self] == Some(At(base, Choice(old(ips[..count]), self, old(ips[self]), base).value))
    ensures ok ==> InPool(ips[self], base) && !Taken(ips[..count], self, base, ips[self].value.d)
    ensures Keeps(old(ips[..count]), self, old(ips[self]), base) ==> ok && ips[self] == old(ips[self])
    ensures ok && !Keeps(old(ips[..count]), self, old(ips[self]), base) ==>
              forall d :: FIRST <= d < ips[self].value.d ==> Taken(old(ips[..count]), self, base, d)
  {
    hide LowestFree;
    var used := new bool[256](_ => false);
    ghost var table := ips[..count];
    var i := 0;
    while i < count
      invariant 0 <= i <= count
      invariant forall d :: FIRST <= d <= LAST ==> (used[d] <==> Taken(table[..i], self, base, d))
      invariant ips[..] == old(ips[..])
    {
      NextTaken(table, i, self, base);
      if i != self && ips[i].Some? {
        var ip := ips[i].value;
        if ip.a == base.a && ip.b == base.b && ip.c == base.c && FIRST <= ip.d <= LAST {
          used[ip.d] := true;
        }
      }
      i := i + 1;
    }
    assert table[..count] == table;
    if ips[self].Some? {
      var ip := ips[self].value;
      if ip.a == base.a && ip.b == base.b && ip.c == base.c && FIRST <= ip.d <= LAST && !used[ip.d] {
        return true;
      }
    }
    var octet := FIRST;
    while octet <= LAST
      invariant FIRST <= octet <= LAST + 1
      invariant forall d :: FIRST <= d < octet ==> used[d]
      invariant ips[..] == old(ips[..])
    {
      if !used[octet] {
        LowestIs(table, self, base, octet);
        OthersSame(table, self, base, Some(At(base, octet)), octet);
        ips[self] := Some(At(base, octet));
        assert self < count ==> ips[..count] == table[self := Some(At(base, octet))];
        assert self >= count ==> ips[..count] == table;
        return true;
      }
      octet := octet + 1;
    }
    ok := false;
  }

  lemma NextTaken(table: seq<Option<Quad>>, i: nat, self: nat, base: Base)
    requires i < |table|
    ensures forall d :: Taken(table[..i + 1], self, base, d)
                        <==> Taken(table[..i], self, base, d) || (i != self && table[i] == Some(At(base, d)))
  {
    forall d | Taken(table[..i], self, base, d)
      ensures Taken(table[..i + 1], self, base, d)
    {
      var j :| 0 <= j < i && j != self && table[..i][j] == Some(At(base, d));
      assert table[..i + 1][j] == Some(At(base, d));
    }
    forall d | Taken(table[..i + 1], self, base, d)
      ensures Taken(table[..i], self, base, d) || (i != self && table[i] == Some(At(base, d)))
    {
      var j :| 0 <= j < i + 1 && j != self && table[..i + 1][j] == Some(At(base, d));
      assert j < i ==> table[..i][j] == Some(At(base, d));
    }
    forall d | i != self && table[i] == Some(At(base, d))
      ensures Taken(table[..i + 1], self, base, d)
    {
      assert table[..i + 1][i] == Some(At(base, d));
    }
  }

  /** A VM's own entry does not matter to whether others hold an address. */
  lemma OthersSame(table: seq<Option<Quad>>, self: nat, base: Base, ip: Option<Quad>, d: int)
    ensures self < |table| ==> Taken(table[self := ip], self, base, d) == Taken(table, self, base, d)
  {
    if self < |table| {
      var t := table[self := ip];
      if Taken(t, self, base, d) {
        var i :| 0 <= i < |t| && i != self && t[i] == Some(At(base, d));
        assert table[i] == Some(At(base, d));
      }
      if Taken(table, self, base, d) {
        var i :| 0 <= i < |table| && i != self && table[i] == Some(At(base, d));
        assert t[i] == Some(At(base, d));
      }
    }
  }

  /** With the program's limit of 32 VMs the pool is never exhausted. */
  lemma NeverExhausted(ips: seq<Option<Quad>>, self: nat, base: Base)
    requires |ips| <= MAX_VMS
    ensures exists d :: FIRST <= d <= LAST && !Taken(ips, self, base, d)
  {
    SomeFree(ips, self, base);
  }

  predicate PoolDistinct(ips: seq<Option<Quad>>, base: Base) {
    forall i, j :: 0 <= i < j < |ips| && InPool(ips[i], base) ==> ips[i] != ips[j]
  }

  /** So allocation keeps pool addresses pairwise distinct. */
  lemma AllocationKeepsDistinct(before: seq<Option<Quad>>, after: seq<Option<Quad>>, self: nat, base: Base)
    requires PoolDistinct(before, base) && self < |before| == |after| && after == before[self := after[self]]
    requires InPool(after[self], base) && !Taken(after, self, base, after[self].value.d)
    ensures PoolDistinct(after, base)
  {
    forall i, j | 0 <= i < j < |after| && InPool(after[i], base)
      ensures after[i] != after[j]
    {
      if i != self && j != self {
        assert before[i] == after[i] && before[j] == after[j];
      }
    }
  }

  // ---- The retry ----

  /** The octet at which the attempts from the `k`-th on end: one that the host takes, or the last one tried. */
  function RetryEnd(d: int, accepts: nat -> bool, k: nat): int
    decreases MAX_RETRIES - k
  {
    if k >= MAX_RETRIES || accepts(k) || d + k >= LAST then d + k else RetryEnd(d, accepts, k + 1)
  }

  /**
   `try_endpoint_with_retry` for a NAT address `d`: `accepts(k)` is whether HNS takes the
   k-th attempt. Returns the octet left in the VM, accepted or not.
   */
  method TryEndpoint(d: int, accepts: nat -> bool) returns (ok: bool, octet: int)
    ensures d <= octet <= Max(d, Min(d + MAX_RETRIES, LAST))
    ensures ok <==> exists k: nat :: d + k <= Max(d, Min(d + MAX_RETRIES, LAST)) && accepts(k)
    ensures ok ==> accepts(octet - d)
    ensures forall k: nat :: d + k < octet ==> !accepts(k)
    ensures octet == RetryEnd(d, accepts, 0)
  {
    octet := d;
    ok := accepts(0);
    var retry := 0;
    while retry < MAX_RETRIES && !ok && octet < LAST
      invariant 0 <= retry <= MAX_RETRIES && octet == d + retry
      invariant retry > 0 ==> octet <= LAST
      invariant ok == accepts(retry)
      invariant forall k: nat :: k < retry ==> !accepts(k)
      invariant RetryEnd(d, accepts, retry) == RetryEnd(d, accepts, 0)
    {
      octet := octet + 1;
      retry := retry + 1;
      ok := accepts(retry);
    }
  }

  lemma {:induction false} RetryEndRange(d: int, accepts: nat -> bool, k: nat)
    requires k <= MAX_RETRIES && d <= LAST && (k == 0 || d + k <= LAST)
    ensures d + k <= RetryEnd(d, accepts, k) <= Min(d + MAX_RETRIES, LAST)
    decreases MAX_RETRIES - k
  {
    if k < MAX_RETRIES && !accepts(k) && d + k < LAST {
      RetryEndRange(d, accepts, k + 1);
    }
  }

  /** A host that takes nothing before `octet` makes the retry end there. */
  lemma {:induction false} RetryReaches(d: int, octet: int, accepts: nat -> bool, k: nat)
    requires d + k <= octet <= Min(d + MAX_RETRIES, LAST)
    requires forall j: nat :: accepts(j) == (d + j == octet)
    ensures RetryEnd(d, accepts, k) == octet
    decreases MAX_RETRIES - k
  {
    if d + k < octet {
      RetryReaches(d, octet, accepts, k + 1);
    }
  }

  /** A table entry replaced: pool addresses stay distinct exactly when no other VM holds the new one. */
  lemma ReplacedDistinctIff(ips: seq<Option<Quad>>, self: nat, base: Base, octet: int)
    requires self < |ips| && PoolDistinct(ips, base) && FIRST <= octet <= LAST
    ensures PoolDistinct(ips[self := Some(At(base, octet))], base) <==> !Taken(ips, self, base, octet)
  {
    var after := ips[self := Some(At(base, octet))];
    OthersSame(ips, self, base, after[self], octet);
    if Taken(ips, self, base, octet) {
      var i :| 0 <= i < |ips| && i != self && ips[i] == Some(At(base, octet));
      assert after[i] == after[self] && InPool(after[i], base) && InPool(after[self], base);
    } else {
      AllocationKeepsDistinct(ips, after, self, base);
    }
  }

  function AfterRetry(ips: seq<Option<Quad>>, self: nat, base: Base, d: int, accepts: nat -> bool): seq<Option<Quad>>
    requires self < |ips|
  {
    ips[self := Some(At(base, RetryEnd(d, accepts, 0)))]
  }

  /**
   After an allocation of `d`, the retry keeps addresses distinct whatever the host takes exactly when no other VM holds
   one of the next ten octets.
   */
  lemma RetryKeepsDistinctIff(ips: seq<Option<Quad>>, self: nat, base: Base, d: int)
    requires self < |ips| && PoolDistinct(ips, base) && FIRST <= d <= LAST && ips[self] == Some(At(base, d))
    ensures (forall accepts: nat -> bool :: PoolDistinct(AfterRetry(ips, self, base, d, accepts), base))
            <==> forall octet :: d < octet <= Min(d + MAX_RETRIES, LAST) ==> !Taken(ips, self, base, octet)
  {
    assert !Taken(ips, self, base, d) by {
      ReplacedDistinctIff(ips, self, base, d);
      assert ips[self := Some(At(base, d))] == ips;
    }
    if forall octet :: d < octet <= Min(d + MAX_RETRIES, LAST) ==> !Taken(ips, self, base, octet) {
      forall accepts: nat -> bool
        ensures PoolDistinct(AfterRetry(ips, self, base, d, accepts), base)
      {
        RetryEndRange(d, accepts, 0);
        ReplacedDistinctIff(ips, self, base, RetryEnd(d, accepts, 0));
      }
    }
    forall octet | d < octet <= Min(d + MAX_RETRIES, LAST) && Taken(ips, self, base, octet)
      ensures exists accepts: nat -> bool :: !PoolDistinct(AfterRetry(ips, self, base, d, accepts), base)
    {
      var accepts: nat -> bool := k => d + k == octet;
      RetryReaches(d, octet, accepts, 0);
      ReplacedDistinctIff(ips, self, base, octet);
      assert !PoolDistinct(AfterRetry(ips, self, base, d, accepts), base);
    }
  }

  /**
   It does not always: VM 1 holds octet 3, VM 0 is given the free octet 2, the host refuses that one and takes the next.
   */
  method RetryCanCollide(base: Base) returns (ips: array<Option<Quad>>)
    ensures fresh(ips) && ips.Length == 2 && !PoolDistinct(ips[..], base)
  {
    ips := new Option<Quad>[2] [None, Some(At(base, 3))];
    ghost var before := ips[..];
    assert before[1] == Some(At(base, 3)) && !Taken(before, 0, base, 2);
    var got := AllocateNatIp(ips, 2, 0, base);
    assert ips[..2] == ips[..] && before[..] == before;
    LowestIs(before, 0, base, 2);
    assert got && ips[0] == Some(At(base, 2));
    var ok, octet := TryEndpoint(2, k => k == 1);
    assert ok && octet == 3;
    ips[0] := Some(At(base, octet));
    assert InPool(ips[..][0], base) && ips[..][0] == ips[..][1];
  }

  // ---- Allocations of several VMs at once ----

  /** `chosen` is what the scan of a VM has picked and not stored yet: nothing locks the table in between. */
  datatype Table = Table(ips: seq<Option<Quad>>, chosen: seq<Option<int>>)

  /** The two halves of `allocate_nat_ip`, and one turn of the retry. */
  datatype TableStep = Scan(v: nat) | Store(v: nat) | Bump(v: nat)

  /** The address a step writes into the entry of its VM, if any. */
  function Writes(t: Table, e: TableStep, base: Base): Option<Quad> {
    if e.v >= |t.ips| || e.v >= |t.chosen| then None
    else match e
      case Scan(_) => None
      case Store(v) => if t.chosen[v].Some? then Some(At(base, t.chosen[v].value)) else None
      case Bump(v) =>
        if t.ips[v].Some? && t.ips[v].value.d < LAST then Some(t.ips[v].value.(d := t.ips[v].value.d + 1)) else None
  }

  function StepTable(t: Table, e: TableStep, base: Base): Table {
    if e.v >= |t.ips| || e.v >= |t.chosen| then t
    else
      var w := Writes(t, e, base);
      Table(if w.Some? then t.ips[e.v := w] else t.ips,
            match e
            case Scan(v) => t.chosen[v := Choice(t.ips, v, t.ips[v], base)]
            case Store(v) => t.chosen[v := None]
            case Bump(_) => t.chosen)
  }

  function RunTable(t: Table, steps: seq<TableStep>, base: Base): Table {
    if steps == [] then t else StepTable(RunTable(t, steps[..|steps| - 1], base), steps[|steps| - 1], base)
  }

  function Bumps(v: nat, k: nat): seq<TableStep> {
    if k == 0 then [] else Bumps(v, k - 1) + [Bump(v)]
  }

  /** Turns of the retry count the last octet up, by one each, as far as 254. */
  lemma {:induction false} BumpsCountUp(t: Table, v: nat, base: Base, d: int, k: nat)
    requires v < |t.ips| && v < |t.chosen| && t.ips[v] == Some(At(base, d)) && d <= LAST
    ensures RunTable(t, Bumps(v, k), base) == Table(t.ips[v := Some(At(base, Min(d + k, LAST)))], t.chosen)
  {
    if k == 0 {
      assert t.ips[v := t.ips[v]] == t.ips;
    } else {
      BumpsCountUp(t, v, base, d, k - 1);
      RunTableSnoc(t, Bumps(v, k - 1), Bump(v), base);
      hide RunTable;
      BumpOnce(t, v, base, Min(d + k - 1, LAST));
    }
  }

  lemma BumpOnce(t: Table, v: nat, base: Base, d: int)
    requires v < |t.ips| && v < |t.chosen| && d <= LAST
    ensures StepTable(Table(t.ips[v := Some(At(base, d))], t.chosen), Bump(v), base)
            == Table(t.ips[v := Some(At(base, Min(d + 1, LAST)))], t.chosen)
  {
    var from: Option<Quad>, to: Option<Quad> := Some(At(base, d)), Some(At(base, Min(d + 1, LAST)));
    assert t.ips[v := from][v] == from && t.ips[v := from][v := to] == t.ips[v := to];
  }

  /** So `try_endpoint_with_retry` leaves what that many turns leave. */
  lemma RetryIsBumps(t: Table, v: nat, base: Base, d: int, accepts: nat -> bool)
    requires v < |t.ips| && v < |t.chosen| && t.ips[v] == Some(At(base, d)) && d <= LAST
    ensures RetryEnd(d, accepts, 0) >= d
    ensures AfterRetry(t.ips, v, base, d, accepts) == RunTable(t, Bumps(v, RetryEnd(d, accepts, 0) - d), base).ips
  {
    RetryEndRange(d, accepts, 0);
    BumpsCountUp(t, v, base, d, RetryEnd(d, accepts, 0) - d);
  }

  /** The step writes a pool address that another VM holds by now. */
  predicate Collides(t: Table, e: TableStep, base: Base) {
    var w := Writes(t, e, base);
    w.Some? && InPool(w, base) && Taken(t.ips, e.v, base, w.value.d)
  }

  lemma StepDistinctIff(t: Table, e: TableStep, base: Base)
    requires PoolDistinct(t.ips, base)
    ensures PoolDistinct(StepTable(t, e, base).ips, base) <==> !Collides(t, e, base)
  {
    var w := Writes(t, e, base);
    if w.Some? {
      if InPool(w, base) {
        ReplacedDistinctIff(t.ips, e.v, base, w.value.d);
      } else {
        assert forall i :: 0 <= i < |t.ips| && i != e.v ==> t.ips[e.v := w][i] == t.ips[i];
      }
    }
  }

  /** Pool addresses are distinct after the steps and after every beginning of them. */
  predicate DistinctThroughout(t: Table, steps: seq<TableStep>, base: Base) {
    PoolDistinct(RunTable(t, steps, base).ips, base)
    && (steps == [] || DistinctThroughout(t, steps[..|steps| - 1], base))
  }

  predicate NoCollision(t: Table, steps: seq<TableStep>, base: Base) {
    steps == []
    || (NoCollision(t, steps[..|steps| - 1], base)
        && !Collides(RunTable(t, steps[..|steps| - 1], base), steps[|steps| - 1], base))
  }

  /** In every interleaving, pool addresses are distinct at every moment exactly when no step writes one held then. */
  lemma {:induction false} DistinctIffNoCollision(t: Table, steps: seq<TableStep>, base: Base)
    requires PoolDistinct(t.ips, base)
    ensures DistinctThroughout(t, steps, base) <==> NoCollision(t, steps, base)
  {
    hide PoolDistinct, Collides, StepTable;
    if steps != [] {
      var front := steps[..|steps| - 1];
      DistinctIffNoCollision(t, front, base);
      if DistinctThroughout(t, front, base) {
        StepDistinctIff(RunTable(t, front, base), steps[|steps| - 1], base);
      }
    }
  }

  /** An octet that is free when a VM scans stays free for it as long as no other VM writes it. */
  lemma {:induction false} FreeUnlessWritten(t: Table, steps: seq<TableStep>, v: nat, base: Base, d: int)
    requires !Taken(t.ips, v, base, d)
    requires forall k :: 0 <= k < |steps| && steps[k].v != v ==>
               Writes(RunTable(t, steps[..k], base), steps[k], base) != Some(At(base, d))
    ensures !Taken(RunTable(t, steps, base).ips, v, base, d)
  {
    if steps != [] {
      var n := |steps| - 1;
      assert forall k :: 0 <= k < n ==> steps[..n][..k] == steps[..k] && steps[..n][k] == steps[k];
      FreeUnlessWritten(t, steps[..n], v, base, d);
      var before := RunTable(t, steps[..n], base);
      OneWrite(before, steps[n], v, base, d);
    }
  }

  lemma OneWrite(t: Table, e: TableStep, v: nat, base: Base, d: int)
    requires !Taken(t.ips, v, base, d) && (e.v != v ==> Writes(t, e, base) != Some(At(base, d)))
    ensures !Taken(StepTable(t, e, base).ips, v, base, d)
  {
    var after := StepTable(t, e, base).ips;
    forall i | 0 <= i < |after| && i != v
      ensures after[i] != Some(At(base, d))
    {
      assert i != e.v ==> after[i] == t.ips[i];
    }
  }

  /** One allocation after another: each VM stores what it has just picked. */
  function InTurn(vs: seq<nat>): seq<TableStep> {
    if vs == [] then [] else InTurn(vs[..|vs| - 1]) + [Scan(vs[|vs| - 1])] + [Store(vs[|vs| - 1])]
  }

  lemma {:induction false} InTurnStaysDistinct(t: Table, vs: seq<nat>, base: Base)
    requires PoolDistinct(t.ips, base) && |t.ips| == |t.chosen|
    ensures var e := RunTable(t, InTurn(vs), base);
            PoolDistinct(e.ips, base) && |e.ips| == |e.chosen|
  {
    if vs != [] {
      var n := |vs| - 1;
      InTurnStaysDistinct(t, vs[..n], base);
      var v, front := vs[n], InTurn(vs[..n]);
      var before := RunTable(t, front, base);
      RunTableSnoc(t, front, Scan(v), base);
      RunTableSnoc(t, front + [Scan(v)], Store(v), base);
      ScanThenStore(before, v, base);
    }
  }

  lemma RunTableSnoc(t: Table, steps: seq<TableStep>, e: TableStep, base: Base)
    ensures RunTable(t, steps + [e], base) == StepTable(RunTable(t, steps, base), e, base)
  {
    assert (steps + [e])[..|steps|] == steps;
  }

  lemma ScanThenStore(t: Table, v: nat, base: Base)
    requires PoolDistinct(t.ips, base) && |t.ips| == |t.chosen|
    ensures var e := StepTable(StepTable(t, Scan(v), base), Store(v), base);
            PoolDistinct(e.ips, base) && |e.ips| == |e.chosen|
  {
    var s := StepTable(t, Scan(v), base);
    StepDistinctIff(s, Store(v), base);
  }

  /** Two VMs that start together can scan before either stores, and get the same address. */
  lemma TwoScansCollide(base: Base)
    ensures var start := Table([None, None], [None, None]);
            && PoolDistinct(start.ips, base)
            && !PoolDistinct(RunTable(start, [Scan(0), Scan(1), Store(0), Store(1)], base).ips, base)
  {
    var start := Table([None, None], [None, None]);
    LowestIs(start.ips, 0, base, FIRST);
    LowestIs(start.ips, 1, base, FIRST);
    var two: Option<Quad> := Some(At(base, FIRST));
    var t1 := Table([None, None], [Some(FIRST), None]);
    var t2 := Table([None, None], [Some(FIRST), Some(FIRST)]);
    var t3 := Table([two, None], [None, Some(FIRST)]);
    var t4 := Table([two, two], [None, None]);
    assert StepTable(start, Scan(0), base) == t1 && StepTable(t1, Scan(1), base) == t2;
    assert StepTable(t2, Store(0), base) == t3 && StepTable(t3, Store(1), base) == t4;
    FourSteps(start, Scan(0), Scan(1), Store(0), Store(1), base);
    assert InPool(t4.ips[0], base) && t4.ips[0] == t4.ips[1];
  }

  lemma FourSteps(t: Table, a: TableStep, b: TableStep, c: TableStep, d: TableStep, base: Base)
    ensures RunTable(t, [a, b, c, d], base)
            == StepTable(StepTable(StepTable(StepTable(t, a, base), b, base), c, base), d, base)
  {
    assert RunTable(t, [], base) == t;
    RunTableSnoc(t, [], a, base);
    RunTableSnoc(t, [a], b, base);
    RunTableSnoc(t, [a, b], c, base);
    RunTableSnoc(t, [a, b, c], d, base);
    assert [] + [a] == [a] && [a] + [b] == [a, b] && [a, b] + [c] == [a, b, c] && [a, b, c] + [d] == [a, b, c, d];
  }
}
