/**
 CIDR blocks of 32-bit addresses (RFC 4632, section 3.1): `ranges_overlap`, and the choice
 of the NAT /24 that is made once per process.
 */
module NatSubnet {
  import opened Common

  // ---- Blocks ----

  /** The network mask of a prefix length. */
  function Mask(prefix: nat): bv32
    requires prefix <= 32
  {
    if prefix == 0 then 0 else 0xFFFF_FFFF << (32 - prefix)
  }

  /** Ones followed by zeros. */
  predicate IsMask(m: bv32) {
    !m & (!m + 1) == 0
  }

  /** Address `x` lies in the block of `net` under mask `m`. */
  predicate Under(x: bv32, net: bv32, m: bv32) {
    x & m == net & m
  }

  datatype Subnet = Subnet(network: bv32, prefix: nat) {
    predicate Valid() {
      prefix <= 32
    }

    predicate Has(x: bv32)
      requires Valid()
    {
      Under(x, network, Mask(prefix))
    }
  }

  /** The comparison of starts and ends, given the masks. */
  predicate EndsCross(aNet: bv32, aMask: bv32, bNet: bv32, bMask: bv32) {
    var aStart := aNet & aMask;
    var aEnd := aStart | !aMask;
    var bStart := bNet & bMask;
    var bEnd := bStart | !bMask;
    aStart <= bEnd && bStart <= aEnd
  }

  /** `ranges_overlap`. */
  predicate RangesOverlap(a: Subnet, b: Subnet)
    requires a.Valid() && b.Valid()
  {
    EndsCross(a.network, Mask(a.prefix), b.network, Mask(b.prefix))
  }

  ghost predicate ShareAddress(a: Subnet, b: Subnet)
    requires a.Valid() && b.Valid()
  {
    exists x :: a.Has(x) && b.Has(x)
  }

  ghost predicate Contains(a: Subnet, b: Subnet)
    requires a.Valid() && b.Valid()
  {
    forall x :: b.Has(x) ==> a.Has(x)
  }

  lemma MaskIsMask(prefix: nat)
    requires prefix <= 32
    ensures IsMask(Mask(prefix))
  {
  }

  lemma CommonAddressCrosses(a: bv32, am: bv32, b: bv32, bm: bv32, x: bv32)
    requires IsMask(am) && IsMask(bm) && Under(x, a, am) && Under(x, b, bm)
    ensures EndsCross(a, am, b, bm)
  {
  }

  /** Two masks are nested, so crossing blocks are nested too. */
  lemma CrossingNests(a: bv32, am: bv32, b: bv32, bm: bv32)
    requires IsMask(am) && IsMask(bm) && EndsCross(a, am, b, bm)
    ensures (am & bm == am && Under(b, a, am)) || (am & bm == bm && Under(a, b, bm))
  {
  }

  lemma NestedMasks(x: bv32, inner: bv32, im: bv32, outer: bv32, om: bv32)
    requires om & im == om && Under(inner, outer, om) && Under(x, inner, im)
    ensures Under(x, outer, om)
  {
  }

  lemma NestedContains(outer: Subnet, inner: Subnet)
    requires outer.Valid() && inner.Valid()
    requires Mask(outer.prefix) & Mask(inner.prefix) == Mask(outer.prefix)
    requires Under(inner.network, outer.network, Mask(outer.prefix))
    ensures Contains(outer, inner)
  {
    forall x | inner.Has(x)
      ensures outer.Has(x)
    {
      hide Mask;
      NestedMasks(x, inner.network, Mask(inner.prefix), outer.network, Mask(outer.prefix));
    }
  }

  lemma OverlapNests(a: Subnet, b: Subnet)
    requires a.Valid() && b.Valid() && RangesOverlap(a, b)
    ensures Contains(a, b) || Contains(b, a)
  {
    var am, bm := Mask(a.prefix), Mask(b.prefix);
    MaskIsMask(a.prefix);
    MaskIsMask(b.prefix);
    hide Mask;
    assert EndsCross(a.network, am, b.network, bm);
    CrossingNests(a.network, am, b.network, bm);
    hide *;
    if am & bm == am && Under(b.network, a.network, am) {
      NestedContains(a, b);
    } else {
      assert bm & am == bm by { assert am & bm == bm; assert bm & am == am & bm; }
      NestedContains(b, a);
    }
  }

  lemma SharedOverlaps(a: Subnet, b: Subnet, x: bv32)
    requires a.Valid() && b.Valid() && a.Has(x) && b.Has(x)
    ensures RangesOverlap(a, b)
  {
    MaskIsMask(a.prefix);
    MaskIsMask(b.prefix);
    hide Mask;
    hide Under;
    hide EndsCross;
    hide IsMask;
    CommonAddressCrosses(a.network, Mask(a.prefix), b.network, Mask(b.prefix), x);
  }

  lemma ContainedShares(a: Subnet, b: Subnet)
    requires a.Valid() && b.Valid() && Contains(a, b)
    ensures ShareAddress(a, b) && ShareAddress(b, a)
  {
    assert b.Has(b.network);
  }

  /** `ranges_overlap` holds exactly when the blocks share an address, and then one contains the other. */
  lemma OverlapMeans(a: Subnet, b: Subnet)
    requires a.Valid() && b.Valid()
    ensures RangesOverlap(a, b) <==> ShareAddress(a, b)
    ensures RangesOverlap(a, b) <==> Contains(a, b) || Contains(b, a)
  {
    hide Contains;
    hide Mask;
    hide RangesOverlap;
    if RangesOverlap(a, b) {
      OverlapNests(a, b);
    }
    if Contains(a, b) { ContainedShares(a, b); }
    if Contains(b, a) { ContainedShares(b, a); }
    if ShareAddress(a, b) {
      var x :| a.Has(x) && b.Has(x);
      SharedOverlaps(a, b, x);
    }
  }

  // ---- The choice ----

  datatype Candidate = Candidate(a: byte, b: byte, c: byte)

  const CANDIDATES := [Candidate(192, 168, 42), Candidate(192, 168, 142)]

  /** Three octets and a zero. */
  function Joined(a: bv32, b: bv32, c: bv32): bv32 {
    (a << 24) | (b << 16) | (c << 8)
  }

  function Bits(n: byte): bv32 {
    n as bv32
  }

  /** The /24 of a candidate. */
  function Block(c: Candidate): (s: Subnet)
    ensures s.Valid()
  {
    Subnet(Joined(Bits(c.a), Bits(c.b), Bits(c.c)), 24)
  }

  // The first three octets of an address.

  function First(x: bv32): bv32 {
    (x >> 24) & 0xFF
  }

  function Second(x: bv32): bv32 {
    (x >> 16) & 0xFF
  }

  function Third(x: bv32): bv32 {
    (x >> 8) & 0xFF
  }

  predicate IsOctet(a: bv32) {
    a & 0xFF == a
  }

  lemma ByteIsOctet(n: byte)
    ensures IsOctet(Bits(n))
  {
  }

  lemma JoinedOctets(a: bv32, b: bv32, c: bv32)
    requires IsOctet(a) && IsOctet(b) && IsOctet(c)
    ensures First(Joined(a, b, c)) == a && Second(Joined(a, b, c)) == b && Third(Joined(a, b, c)) == c
  {
  }

  lemma UnderIsSame(x: bv32, y: bv32)
    requires x & 0xFFFF_FF00 == y & 0xFFFF_FF00
    ensures First(x) == First(y) && Second(x) == Second(y) && Third(x) == Third(y)
  {
  }

  lemma SameIsUnder(x: bv32, y: bv32)
    requires First(x) == First(y) && Second(x) == Second(y) && Third(x) == Third(y)
    ensures x & 0xFFFF_FF00 == y & 0xFFFF_FF00
  {
  }

  lemma MaskIs()
    ensures Mask(24) == 0xFFFF_FF00
  {
  }

  /** Addresses are in one /24 exactly when their first three octets agree. */
  lemma SameOctets(x: bv32, y: bv32)
    ensures Under(x, y, Mask(24)) <==> First(x) == First(y) && Second(x) == Second(y) && Third(x) == Third(y)
  {
    MaskIs();
    hide Mask, First, Second, Third;
    if Under(x, y, Mask(24)) {
      UnderIsSame(x, y);
    }
    if First(x) == First(y) && Second(x) == Second(y) && Third(x) == Third(y) {
      SameIsUnder(x, y);
    }
  }

  /** The addresses of a candidate are those with its three octets, in their order. */
  lemma BlockMeans(c: Candidate, x: bv32)
    ensures Block(c).Has(x) <==> First(x) == Bits(c.a) && Second(x) == Bits(c.b) && Third(x) == Bits(c.c)
  {
    hide Mask, Under, First, Second, Third, IsOctet, Joined, Bits;
    ByteIsOctet(c.a);
    ByteIsOctet(c.b);
    ByteIsOctet(c.c);
    JoinedOctets(Bits(c.a), Bits(c.b), Bits(c.c));
    SameOctets(x, Block(c).network);
  }

  predicate AllValid(used: seq<Subnet>) {
    forall j :: 0 <= j < |used| ==> used[j].Valid()
  }

  /** No address of the candidate belongs to a subnet in use. */
  ghost predicate Free(c: Candidate, used: seq<Subnet>)
    requires AllValid(used)
  {
    forall j :: 0 <= j < |used| ==> !ShareAddress(Block(c), used[j])
  }

  class NatBase {
    /** `g_nat_base`, empty until chosen. */
    var base: Option<Candidate>

    /** `pick_nat_base_once`, `used` being the subnets `collect_inuse_subnets` returned. */
    method PickOnce(used: seq<Subnet>)
      requires AllValid(used)
      modifies this
      ensures base.Some?
      ensures old(base).Some? ==> base == old(base)
      ensures old(base) == None && (exists i :: 0 <= i < |CANDIDATES| && Free(CANDIDATES[i], used)) ==>
                exists i :: 0 <= i < |CANDIDATES| && base == Some(CANDIDATES[i]) && Free(CANDIDATES[i], used)
                         && forall k :: 0 <= k < i ==> !Free(CANDIDATES[k], used)
      ensures old(base) == None && (forall i :: 0 <= i < |CANDIDATES| ==> !Free(CANDIDATES[i], used)) ==>
                base == Some(CANDIDATES[0])
    {
      if base.Some? { return; }
      hide Block;
      hide ShareAddress;
      hide RangesOverlap;
      var i := 0;
      while i < |CANDIDATES|
        invariant 0 <= i <= |CANDIDATES| && base == None
        invariant forall k :: 0 <= k < i ==> !Free(CANDIDATES[k], used)
      {
        var candidate := Block(CANDIDATES[i]);
        var conflict := Conflicts(candidate, used);
        if !conflict {
          base := Some(CANDIDATES[i]);
          return;
        }
        i := i + 1;
      }
      base := Some(CANDIDATES[0]);
    }
  }

  /** The inner loop: some collected subnet overlaps the candidate. */
  method Conflicts(candidate: Subnet, used: seq<Subnet>) returns (conflict: bool)
    requires candidate.Valid() && AllValid(used)
    ensures conflict <==> exists k :: 0 <= k < |used| && ShareAddress(candidate, used[k])
  {
    hide ShareAddress;
    hide RangesOverlap;
    hide Contains;
    var j := 0;
    while j < |used|
      invariant 0 <= j <= |used|
      invariant forall k :: 0 <= k < j ==> !ShareAddress(candidate, used[k])
    {
      OverlapMeans(candidate, used[j]);
      if RangesOverlap(candidate, used[j]) {
        return true;
      }
      j := j + 1;
    }
    conflict := false;
  }
}
