/**
 The VM table: a fixed pool of records, reached through an order array whose first
 `count` entries are the live VMs. Records never move; removing one shifts the order
 array and parks the freed record behind the live ones.
 */
module VmTable {
  import opened Common
  import VmId

  // ---- MAC addresses ----

  function HexDigit(v: nat): (c: wchar)
    requires v < 16
  {
    if v < 10 then 48 + v else 55 + v
  }

  function Hi(b: byte): wchar {
    HexDigit(b / 16)
  }

  function Lo(b: byte): wchar {
    HexDigit(b % 16)
  }

  /** `%02X-%02X-%02X-%02X-%02X-%02X` with the locally-administered, unicast first byte. */
  function MacText(id: seq<byte>): (s: seq<wchar>)
    requires |id| == 6
    ensures |s| == 17
  {
    [Hi(LocalByte(id[0])), Lo(LocalByte(id[0])), 45, Hi(id[1]), Lo(id[1]), 45, Hi(id[2]), Lo(id[2]), 45,
     Hi(id[3]), Lo(id[3]), 45, Hi(id[4]), Lo(id[4]), 45, Hi(id[5]), Lo(id[5])]
  }

  /** `(b & 0xFC) | 0x02`. */
  function LocalByte(b: byte): (r: byte)
    ensures r % 4 == 2 && r / 4 == b / 4
  {
    b / 4 * 4 + 2
  }

  predicate IsHexDigit(c: wchar) {
    48 <= c <= 57 || 65 <= c <= 70 || 97 <= c <= 102
  }

  /** `valid_mac_address` of `hcn_network.c`, which `hcn_create_endpoint` insists on. */
  predicate ValidMac(s: seq<wchar>) {
    |s| == 17 && forall i :: 0 <= i < 17 ==> if i % 3 == 2 then s[i] == 45 || s[i] == 58 else IsHexDigit(s[i])
  }

  /** A generated address is accepted when the endpoint is made. */
  lemma MacTextValid(id: seq<byte>)
    requires |id| == 6
    ensures ValidMac(MacText(id))
  {
    HexDigits(LocalByte(id[0]));
    HexDigits(id[1]);
    HexDigits(id[2]);
    HexDigits(id[3]);
    HexDigits(id[4]);
    HexDigits(id[5]);
    hide Hi, Lo, LocalByte, IsHexDigit, HexDigit, ValidMac;
    ValidByPosition(MacText(id));
  }

  lemma ValidByPosition(s: seq<wchar>)
    requires |s| == 17 && s[2] == s[5] == s[8] == s[11] == s[14] == 45
    requires IsHexDigit(s[0]) && IsHexDigit(s[1]) && IsHexDigit(s[3]) && IsHexDigit(s[4])
    requires IsHexDigit(s[6]) && IsHexDigit(s[7]) && IsHexDigit(s[9]) && IsHexDigit(s[10])
    requires IsHexDigit(s[12]) && IsHexDigit(s[13]) && IsHexDigit(s[15]) && IsHexDigit(s[16])
    ensures ValidMac(s)
  {
    hide IsHexDigit;
  }

  const DIGITS := "0123456789ABCDEF"

  /** The text shows the six bytes in order, each as two upper-case digits, with dashes between. */
  lemma MacTextShows(id: seq<byte>, i: nat)
    requires |id| == 6 && i < 6
    ensures var b := if i == 0 then LocalByte(id[0]) else id[i];
            && MacText(id)[3 * i] == DIGITS[b / 16] as int && MacText(id)[3 * i + 1] == DIGITS[b % 16] as int
            && (i < 5 ==> MacText(id)[3 * i + 2] == '-' as int)
  {
    DigitIs(LocalByte(id[0]) / 16);
    DigitIs(LocalByte(id[0]) % 16);
    DigitIs(id[i] / 16);
    DigitIs(id[i] % 16);
    hide HexDigit, LocalByte;
  }

  lemma DigitIs(v: nat)
    requires v < 16
    ensures HexDigit(v) == DIGITS[v] as int
  {
  }

  lemma HexDigits(b: byte)
    ensures IsHexDigit(Hi(b)) && IsHexDigit(Lo(b))
  {
  }

  function Lower(c: wchar): wchar {
    if 65 <= c <= 90 then c + 32 else c
  }

  /** `_wcsicmp(a, b) == 0` on ASCII text. */
  predicate SameText(a: seq<wchar>, b: seq<wchar>) {
    |a| == |b| && forall i :: 0 <= i < |a| ==> Lower(a[i]) == Lower(b[i])
  }

  /** Two characters that differ in nothing but the case of an ASCII letter. */
  predicate SameLetter(a: wchar, b: wchar) {
    a == b || (65 <= a <= 90 && b == a + 32) || (65 <= b <= 90 && a == b + 32)
  }

  lemma SameTextIff(a: seq<wchar>, b: seq<wchar>)
    ensures SameText(a, b) <==> |a| == |b| && forall i :: 0 <= i < |a| ==> SameLetter(a[i], b[i])
  {
    if |a| == |b| {
      forall i | 0 <= i < |a|
        ensures Lower(a[i]) == Lower(b[i]) <==> SameLetter(a[i], b[i])
      {
      }
      hide Lower, SameLetter;
    }
  }

  // ---- The table as a list of live records ----

  datatype Info = Info(id: nat, mac: seq<wchar>)

  predicate DistinctIds(t: seq<Info>) {
    && (forall i :: 0 <= i < |t| ==> t[i].id != 0)
    && forall i, j :: 0 <= i < j < |t| ==> t[i].id != t[j].id
  }

  predicate DistinctMacs(t: seq<Info>) {
    forall i, j :: 0 <= i < j < |t| && t[i].mac != [] ==> !SameText(t[i].mac, t[j].mac)
  }

  function Without<T>(s: seq<T>, i: nat): seq<T>
    requires i < |s|
  {
    s[..i] + s[i + 1..]
  }

  /** What the order array holds after the record at `index` is moved behind the live ones. */
  function Parked<T>(s: seq<T>, index: nat, count: nat): (r: seq<T>)
    requires index < count <= |s|
    ensures |r| == |s|
  {
    s[..index] + s[index + 1..count] + [s[index]] + s[count..]
  }

  /** Parking keeps the pool, and the live records other than the removed one in their order. */
  lemma ParkedIsPermutation<T>(s: seq<T>, index: nat, count: nat)
    requires index < count <= |s|
    ensures multiset(Parked(s, index, count)) == multiset(s)
    ensures Parked(s, index, count)[..count - 1] == Without(s[..count], index)
  {
    assert s == s[..index] + [s[index]] + s[index + 1..count] + s[count..];
  }

  lemma WithoutKeepsDistinct(t: seq<Info>, i: nat)
    requires i < |t| && DistinctIds(t) && DistinctMacs(t)
    ensures DistinctIds(Without(t, i)) && DistinctMacs(Without(t, i))
  {
    var r := Without(t, i);
    assert forall j :: 0 <= j < |r| ==> r[j] == t[if j < i then j else j + 1];
  }

  // ---- Runs of creates and removals ----

  datatype Op = Create(id: nat, mac: seq<wchar>) | Remove(index: nat) | SetMac(at: nat, address: seq<wchar>)

  /** Creation draws ids until one is fresh, and addresses until one is free. */
  predicate Allowed(t: seq<Info>, op: Op) {
    match op
    case Create(id, mac) =>
      && |t| < MAX_VMS && id != 0 && (forall i :: 0 <= i < |t| ==> t[i].id != id)
      && (mac != [] ==> forall i :: 0 <= i < |t| ==> !SameText(mac, t[i].mac))
    case Remove(index) => index < |t|
    case SetMac(at, address) =>
      && at < |t| && t[at].mac == []
      && forall i :: 0 <= i < |t| && i != at ==> !SameText(address, t[i].mac)
  }

  function Apply(t: seq<Info>, op: Op): seq<Info> {
    if !Allowed(t, op) then t
    else match op
      case Create(id, mac) => t + [Info(id, mac)]
      case Remove(index) => Without(t, index)
      case SetMac(at, address) => t[at := t[at].(mac := address)]
  }

  function ApplyAll(t: seq<Info>, ops: seq<Op>): seq<Info>
    decreases |ops|
  {
    if ops == [] then t else ApplyAll(Apply(t, ops[0]), ops[1..])
  }

  lemma SameTextSymmetric(a: seq<wchar>, b: seq<wchar>)
    ensures SameText(a, b) == SameText(b, a)
  {
  }

  lemma ApplyKeepsDistinct(t: seq<Info>, op: Op)
    requires DistinctIds(t) && DistinctMacs(t) && |t| <= MAX_VMS
    ensures DistinctIds(Apply(t, op)) && DistinctMacs(Apply(t, op)) && |Apply(t, op)| <= MAX_VMS
  {
    if Allowed(t, op) {
      match op {
        case Create(id, mac) =>
          forall i | 0 <= i < |t| ensures SameText(mac, t[i].mac) == SameText(t[i].mac, mac) {
            SameTextSymmetric(mac, t[i].mac);
          }
        case Remove(index) => WithoutKeepsDistinct(t, index);
        case SetMac(at, address) =>
          var r := Apply(t, op);
          forall i | 0 <= i < |t| && i != at
            ensures r[i] == t[i] && !SameText(address, t[i].mac) && !SameText(t[i].mac, address)
          {
            SameTextSymmetric(address, t[i].mac);
          }
      }
    }
  }

  /** Over any run, ids stay distinct and non-zero and addresses stay distinct. */
  lemma {:induction false} DistinctForEver(t: seq<Info>, ops: seq<Op>)
    requires DistinctIds(t) && DistinctMacs(t) && |t| <= MAX_VMS
    ensures DistinctIds(ApplyAll(t, ops)) && DistinctMacs(ApplyAll(t, ops)) && |ApplyAll(t, ops)| <= MAX_VMS
    decreases |ops|
  {
    if ops != [] {
      ApplyKeepsDistinct(t, ops[0]);
      DistinctForEver(Apply(t, ops[0]), ops[1..]);
    }
  }

  predicate Absent(t: seq<Info>, id: nat) {
    forall i :: 0 <= i < |t| ==> t[i].id != id
  }

  /** What `asb_find_vm_by_id` makes of an id: the first live record with it, or -1; id 0 is nobody's. */
  function Lookup(t: seq<Info>, id: nat): (index: int)
    ensures -1 <= index < |t|
    ensures index >= 0 ==> id != 0 && t[index].id == id && forall i :: 0 <= i < index ==> t[i].id != id
    ensures index == -1 <==> id == 0 || Absent(t, id)
  {
    if id == 0 || t == [] then -1
    else if t[0].id == id then 0
    else
      var rest := Lookup(t[1..], id);
      if rest < 0 then -1 else rest + 1
  }

  lemma {:induction false} AbsentStaysAbsent(t: seq<Info>, ops: seq<Op>, id: nat)
    requires Absent(t, id)
    requires forall i :: 0 <= i < |ops| && ops[i].Create? ==> ops[i].id != id
    ensures Absent(ApplyAll(t, ops), id)
    decreases |ops|
  {
    if ops != [] {
      assert Absent(Apply(t, ops[0]), id);
      AbsentStaysAbsent(Apply(t, ops[0]), ops[1..], id);
    }
  }

  /** A removed VM's id resolves to nothing, whatever is created and removed later, while ids are fresh. */
  lemma RemovedStaysGone(t: seq<Info>, index: nat, ops: seq<Op>)
    requires DistinctIds(t) && index < |t|
    requires forall i :: 0 <= i < |ops| && ops[i].Create? ==> ops[i].id != t[index].id
    ensures Lookup(ApplyAll(Apply(t, Remove(index)), ops), t[index].id) == -1
  {
    var id := t[index].id;
    RemovedIsAbsent(t, index);
    hide *;
    var now := Apply(t, Remove(index));
    AbsentStaysAbsent(now, ops, id);
    assert Lookup(ApplyAll(now, ops), id) == -1;
  }

  lemma RemovedIsAbsent(t: seq<Info>, index: nat)
    requires DistinctIds(t) && index < |t|
    ensures Absent(Apply(t, Remove(index)), t[index].id)
  {
    var r := Without(t, index);
    assert forall j :: 0 <= j < |r| ==> r[j] == t[if j < index then j else j + 1];
  }

  /** The id of any other VM still resolves to its own record. */
  lemma OthersStillFound(t: seq<Info>, index: nat, other: nat)
    requires DistinctIds(t) && index < |t| && other < |t| && other != index
    ensures Lookup(t, t[other].id) == other
    ensures Lookup(Apply(t, Remove(index)), t[other].id) == if other < index then other else other - 1
  {
    var r, at := Without(t, index), if other < index then other else other - 1;
    LookupIs(t, t[other].id, other);
    WithoutAt(t, index, other);
    hide Lookup, Without;
    LookupIs(r, t[other].id, at);
  }

  lemma WithoutAt(t: seq<Info>, index: nat, other: nat)
    requires DistinctIds(t) && index < |t| && other < |t| && other != index
    ensures var r, at := Without(t, index), if other < index then other else other - 1;
            0 <= at < |r| && r[at] == t[other] && DistinctIds(r)
  {
  }

  lemma LookupIs(t: seq<Info>, id: nat, index: int)
    requires -1 <= index < |t|
    requires index >= 0 ==> id != 0 && t[index].id == id && forall i :: 0 <= i < index ==> t[i].id != id
    requires index == -1 ==> id == 0 || Absent(t, id)
    ensures Lookup(t, id) == index
  {
    var r := Lookup(t, id);
    hide Lookup;
  }

  /** Candidate `k` is nobody's, and none before it is a failure of the generator or nobody's. */
  predicate FirstNew(t: seq<Info>, candidates: seq<nat>, k: int) {
    && 0 <= k < |candidates| && candidates[k] != 0 && Absent(t, candidates[k])
    && forall j :: 0 <= j < k ==> candidates[j] != 0 && !Absent(t, candidates[j])
  }

  /** Nobody but the VM at `index` has the address. */
  predicate NobodyElse(t: seq<Info>, index: nat, address: seq<wchar>) {
    forall i :: 0 <= i < |t| && i != index ==> !SameText(address, t[i].mac)
  }

  predicate AreNodes(draws: seq<seq<byte>>) {
    forall i :: 0 <= i < |draws| ==> |draws[i]| == 6
  }

  /** Draw `k` is the first that makes an address which nobody else has. */
  predicate FirstFree(t: seq<Info>, index: nat, draws: seq<seq<byte>>, k: int)
    requires AreNodes(draws)
  {
    && 0 <= k < |draws| && NobodyElse(t, index, MacText(draws[k]))
    && forall j :: 0 <= j < k ==> !NobodyElse(t, index, MacText(draws[j]))
  }

  // ---- The program ----

  class VmRecord {
    var id: nat
    var mac: seq<wchar>

    constructor ()
      ensures id == 0 && mac == []
    {
      id, mac := 0, [];
    }

    /** `ZeroMemory`, and the id. */
    method Reset(id: nat)
      modifies this
      ensures this.id == id && mac == []
    {
      this.id, mac := id, [];
    }

    method SetId(id: nat)
      modifies this
      ensures this.id == id && mac == old(mac)
    {
      this.id := id;
    }

    method SetAddress(address: seq<wchar>)
      modifies this
      ensures id == old(id) && mac == address
    {
      mac := address;
    }
  }

  /** The records of a list as values. */
  ghost function Infos(records: seq<VmRecord>): (t: seq<Info>)
    reads records
    ensures |t| == |records|
    ensures forall i :: 0 <= i < |t| ==> t[i] == Info(records[i].id, records[i].mac)
  {
    seq(|records|, i requires 0 <= i < |records| reads records => Info(records[i].id, records[i].mac))
  }

  predicate Injective(s: seq<VmRecord>) {
    forall i, j :: 0 <= i < j < |s| ==> s[i] != s[j]
  }

  class Table {
    const order: array<VmRecord>
    var count: nat
    ghost const storage: seq<VmRecord>

    /** The order array is always a permutation of the storage pool. */
    ghost predicate Valid()
      reads this, order
    {
      && order.Length == |storage| == MAX_VMS && count <= MAX_VMS
      && Injective(storage) && Injective(order[..])
      && multiset(order[..]) == multiset(storage)
    }

    ghost function Live(): (r: seq<VmRecord>)
      reads this, order
      requires Valid()
    {
      order[..count]
    }

    /** `asb_init`. */
    constructor (pool: array<VmRecord>)
      requires pool.Length == MAX_VMS && Injective(pool[..])
      ensures Valid() && count == 0 && storage == pool[..] && fresh(order)
    {
      order := new VmRecord[MAX_VMS](i requires 0 <= i < MAX_VMS && pool.Length == MAX_VMS reads pool => pool[i]);
      count := 0;
      storage := pool[..];
      new;
      assert order[..] == storage;
    }

    /** `vm_index_of`: position of a record, or -1. */
    method IndexOf(vm: VmRecord) returns (index: int)
      requires Valid()
      ensures -1 <= index < count
      ensures index >= 0 ==> Live()[index] == vm
      ensures index == -1 ==> vm !in Live()
    {
      index := 0;
      while index < count
        invariant 0 <= index <= count
        invariant forall i :: 0 <= i < index ==> order[i] != vm
      {
        if order[index] == vm { return; }
        index := index + 1;
      }
      index := -1;
    }

    /** `asb_find_vm_by_id`: position of the first record with the id, or -1; id 0 is nobody's. */
    method FindById(id: nat) returns (index: int)
      requires Valid()
      ensures -1 <= index < count
      ensures index >= 0 ==> id != 0 && Live()[index].id == id
      ensures index == -1 ==> id == 0 || forall r :: r in Live() ==> r.id != id
      ensures index == Lookup(Infos(Live()), id)
    {
      ghost var t := Infos(Live());
      if id == 0 {
        LookupIs(t, id, -1);
        return -1;
      }
      index := 0;
      while index < count
        invariant 0 <= index <= count
        invariant forall i :: 0 <= i < index ==> order[i].id != id
      {
        if order[index].id == id {
          LookupIs(t, id, index);
          return;
        }
        index := index + 1;
      }
      index := -1;
      LookupIs(t, id, -1);
    }

    /** The ids of the live records. */
    ghost function Ids(): (ids: seq<nat>)
      requires Valid()
      reads this, order, order[..]
      ensures |ids| == count && forall i :: 0 <= i < count ==> ids[i] == order[i].id
    {
      seq(count, i requires 0 <= i < count && Valid() reads this, order, order[..] => order[i].id)
    }

    method CopyIds() returns (ids: array<nat>)
      requires Valid()
      ensures fresh(ids) && ids.Length == count && forall i :: 0 <= i < count ==> ids[i] == order[i].id
    {
      ids := new nat[count](i => 0);
      for i := 0 to count
        invariant forall k :: 0 <= k < i ==> ids[k] == order[k].id
      {
        ids[i] := order[i].id;
      }
    }

    /**
     The end of a load: ids that are missing or repeated are replaced. If that fails no VM is left. `migrated` is
     whether the configuration has to be saved again.
     */
    method MigrateIds(draws: seq<nat>) returns (ok: bool, migrated: bool)
      requires Valid()
      modifies this`count, order[..count]
      ensures Valid() && order[..] == old(order[..])
      ensures ok ==> count == old(count) && DistinctIds(Infos(Live()))
      ensures ok ==> forall i :: 0 <= i < count ==> order[i].mac == old(order[i].mac)
      ensures ok ==> forall i :: 0 <= i < count && old(HoldsFirst(i)) ==> order[i].id == old(order[i].id)
      ensures ok ==> (!migrated <==> forall i :: 0 <= i < count ==> order[i].id == old(order[i].id))
      ensures !ok ==> count == 0
      ensures ok <==> VmId.Suffices(draws, old(Ids()))
    {
      hide VmId.AllDistinct, VmId.Suffices, VmId.FirstHolder, HoldsFirst, Injective, DistinctIds, Infos;
      var ids := CopyIds();
      ghost var was := ids[..];
      assert was == old(Ids());
      HoldersAgree(was);
      var changed := VmId.EnsureIds(ids, draws);
      if changed < 0 {
        count := 0;
        return false, false;
      }
      WriteIds(ids);
      IdsAreDistinct(ids[..]);
      return true, changed == 1;
    }

    lemma HoldersAgree(was: seq<nat>)
      requires Valid() && |was| == count && forall i :: 0 <= i < count ==> was[i] == order[i].id
      ensures forall i :: HoldsFirst(i) <==> VmId.FirstHolder(was, i)
    {
    }

    lemma IdsAreDistinct(ids: seq<nat>)
      requires Valid() && |ids| == count && forall i :: 0 <= i < count ==> ids[i] == order[i].id
      requires VmId.AllDistinct(ids)
      ensures DistinctIds(Infos(Live()))
    {
    }

    method WriteIds(ids: array<nat>)
      requires Valid() && ids.Length == count
      modifies order[..count]
      ensures Valid() && order[..] == old(order[..])
      ensures forall k :: 0 <= k < count ==> order[k].id == ids[k] && order[k].mac == old(order[k].mac)
    {
      for i := 0 to count
        invariant Valid() && order[..] == old(order[..])
        invariant forall k :: 0 <= k < count ==> order[k].mac == old(order[k].mac)
        invariant forall k :: 0 <= k < i ==> order[k].id == ids[k]
      {
        assert forall k :: 0 <= k < count && k != i ==> order[k] != order[i];
        order[i].SetId(ids[i]);
      }
    }

    /** No record before this one has its id. */
    ghost predicate HoldsFirst(i: int)
      requires Valid()
      reads this, order, order[..]
    {
      0 <= i < count && order[i].id != 0 && forall j :: 0 <= j < i ==> order[j].id != order[i].id
    }

    /** `remove_vm_record`. No record moves; the freed one is zeroed and parked behind the live ones. */
    method RemoveRecord(index: nat)
      requires Valid() && index < count
      modifies this, order, order[index]
      ensures Valid() && count == old(count) - 1
      ensures order[..] == Parked(old(order[..]), index, old(count))
      ensures Live() == Without(old(Live()), index)
      ensures forall r :: r in Live() ==> r.id == old(r.id) && r.mac == old(r.mac)
      ensures old(order[index]).id == 0 && old(order[index]).mac == []
    {
      hide Parked, Injective;
      var removed := order[index];
      Park(index);
      ghost var live := order[..count];
      removed.Reset(0);
      assert order[..count] == live;
      assert forall r :: r in live ==> r != removed;
    }

    /** Moves the record at `index` behind the live ones. */
    method Park(index: nat)
      requires Valid() && index < count
      modifies this, order
      ensures Valid() && count == old(count) - 1
      ensures order[..] == Parked(old(order[..]), index, old(count))
      ensures Live() == Without(old(Live()), index)
      ensures old(order[index]) !in Live() && forall r :: r in Live() ==> r in old(Live())
    {
      ghost var pool, n := order[..], count;
      ParkedIsPermutation(pool, index, n);
      ParkedIsInjective(pool, index, n);
      ShiftDown(index);
      count := count - 1;
      hide Parked;
      assert pool[..n] == old(Live());
      assert order[..count] == order[..][..count];
    }

    method ShiftDown(index: nat)
      requires index < count <= order.Length
      modifies order
      ensures order[..] == Parked(old(order[..]), index, count)
    {
      hide Parked;
      ghost var was := order[..];
      var removed := order[index];
      var j := index;
      while j < count - 1
        invariant index <= j <= count - 1 < order.Length
        invariant order[..] == was[..index] + was[index + 1..j + 1] + was[j..]
      {
        ShiftOne(was, index, j);
        order[j] := order[j + 1];
        j := j + 1;
      }
      ParkedIs(was, index, count);
      order[count - 1] := removed;
    }

    /** The part of `asb_vm_create` that takes the next free record; `candidates` are the ids drawn. */
    method CreateRecord(candidates: seq<nat>) returns (ok: bool)
      requires Valid()
      modifies this, if count < MAX_VMS then {order[count]} else {}
      ensures Valid() && order[..] == old(order[..])
      ensures !ok ==> count == old(count) && Infos(Live()) == old(Infos(Live()))
      ensures ok ==> old(count) < MAX_VMS && count == old(count) + 1
                     && Allowed(old(Infos(Live())), Create(Live()[count - 1].id, []))
                     && Infos(Live()) == Apply(old(Infos(Live())), Create(Live()[count - 1].id, []))
      ensures ok <==> old(count) < MAX_VMS && exists k :: FirstNew(old(Infos(Live())), candidates, k)
      ensures ok ==> exists k :: FirstNew(old(Infos(Live())), candidates, k) && Live()[count - 1].id == candidates[k]
    {
      if count >= MAX_VMS { return false; }
      var id := DrawId(candidates);
      if id == 0 { return false; }
      Add(id);
      ok := true;
    }

    /** Draws ids until one is nobody's; 0 when the generator fails. */
    method DrawId(candidates: seq<nat>) returns (id: nat)
      requires Valid()
      ensures id != 0 ==> Absent(Infos(Live()), id) && exists k :: FirstNew(Infos(Live()), candidates, k)
                                                                  && candidates[k] == id
      ensures id == 0 ==> forall k :: !FirstNew(Infos(Live()), candidates, k)
    {
      for k := 0 to |candidates|
        invariant forall j :: 0 <= j < k ==> candidates[j] != 0 && !Absent(Infos(Live()), candidates[j])
      {
        if candidates[k] == 0 { return 0; }
        var taken := FindById(candidates[k]);
        if taken == -1 { return candidates[k]; }
      }
      return 0;
    }

    /** Makes the next free record live under a new id. */
    method Add(id: nat)
      requires Valid() && count < MAX_VMS && id != 0 && Absent(Infos(Live()), id)
      modifies this, order[count]
      ensures Valid() && order[..] == old(order[..]) && count == old(count) + 1 && Live()[count - 1].id == id
      ensures Allowed(old(Infos(Live())), Create(id, []))
      ensures Infos(Live()) == Apply(old(Infos(Live())), Create(id, []))
    {
      var inst := order[count];
      assert inst !in Live();
      ghost var before, t := Live(), Infos(Live());
      inst.Reset(id);
      count := count + 1;
      assert Live() == before + [inst];
      assert forall r :: r in before ==> r != inst;
      assert Infos(Live()) == t + [Info(id, [])];
    }

    /**
     `ensure_vm_mac_address` for the record at `index`, which may be the one about to be
     added; `draws` are the node bytes of the GUIDs generated until generation fails.
     */
    method EnsureMac(index: nat, draws: seq<seq<byte>>) returns (ok: bool)
      requires Valid() && index <= count && index < MAX_VMS && AreNodes(draws)
      modifies order[index]
      ensures Valid() && order[..] == old(order[..]) && order[index].id == old(order[index].id)
      ensures old(order[index].mac) != [] ==> ok && order[index].mac == old(order[index].mac)
      ensures !ok ==> order[index].mac == old(order[index].mac)
      ensures ok <==> old(order[index].mac) != [] || exists k :: FirstFree(old(Infos(Live())), index, draws, k)
      ensures ok && old(order[index].mac) == [] ==>
                && ValidMac(order[index].mac) && NobodyElse(old(Infos(Live())), index, order[index].mac)
                && exists k :: FirstFree(old(Infos(Live())), index, draws, k) && order[index].mac == MacText(draws[k])
      ensures ok && old(order[index].mac) == [] && index < count ==>
                && Allowed(old(Infos(Live())), SetMac(index, order[index].mac))
                && Infos(Live()) == Apply(old(Infos(Live())), SetMac(index, order[index].mac))
    {
      if order[index].mac != [] { return true; }
      ghost var t := Infos(Live());
      hide MacText, FirstFree, NobodyElse, ValidMac, Infos, Allowed, Apply;
      var address;
      ok, address := DrawAddress(index, draws);
      assert Infos(Live()) == t;
      if ok {
        assert exists k :: FirstFree(t, index, draws, k) && address == MacText(draws[k]);
        Store(index, address);
      }
    }

    /** Draws addresses until one is free. */
    method DrawAddress(index: nat, draws: seq<seq<byte>>) returns (free: bool, address: seq<wchar>)
      requires Valid() && AreNodes(draws)
      ensures free ==> ValidMac(address) && NobodyElse(Infos(Live()), index, address)
      ensures free ==> exists k :: FirstFree(Infos(Live()), index, draws, k) && address == MacText(draws[k])
      ensures !free ==> forall k :: !FirstFree(Infos(Live()), index, draws, k)
    {
      hide MacText, NobodyElse, Infos, ValidMac, SameText;
      ghost var t := Infos(Live());
      var k := 0;
      while k < |draws|
        invariant 0 <= k <= |draws| && Infos(Live()) == t
        invariant forall j :: 0 <= j < k ==> !NobodyElse(t, index, MacText(draws[j]))
      {
        address := MacText(draws[k]);
        MacTextValid(draws[k]);
        free := NobodyElseHas(index, address);
        if free {
          assert FirstFree(t, index, draws, k);
          return;
        }
        k := k + 1;
      }
      free, address := false, [];
    }

    /** Writes a free address into a record that has none. */
    method Store(index: nat, address: seq<wchar>)
      requires Valid() && index <= count && index < MAX_VMS && order[index].mac == []
      requires NobodyElse(Infos(Live()), index, address)
      modifies order[index]
      ensures Valid() && order[..] == old(order[..])
      ensures order[index].id == old(order[index].id) && order[index].mac == address
      ensures forall i :: 0 <= i < count && i != index ==> order[i].mac == old(order[i].mac)
      ensures index < count ==>
                && Allowed(old(Infos(Live())), SetMac(index, address))
                && Infos(Live()) == Apply(old(Infos(Live())), SetMac(index, address))
    {
      ghost var t := Infos(Live());
      order[index].SetAddress(address);
      assert forall i :: 0 <= i < count && i != index ==> order[i] != order[index];
      if index < count {
        assert Infos(Live()) == t[index := t[index].(mac := address)];
      }
    }

    method NobodyElseHas(index: nat, address: seq<wchar>) returns (free: bool)
      requires Valid()
      ensures free <==> NobodyElse(Infos(Live()), index, address)
    {
      var i := 0;
      while i < count
        invariant 0 <= i <= count
        invariant forall j :: 0 <= j < i && j != index ==> !SameText(address, order[j].mac)
      {
        if i != index && SameText(address, order[i].mac) { return false; }
        i := i + 1;
      }
      free := true;
    }
  }

  lemma ParkedIsInjective(s: seq<VmRecord>, index: nat, count: nat)
    requires index < count <= |s| && Injective(s)
    ensures Injective(Parked(s, index, count))
    ensures s[index] !in Parked(s, index, count)[..count - 1]
  {
    var r := Parked(s, index, count);
    assert forall i :: 0 <= i < |s| ==>
             r[i] == s[if i < index || i >= count then i else if i < count - 1 then i + 1 else index];
  }

  lemma ShiftOne(was: seq<VmRecord>, index: nat, j: nat)
    requires index <= j < |was| - 1
    ensures var now := was[..index] + was[index + 1..j + 1] + was[j..];
            now[j + 1] == was[j + 1]
            && now[j := was[j + 1]] == was[..index] + was[index + 1..j + 2] + was[j + 1..]
  {
  }

  lemma ParkedIs(was: seq<VmRecord>, index: nat, count: nat)
    requires index < count <= |was|
    ensures (was[..index] + was[index + 1..count] + was[count - 1..])[count - 1 := was[index]]
            == Parked(was, index, count)
  {
  }
}
