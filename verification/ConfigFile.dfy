/**
 The configuration file: the printer of `save_vm_list` and the section-driven reader of
 `load_vm_list`.

 A record of the program is here a map from the key of each persisted field to its value.
 */
module ConfigFile {
  import opened Common
  import Decimal
  import VmId

  const MAX_TEMPLATES: nat := 32
  const LINE: nat := 1024
  const MAX_PATH: nat := 260
  const EQUALS: unit := '=' as int

  // ---- Keys and values ----

  datatype Key =
    | Id | Name | OsType | ImagePath | VhdxPath | RamMB | HddGB | CpuCores | GpuMode | GpuName | GpuId
    | GpuDevicePath | NetworkMode | NetAdapter | MacAddress | ResourcesIso | NatIp | IsTemplate | TestMode | AdminUser
    | SshEnabled | SshPort | SshDeployKey | SshPubKey | InstallComplete | LastIsoPath | SuppressTrayWarn

  function KeyName(k: Key): string {
    match k
    case Id => "Id" case Name => "Name" case OsType => "OsType" case ImagePath => "ImagePath"
    case VhdxPath => "VhdxPath" case RamMB => "RamMB" case HddGB => "HddGB" case CpuCores => "CpuCores"
    case GpuMode => "GpuMode" case GpuName => "GpuName" case GpuId => "GpuId" case GpuDevicePath => "GpuDevicePath"
    case NetworkMode => "NetworkMode" case NetAdapter => "NetAdapter" case MacAddress => "MacAddress"
    case ResourcesIso => "ResourcesIso" case NatIp => "NatIp" case IsTemplate => "IsTemplate"
    case TestMode => "TestMode" case AdminUser => "AdminUser" case SshEnabled => "SshEnabled" case SshPort => "SshPort"
    case SshDeployKey => "SshDeployKey" case SshPubKey => "SshPubKey" case InstallComplete => "InstallComplete"
    case LastIsoPath => "LastIsoPath" case SuppressTrayWarn => "SuppressTrayWarn"
  }

  /** The key of a name, by its length and a letter or two. */
  function KeyOf(name: string): Key {
    var n := |name|;
    if n <= 3 then Id
    else if n == 4 then Name
    else if n == 5 then
      if name[0] == 'R' then RamMB else if name[0] == 'H' then HddGB else if name[0] == 'G' then GpuId else NatIp
    else if n == 6 then OsType
    else if n == 7 then if name[0] == 'S' then SshPort else if name[3] == 'M' then GpuMode else GpuName
    else if n == 8 then if name[0] == 'V' then VhdxPath else if name[0] == 'C' then CpuCores else TestMode
    else if n == 9 then if name[0] == 'I' then ImagePath else if name[0] == 'A' then AdminUser else SshPubKey
    else if n == 10 then
      if name[0] == 'N' then NetAdapter else if name[0] == 'M' then MacAddress
      else if name[0] == 'I' then IsTemplate else SshEnabled
    else if n == 11 then if name[0] == 'N' then NetworkMode else LastIsoPath
    else if n == 12 then if name[0] == 'R' then ResourcesIso else SshDeployKey
    else if n == 13 then GpuDevicePath
    else if n == 15 then InstallComplete
    else SuppressTrayWarn
  }

  lemma KeyOfName(k: Key)
    ensures KeyOf(KeyName(k)) == k
  {
    if KindOf(k) == TextKind { KeyOfTextName(k); } else { KeyOfOtherName(k); }
  }

  lemma KeyOfTextName(k: Key)
    requires KindOf(k) == TextKind
    ensures KeyOf(KeyName(k)) == k
  {
  }

  lemma KeyOfOtherName(k: Key)
    requires KindOf(k) != TextKind
    ensures KeyOf(KeyName(k)) == k
  {
  }

  /** Letters, of which none is `=`. */
  predicate IsName(s: string) {
    2 <= |s| <= 16 && s[0] <= 'Z' && forall i :: 0 <= i < |s| ==> 'A' <= s[i] <= 'z'
  }

  lemma KeyNames(k: Key)
    ensures IsName(KeyName(k))
  {
    match KindOf(k)
    case TextKind => TextKeyNames(k);
    case FlagKind => FlagKeyNames(k);
    case _ => OtherKeyNames(k);
  }

  lemma TextKeyNames(k: Key)
    requires KindOf(k) == TextKind
    ensures IsName(KeyName(k))
  {
  }

  lemma FlagKeyNames(k: Key)
    requires KindOf(k) == FlagKind
    ensures IsName(KeyName(k))
  {
  }

  lemma OtherKeyNames(k: Key)
    requires KindOf(k) != TextKind && KindOf(k) != FlagKind
    ensures IsName(KeyName(k))
  {
  }

  /** `Name=` and the like. */
  function Prefix(k: Key): (r: wstring)
    ensures 3 <= |r| <= 17 && r[|r| - 1] == EQUALS && r[0] != '[' as int
    ensures forall i :: 0 <= i < |r| - 1 ==> r[i] != EQUALS && r[i] >= 32
  {
    KeyNames(k);
    hide KeyName;
    Units(KeyName(k)) + [EQUALS]
  }

  lemma PrefixesDiffer(j: Key, k: Key)
    requires Prefix(j) == Prefix(k)
    ensures j == k
  {
    hide KeyName, KeyOf;
    KeyNames(j);
    KeyNames(k);
    var a, b := Units(KeyName(j)), Units(KeyName(k));
    assert a == Prefix(j)[..|Prefix(j)| - 1] && b == Prefix(k)[..|Prefix(k)| - 1];
    SameText(KeyName(j), KeyName(k));
    KeyOfName(j);
    KeyOfName(k);
  }

  lemma SameText(a: string, b: string)
    requires IsName(a) && IsName(b) && Units(a) == Units(b)
    ensures a == b
  {
    assert |a| == |b|;
    forall i | 0 <= i < |a|
      ensures a[i] == b[i]
    {
      assert Units(a)[i] == Units(b)[i];
    }
  }

  datatype Value = Text(s: wstring) | Number(n: int) | Flag(b: bool)

  datatype Kind = TextKind | IdKind | UnsignedKind | SignedKind | FlagKind | IgnoredKind

  function KindOf(k: Key): Kind {
    match k
    case Id => IdKind
    case RamMB | HddGB | CpuCores | SshPort => UnsignedKind
    case GpuMode | NetworkMode => SignedKind
    case IsTemplate | TestMode | SshEnabled | SshDeployKey | InstallComplete | SuppressTrayWarn => FlagKind
    case GpuDevicePath => IgnoredKind
    case _ => TextKind
  }

  /** Units in the field's buffer, its NUL included. */
  function Width(k: Key): (w: nat)
    ensures 0 < w <= 512
  {
    match k
    case OsType | NatIp => 32
    case MacAddress => 18
    case AdminUser => 128
    case GpuId | SshPubKey => 512
    case ImagePath | VhdxPath | ResourcesIso | LastIsoPath => MAX_PATH
    case _ => 256
  }

  /**
   Fields copied with truncation; the others are copied by `wcscpy_s`, which ends the process when they do not
   fit.
   */
  predicate Truncates(k: Key) {
    k == GpuId || k == MacAddress || k == SshPubKey || k == NatIp
  }

  /** What `ZeroMemory` leaves. */
  function Zero(k: Key): Value {
    match KindOf(k)
    case TextKind | IgnoredKind => Text([])
    case IdKind | UnsignedKind | SignedKind => Number(0)
    case FlagKind => Flag(false)
  }

  /** The values a field can hold in memory; strings do not hold line ends. */
  predicate Storable(k: Key, v: Value) {
    match KindOf(k)
    case TextKind => v.Text? && |v.s| < Width(k) && 10 !in v.s && 13 !in v.s
    case IdKind => v.Number? && 0 <= v.n < VmId.LIMIT
    case UnsignedKind => v.Number? && 0 <= v.n < 0x1_0000_0000
    case SignedKind => v.Number? && Decimal.INT_MIN <= v.n <= Decimal.INT_MAX
    case FlagKind => v.Flag?
    case IgnoredKind => v == Zero(k)
  }

  /** The fields that are written only when they hold something. */
  predicate Written(k: Key, v: Value) {
    match k
    case GpuDevicePath => false
    case GpuId | NetAdapter | MacAddress | ResourcesIso | NatIp | AdminUser | SshPort | SshPubKey | LastIsoPath =>
      v != Zero(k)
    case _ => KindOf(k) == FlagKind ==> v == Flag(true)
  }

  function Printed(k: Key, v: Value): wstring
    requires Storable(k, v)
  {
    match KindOf(k)
    case TextKind => v.s
    case IdKind => VmId.Format(v.n)
    case UnsignedKind => Decimal.Digits(v.n)
    case SignedKind => Decimal.Signed(v.n)
    case FlagKind => Units("1")
    case IgnoredKind => []
  }

  /** The reader's side; None is the end of the process. */
  function Stored(k: Key, text: wstring, truncates: bool): Option<Value> {
    match KindOf(k)
    case TextKind =>
      if |text| < Width(k) then Some(Text(text)) else if truncates then Some(Text(text[..Width(k) - 1])) else None
    case IdKind => Some(Number(VmId.Parse(text)))
    case UnsignedKind => Some(Number(Decimal.WToI(text) % 0x1_0000_0000))
    case SignedKind => Some(Number(Decimal.WToI(text)))
    case FlagKind => Some(Flag(Decimal.WToI(text) != 0))
    case IgnoredKind => Some(Zero(k))
  }

  /** Unsigned numbers are read with `_wtoi`, which stops at 2^31 - 1. */
  predicate Readable(k: Key, v: Value) {
    KindOf(k) == UnsignedKind && v.Number? ==> v.n <= Decimal.INT_MAX
  }

  /** A written field reads back exactly when it is no unsigned number of 2^31 or more. */
  lemma FieldReadsBackIff(k: Key, v: Value, truncates: bool)
    requires Storable(k, v) && Written(k, v)
    ensures Stored(k, Printed(k, v), truncates) == Some(v) <==> Readable(k, v)
  {
    hide Decimal.Digits, Decimal.Signed, Decimal.WToI, VmId.Format, VmId.Parse, Width, Truncates;
    match KindOf(k)
    case TextKind =>
    case IdKind =>
      VmId.ReadsBack(v.n);
    case UnsignedKind =>
      UnsignedReadsBackIff(v.n);
    case SignedKind =>
      SignedReadsBack(v.n);
    case FlagKind =>
      OneReadsBack();
    case IgnoredKind =>
  }

  /** Text that is too long for its field is cut to what fits with its NUL, or ends the process. */
  lemma LongTextIsCut(k: Key, text: wstring, truncates: bool)
    requires KindOf(k) == TextKind
    ensures Stored(k, text, truncates) == None <==> |text| + 1 > Width(k) && !truncates
    ensures Stored(k, text, truncates).Some? ==>
              exists n :: 0 <= n <= |text| && Stored(k, text, truncates) == Some(Text(text[..n]))
                          && n + 1 <= Width(k) && (n == |text| || n + 1 == Width(k))
  {
    var n := if |text| < Width(k) then |text| else Width(k) - 1;
    assert |text| < Width(k) ==> text[..n] == text;
  }

  /** A larger number reads back as the largest `int`. */
  lemma LargeNumberIsLost(n: nat, truncates: bool)
    requires Decimal.INT_MAX < n < 0x1_0000_0000
    ensures Storable(RamMB, Number(n)) && Written(RamMB, Number(n))
    ensures Stored(RamMB, Printed(RamMB, Number(n)), truncates) == Some(Number(Decimal.INT_MAX))
  {
    assert Decimal.Digits(n) + [] == Decimal.Digits(n) == Decimal.Signed(n);
    Decimal.SignedReadsBack(n, []);
  }

  lemma UnsignedReadsBackIff(n: nat)
    requires n < 0x1_0000_0000
    ensures Decimal.WToI(Decimal.Digits(n)) % 0x1_0000_0000 == n <==> n <= Decimal.INT_MAX
  {
    assert Decimal.Digits(n) + [] == Decimal.Digits(n);
    Decimal.UnsignedReadsBackIff(n, []);
  }

  lemma SignedReadsBack(v: int)
    requires Decimal.INT_MIN <= v <= Decimal.INT_MAX
    ensures Decimal.WToI(Decimal.Signed(v)) == v
  {
    assert Decimal.Signed(v) + [] == Decimal.Signed(v);
    Decimal.SignedReadsBack(v, []);
  }

  lemma OneReadsBack()
    ensures Decimal.WToI(Units("1")) == 1
  {
    assert Decimal.Digits(1) == Units("1") == Units("1") + [];
    Decimal.UnsignedReadsBackIff(1, []);
  }

  lemma UnwrittenIsZero(k: Key, v: Value)
    requires Storable(k, v) && !Written(k, v)
    ensures v == Zero(k)
  {
  }

  // ---- Records and sections ----

  type Record = map<Key, Value>

  datatype Section = Settings | Template | Vm

  /** The reader's chain of comparisons, which is also the order of writing. */
  function Keys(s: Section): (keys: seq<Key>)
    ensures keys != []
  {
    match s
    case Settings => [LastIsoPath, SuppressTrayWarn]
    case Template => [Name, OsType, ImagePath, VhdxPath]
    case Vm =>
      [Id, Name, OsType, ImagePath, VhdxPath, RamMB, HddGB, CpuCores, GpuMode, GpuName, GpuId, GpuDevicePath,
       NetworkMode, NetAdapter, MacAddress, ResourcesIso, NatIp, IsTemplate, TestMode, AdminUser, SshEnabled, SshPort,
       SshDeployKey, SshPubKey, InstallComplete]
  }

  /** The place of a field among those of a VM; the settings have none. */
  function PlaceInVm(k: Key): nat {
    match k
    case Id => 0 case Name => 1 case OsType => 2 case ImagePath => 3 case VhdxPath => 4 case RamMB => 5
    case HddGB => 6 case CpuCores => 7 case GpuMode => 8 case GpuName => 9 case GpuId => 10
    case GpuDevicePath => 11 case NetworkMode => 12 case NetAdapter => 13 case MacAddress => 14
    case ResourcesIso => 15 case NatIp => 16 case IsTemplate => 17 case TestMode => 18 case AdminUser => 19
    case SshEnabled => 20 case SshPort => 21 case SshDeployKey => 22 case SshPubKey => 23
    case InstallComplete => 24
    case _ => 25
  }

  lemma VmKeyAt(k: Key)
    ensures |Keys(Vm)| == 25 && (PlaceInVm(k) < 25 ==> Keys(Vm)[PlaceInVm(k)] == k)
  {
  }

  lemma NoSettingsInVm(i: nat)
    requires i < |Keys(Vm)|
    ensures Keys(Vm)[i] != LastIsoPath && Keys(Vm)[i] != SuppressTrayWarn
  {
  }

  /** Every field belongs to a VM or to the settings. */
  lemma EveryKeyHasASection(k: Key)
    ensures k in Keys(Settings) <==> k == LastIsoPath || k == SuppressTrayWarn
    ensures k in Keys(Vm) <==> k != LastIsoPath && k != SuppressTrayWarn
  {
    VmKeyAt(k);
    SettingsKeys(k);
    hide Keys;
    assert PlaceInVm(k) < 25 ==> k in Keys(Vm);
    forall i | 0 <= i < |Keys(Vm)|
      ensures Keys(Vm)[i] != LastIsoPath && Keys(Vm)[i] != SuppressTrayWarn
    {
      NoSettingsInVm(i);
    }
  }

  lemma SettingsKeys(k: Key)
    ensures k in Keys(Settings) <==> k == LastIsoPath || k == SuppressTrayWarn
  {
    assert Keys(Settings)[0] == LastIsoPath && Keys(Settings)[1] == SuppressTrayWarn;
  }

  function Header(s: Section): wstring {
    match s
    case Settings => Units("[Settings]")
    case Template => Units("[Template]")
    case Vm => Units("[VM]")
  }

  function Zeroed(s: Section): Record {
    map k | k in Keys(s) :: Zero(k)
  }

  predicate IsRecord(s: Section, rec: Record) {
    rec.Keys == Zeroed(s).Keys && forall k :: k in Keys(s) ==> Storable(k, rec[k])
  }

  predicate ReadableRecord(rec: Record) {
    forall k :: k in rec ==> Readable(k, rec[k])
  }

  // ---- The printer ----

  function FieldLine(k: Key, v: Value): seq<wstring>
    requires Storable(k, v)
  {
    if Written(k, v) then [Prefix(k) + Printed(k, v)] else []
  }

  /** The lines of the first `n` fields. */
  function FieldLines(s: Section, rec: Record, n: nat): seq<wstring>
    requires IsRecord(s, rec) && n <= |Keys(s)|
  {
    if n == 0 then [] else FieldLines(s, rec, n - 1) + FieldLine(Keys(s)[n - 1], rec[Keys(s)[n - 1]])
  }

  function Block(s: Section, rec: Record): seq<wstring>
    requires IsRecord(s, rec)
  {
    [Header(s)] + FieldLines(s, rec, |Keys(s)|) + [[]]
  }

  predicate AreRecords(s: Section, recs: seq<Record>) {
    forall i :: 0 <= i < |recs| ==> IsRecord(s, recs[i])
  }

  predicate AreReadable(recs: seq<Record>) {
    forall i :: 0 <= i < |recs| ==> ReadableRecord(recs[i])
  }

  function Blocks(s: Section, recs: seq<Record>): seq<wstring>
    requires AreRecords(s, recs)
  {
    if recs == [] then [] else Blocks(s, recs[..|recs| - 1]) + Block(s, recs[|recs| - 1])
  }

  /** A VM of the table; one whose disk is still being built is not saved. */
  datatype TableVm = TableVm(rec: Record, building: bool)

  datatype Config = Config(settings: Record, templates: seq<Record>, vms: seq<TableVm>)

  predicate IsConfig(c: Config) {
    && IsRecord(Settings, c.settings)
    && |c.templates| <= MAX_TEMPLATES && |c.vms| <= MAX_VMS
    && AreRecords(Template, c.templates) && AreRecords(Vm, Built(c.vms))
  }

  /** The VMs that are saved. */
  function Built(vms: seq<TableVm>): (recs: seq<Record>)
    ensures |recs| <= |vms|
  {
    if vms == [] then []
    else Built(vms[..|vms| - 1]) + if vms[|vms| - 1].building then [] else [vms[|vms| - 1].rec]
  }

  /** `at` lists the places of the VMs that are not being built, in order, and `recs` their records. */
  ghost predicate AreBuilt(vms: seq<TableVm>, at: seq<nat>, recs: seq<Record>) {
    && |at| == |recs|
    && (forall i :: 0 <= i < |at| ==> at[i] < |vms| && !vms[at[i]].building && recs[i] == vms[at[i]].rec)
    && (forall i, j :: 0 <= i < j < |at| ==> at[i] < at[j])
    && forall k: nat :: k < |vms| && !vms[k].building ==> k in at
  }

  lemma {:induction false} BuiltMeans(vms: seq<TableVm>) returns (at: seq<nat>)
    ensures AreBuilt(vms, at, Built(vms))
  {
    at := [];
    if vms != [] {
      var n := |vms| - 1;
      at := BuiltMeans(vms[..n]);
      AreBuiltNext(vms, at, Built(vms[..n]));
      hide AreBuilt;
      at := if vms[n].building then at else at + [n];
    }
  }

  lemma AreBuiltNext(vms: seq<TableVm>, at: seq<nat>, recs: seq<Record>)
    requires vms != [] && AreBuilt(vms[..|vms| - 1], at, recs)
    ensures var n := |vms| - 1;
            if vms[n].building then AreBuilt(vms, at, recs + []) else AreBuilt(vms, at + [n], recs + [vms[n].rec])
  {
    var n := |vms| - 1;
    assert recs + [] == recs;
    assert forall k: nat :: k < n ==> vms[..n][k] == vms[k];
    var longer := at + [n];
    assert longer[|at|] == n;
    assert forall k :: k in at ==> k in longer;
  }

  function SettingsLines(rec: Record): seq<wstring>
    requires IsRecord(Settings, rec)
  {
    if rec == Zeroed(Settings) then [] else Block(Settings, rec)
  }

  function SavedLines(c: Config): seq<wstring>
    requires IsConfig(c)
  {
    SettingsLines(c.settings) + Blocks(Template, c.templates) + Blocks(Vm, Built(c.vms))
  }

  // ---- The reader ----

  predicate Starts(line: wstring, p: wstring) {
    |line| >= |p| && line[..|p|] == p
  }

  /** The first of the first `n` keys that the line starts with. */
  function Matching(line: wstring, keys: seq<Key>): (r: Option<Key>)
    ensures r.Some? ==> r.value in keys && Starts(line, Prefix(r.value))
  {
    if keys == [] then None
    else if Starts(line, Prefix(keys[0])) then Some(keys[0])
    else Matching(line, keys[1..])
  }

  predicate Cuts(s: Section, k: Key) {
    s == Template || (s == Vm && Truncates(k))
  }

  /** One line inside a section; None is the end of the process. */
  function SetField(s: Section, rec: Record, line: wstring): Option<Record> {
    match Matching(line, Keys(s))
    case None => Some(rec)
    case Some(k) =>
      match Stored(k, line[|Prefix(k)|..], Cuts(s, k))
      case None => None
      case Some(v) => Some(rec[k := v])
  }

  /** `current` is the section of the lines to come, if any; `going` is false after the VM that is one too many. */
  datatype Reader = Reader(settings: Record, templates: seq<Record>, vms: seq<Record>, current: Option<Section>,
                           going: bool, aborted: bool)

  const START: Reader := Reader(Zeroed(Settings), [], [], None, true, false)

  predicate HasCurrent(r: Reader) {
    && (r.current == Some(Template) ==> r.templates != [])
    && (r.current == Some(Vm) ==> r.vms != [])
  }

  function Current(r: Reader): Record
    requires r.current.Some? && HasCurrent(r)
  {
    match r.current.value
    case Settings => r.settings
    case Template => r.templates[|r.templates| - 1]
    case Vm => r.vms[|r.vms| - 1]
  }

  function WithCurrent(r: Reader, rec: Record): (r': Reader)
    requires r.current.Some? && HasCurrent(r)
    ensures HasCurrent(r') && r'.current == r.current
  {
    match r.current.value
    case Settings => r.(settings := rec)
    case Template => r.(templates := r.templates[|r.templates| - 1 := rec])
    case Vm => r.(vms := r.vms[|r.vms| - 1 := rec])
  }

  /** A section header. */
  function Enter(r: Reader, s: Section): (r': Reader)
    ensures HasCurrent(r) ==> HasCurrent(r')
  {
    match s
    case Settings => r.(current := Some(Settings))
    case Vm =>
      if |r.vms| >= MAX_VMS then r.(current := None, going := false)
      else r.(current := Some(Vm), vms := r.vms + [Zeroed(Vm)])
    case Template =>
      if |r.templates| >= MAX_TEMPLATES then r.(current := None)
      else r.(current := Some(Template), templates := r.templates + [Zeroed(Template)])
  }

  function Step(r: Reader, line: wstring): (r': Reader)
    requires HasCurrent(r)
    ensures HasCurrent(r')
  {
    if !r.going || r.aborted then r
    else if line == Header(Settings) then Enter(r, Settings)
    else if line == Header(Vm) then Enter(r, Vm)
    else if line == Header(Template) then Enter(r, Template)
    else if r.current.None? then r
    else
      match SetField(r.current.value, Current(r), line)
      case None => r.(aborted := true)
      case Some(rec) => WithCurrent(r, rec)
  }

  function Read(r: Reader, lines: seq<wstring>): (r': Reader)
    requires HasCurrent(r)
    ensures HasCurrent(r')
  {
    if lines == [] then r else Step(Read(r, lines[..|lines| - 1]), lines[|lines| - 1])
  }

  // ---- Round trip: one field ----

  /** A line starts with the prefix of its own key and of no other. */
  lemma OnlyPrefix(j: Key, k: Key, text: wstring)
    requires Starts(Prefix(k) + text, Prefix(j))
    ensures j == k
  {
    var a, b := Prefix(j), Prefix(k);
    var line := b + text;
    hide Prefix;
    assert forall i :: 0 <= i < |a| ==> a[i] == line[..|a|][i] == line[i];
    assert forall i :: 0 <= i < |b| ==> b[i] == line[i];
    assert line[|a| - 1] == EQUALS && line[|b| - 1] == EQUALS;
    assert |a| == |b|;
    PrefixesDiffer(j, k);
  }

  lemma {:induction false} MatchesOwnKey(k: Key, text: wstring, keys: seq<Key>)
    requires k in keys
    ensures Matching(Prefix(k) + text, keys) == Some(k)
  {
    hide Prefix;
    assert (Prefix(k) + text)[..|Prefix(k)|] == Prefix(k);
    if Starts(Prefix(k) + text, Prefix(keys[0])) {
      OnlyPrefix(keys[0], k, text);
    } else {
      MatchesOwnKey(k, text, keys[1..]);
    }
  }

  /** No field line looks like a section header, whatever its value. */
  lemma NoHeader(k: Key, text: wstring, s: Section)
    ensures Prefix(k) + text != Header(s)
  {
    assert (Prefix(k) + text)[0] == Prefix(k)[0];
    assert Header(s)[0] == '[' as int;
  }

  lemma FieldIsRead(r: Reader, k: Key, v: Value)
    requires HasCurrent(r) && r.going && !r.aborted && r.current.Some? && k in Keys(r.current.value)
    requires Storable(k, v) && Written(k, v) && Readable(k, v)
    ensures Step(r, Prefix(k) + Printed(k, v)) == WithCurrent(r, Current(r)[k := v])
  {
    hide Prefix, Printed, Stored, Storable, Written, Readable, Keys, Header, Cuts, Matching, Current, WithCurrent;
    var s := r.current.value;
    NoHeader(k, Printed(k, v), Settings);
    NoHeader(k, Printed(k, v), Vm);
    NoHeader(k, Printed(k, v), Template);
    MatchesOwnKey(k, Printed(k, v), Keys(s));
    assert (Prefix(k) + Printed(k, v))[|Prefix(k)|..] == Printed(k, v);
    FieldReadsBackIff(k, v, Cuts(s, k));
  }

  // ---- Round trip: a section ----

  lemma {:induction false} ReadAppends(r: Reader, a: seq<wstring>, b: seq<wstring>)
    requires HasCurrent(r)
    ensures Read(r, a + b) == Read(Read(r, a), b)
  {
    if b == [] {
      assert a + b == a;
    } else {
      var n := |b| - 1;
      assert (a + b)[..|a + b| - 1] == a + b[..n];
      ReadAppends(r, a, b[..n]);
    }
  }

  lemma ReadOne(r: Reader, line: wstring)
    requires HasCurrent(r)
    ensures Read(r, [line]) == Step(r, line)
  {
    assert [line][..0] == [];
    assert Read(r, []) == r;
  }

  /** The record after its first `n` fields have been read. */
  function Partly(s: Section, rec: Record, n: nat): Record
    requires IsRecord(s, rec) && n <= |Keys(s)|
  {
    map k | k in Keys(s) :: if k in Keys(s)[..n] then rec[k] else Zero(k)
  }

  lemma PartlyNext(s: Section, rec: Record, n: nat)
    requires IsRecord(s, rec) && n < |Keys(s)|
    ensures Keys(s)[n] in rec
    ensures Written(Keys(s)[n], rec[Keys(s)[n]]) ==>
              Partly(s, rec, n + 1) == Partly(s, rec, n)[Keys(s)[n] := rec[Keys(s)[n]]]
    ensures !Written(Keys(s)[n], rec[Keys(s)[n]]) ==> Partly(s, rec, n + 1) == Partly(s, rec, n)
  {
    hide Keys, Storable, Written, Zero;
    var keys, k := Keys(s), Keys(s)[n];
    assert keys[..n + 1] == keys[..n] + [k];
    assert k in Zeroed(s).Keys;
    if !Written(k, rec[k]) {
      UnwrittenIsZero(k, rec[k]);
    }
  }

  lemma PartlyEnds(s: Section, rec: Record)
    requires IsRecord(s, rec)
    ensures Partly(s, rec, 0) == Zeroed(s) && Partly(s, rec, |Keys(s)|) == rec
  {
    hide Keys, Storable, Zero;
    assert Keys(s)[..|Keys(s)|] == Keys(s);
    assert rec.Keys == Zeroed(s).Keys;
  }

  lemma WithTwice(r: Reader, a: Record, b: Record)
    requires r.current.Some? && HasCurrent(r)
    ensures Current(WithCurrent(r, a)) == a && WithCurrent(WithCurrent(r, a), b) == WithCurrent(r, b)
  {
    match r.current.value
    case Settings =>
    case Template =>
      assert r.templates[|r.templates| - 1 := a][|r.templates| - 1 := b] == r.templates[|r.templates| - 1 := b];
    case Vm =>
      assert r.vms[|r.vms| - 1 := a][|r.vms| - 1 := b] == r.vms[|r.vms| - 1 := b];
  }

  lemma {:induction false} FieldsAreRead(r: Reader, s: Section, rec: Record, n: nat)
    requires HasCurrent(r) && r.going && !r.aborted && r.current == Some(s) && Current(r) == Zeroed(s)
    requires IsRecord(s, rec) && ReadableRecord(rec) && n <= |Keys(s)|
    ensures Read(r, FieldLines(s, rec, n)) == WithCurrent(r, Partly(s, rec, n))
  {
    hide Keys, Storable, Written, Readable, Zero, Printed, Prefix, Step, Partly, Zeroed, Current, WithCurrent;
    if n == 0 {
      PartlyEnds(s, rec);
      WithSame(r);
    } else {
      FieldsAreRead(r, s, rec, n - 1);
      PartlyNext(s, rec, n - 1);
      WithTwice(r, Partly(s, rec, n - 1), Partly(s, rec, n));
      var k := Keys(s)[n - 1];
      var sofar := WithCurrent(r, Partly(s, rec, n - 1));
      ReadAppends(r, FieldLines(s, rec, n - 1), FieldLine(k, rec[k]));
      if Written(k, rec[k]) {
        KeepsGoing(r, Partly(s, rec, n - 1));
        FieldIsRead(sofar, k, rec[k]);
        ReadOne(sofar, Prefix(k) + Printed(k, rec[k]));
      }
    }
  }

  lemma WithSame(r: Reader)
    requires r.current.Some? && HasCurrent(r)
    ensures WithCurrent(r, Current(r)) == r
  {
  }

  lemma KeepsGoing(r: Reader, rec: Record)
    requires r.current.Some? && HasCurrent(r)
    ensures WithCurrent(r, rec).going == r.going && WithCurrent(r, rec).aborted == r.aborted
  {
  }

  lemma {:induction false} BlankMatchesNothing(keys: seq<Key>)
    ensures Matching([], keys) == None
  {
    hide Prefix;
    if keys != [] {
      BlankMatchesNothing(keys[1..]);
    }
  }

  lemma BlankIsSkipped(r: Reader)
    requires HasCurrent(r) && r.going && !r.aborted
    ensures Step(r, []) == r
  {
    hide Keys, Current, WithCurrent;
    if r.current.Some? {
      BlankMatchesNothing(Keys(r.current.value));
      WithSame(r);
    }
  }

  /** There is room for one more. */
  predicate Room(r: Reader, s: Section) {
    && r.going && !r.aborted
    && (s == Vm ==> |r.vms| < MAX_VMS) && (s == Template ==> |r.templates| < MAX_TEMPLATES)
    && (s == Settings ==> r.settings == Zeroed(Settings))
  }

  /** A printed block adds its record. */
  lemma BlockIsRead(r: Reader, s: Section, rec: Record)
    requires HasCurrent(r) && Room(r, s) && IsRecord(s, rec) && ReadableRecord(rec)
    ensures Read(r, Block(s, rec)) == WithCurrent(Enter(r, s), rec)
  {
    hide Keys, IsRecord, ReadableRecord, Zeroed, WithCurrent, Current, Partly, Read;
    var entered := Enter(r, s);
    EnteredHasZero(r, s);
    HeaderEnters(r, s);
    var body := FieldLines(s, rec, |Keys(s)|);
    ReadAppends(r, [Header(s)] + body, [[]]);
    ReadAppends(r, [Header(s)], body);
    ReadOne(r, Header(s));
    FieldsAreRead(entered, s, rec, |Keys(s)|);
    PartlyEnds(s, rec);
    ReadOne(WithCurrent(entered, rec), []);
    KeepsGoing(entered, rec);
    BlankIsSkipped(WithCurrent(entered, rec));
  }

  lemma EnteredHasZero(r: Reader, s: Section)
    requires HasCurrent(r) && Room(r, s)
    ensures var e := Enter(r, s);
            e.going && !e.aborted && e.current == Some(s) && Current(e) == Zeroed(s)
  {
    hide Keys, Zeroed;
  }

  lemma HeaderEnters(r: Reader, s: Section)
    requires HasCurrent(r) && r.going && !r.aborted
    ensures Step(r, Header(s)) == Enter(r, s)
  {
    hide Enter, Current, WithCurrent, Keys;
    assert Header(Settings)[1] != Header(Template)[1] && |Header(Vm)| == 4;
  }

  // ---- Round trip: the file ----

  lemma HasRoom(r: Reader, s: Section)
    requires r.going && !r.aborted
    ensures s == Template && |r.templates| < MAX_TEMPLATES ==> Room(r, s)
    ensures s == Vm && |r.vms| < MAX_VMS ==> Room(r, s)
  {
  }

  lemma TemplateAdds(r: Reader, rec: Record)
    requires HasCurrent(r) && Room(r, Template)
    ensures var e := WithCurrent(Enter(r, Template), rec);
            && e.templates == r.templates + [rec] && e.vms == r.vms && e.settings == r.settings
            && e.going && !e.aborted
  {
    hide Zeroed;
  }

  lemma VmAdds(r: Reader, rec: Record)
    requires HasCurrent(r) && Room(r, Vm)
    ensures var e := WithCurrent(Enter(r, Vm), rec);
            && e.vms == r.vms + [rec] && e.templates == r.templates && e.settings == r.settings
            && e.going && !e.aborted
  {
    hide Zeroed;
  }

  /** Taking the last record off. */
  lemma BlocksLast(s: Section, recs: seq<Record>)
    requires recs != [] && AreRecords(s, recs) && AreReadable(recs)
    ensures var n := |recs| - 1;
            && AreRecords(s, recs[..n]) && AreReadable(recs[..n]) && IsRecord(s, recs[n]) && ReadableRecord(recs[n])
            && Blocks(s, recs) == Blocks(s, recs[..n]) + Block(s, recs[n]) && recs == recs[..n] + [recs[n]]
  {
    hide IsRecord, ReadableRecord, Block;
  }

  lemma {:induction false} TemplatesAreRead(r: Reader, recs: seq<Record>)
    requires HasCurrent(r) && r.going && !r.aborted && r.templates == [] && |recs| <= MAX_TEMPLATES
    requires AreRecords(Template, recs) && AreReadable(recs)
    ensures var e := Read(r, Blocks(Template, recs));
            e.going && !e.aborted && e.templates == recs && e.vms == r.vms && e.settings == r.settings
  {
    if recs != [] {
      hide *;
      BlocksLast(Template, recs);
      var front, rec := recs[..|recs| - 1], recs[|recs| - 1];
      TemplatesAreRead(r, front);
      var before := Read(r, Blocks(Template, front));
      ReadAppends(r, Blocks(Template, front), Block(Template, rec));
      HasRoom(before, Template);
      BlockIsRead(before, Template, rec);
      TemplateAdds(before, rec);
    }
  }

  lemma {:induction false} VmsAreRead(r: Reader, recs: seq<Record>)
    requires HasCurrent(r) && r.going && !r.aborted && r.vms == [] && |recs| <= MAX_VMS
    requires AreRecords(Vm, recs) && AreReadable(recs)
    ensures var e := Read(r, Blocks(Vm, recs));
            e.going && !e.aborted && e.vms == recs && e.templates == r.templates && e.settings == r.settings
  {
    if recs != [] {
      hide *;
      BlocksLast(Vm, recs);
      var front, rec := recs[..|recs| - 1], recs[|recs| - 1];
      VmsAreRead(r, front);
      var before := Read(r, Blocks(Vm, front));
      ReadAppends(r, Blocks(Vm, front), Block(Vm, rec));
      HasRoom(before, Vm);
      BlockIsRead(before, Vm, rec);
      VmAdds(before, rec);
    }
  }

  predicate ReadableConfig(c: Config) {
    && ReadableRecord(c.settings)
    && AreReadable(c.templates) && AreReadable(Built(c.vms))
  }

  /** Reading the printed lines restores the settings, the templates and the saved VMs, in order. */
  lemma ConfigReadsBack(c: Config)
    requires IsConfig(c) && ReadableConfig(c)
    ensures var e := Read(START, SavedLines(c));
            e.settings == c.settings && e.templates == c.templates && e.vms == Built(c.vms) && !e.aborted
  {
    hide IsRecord, ReadableRecord, Read, Blocks, Built, Zeroed;
    var first, second, third := SettingsLines(c.settings), Blocks(Template, c.templates), Blocks(Vm, Built(c.vms));
    ReadAppends(START, first + second, third);
    ReadAppends(START, first, second);
    SettingsAreRead(c.settings);
    var afterSettings := Read(START, first);
    TemplatesAreRead(afterSettings, c.templates);
    VmsAreRead(Read(afterSettings, second), Built(c.vms));
  }

  lemma SettingsAreRead(rec: Record)
    requires IsRecord(Settings, rec) && ReadableRecord(rec)
    ensures var e := Read(START, SettingsLines(rec));
            e.settings == rec && e.templates == [] && e.vms == [] && e.going && !e.aborted
  {
    hide IsRecord, ReadableRecord, Zeroed, Block;
    if rec != Zeroed(Settings) {
      BlockIsRead(START, Settings, rec);
    }
  }

  // ---- Any file ----

  /** What the reader may hold, whatever it has read: no more records than the tables have room for, each complete. */
  predicate Fits(r: Reader) {
    && HasCurrent(r) && |r.templates| <= MAX_TEMPLATES && |r.vms| <= MAX_VMS
    && r.settings.Keys == Zeroed(Settings).Keys
    && (forall i :: 0 <= i < |r.templates| ==> r.templates[i].Keys == Zeroed(Template).Keys)
    && forall i :: 0 <= i < |r.vms| ==> r.vms[i].Keys == Zeroed(Vm).Keys
  }

  lemma StepFits(r: Reader, line: wstring)
    requires Fits(r)
    ensures Fits(Step(r, line))
  {
    hide Header, SetField, Enter, Current, WithCurrent;
    EnterFits(r, Settings);
    EnterFits(r, Vm);
    EnterFits(r, Template);
    if r.current.Some? {
      var field := SetField(r.current.value, Current(r), line);
      CurrentKeys(r);
      FieldKeepsKeys(r.current.value, Current(r), line);
      if field.Some? {
        WithFits(r, field.value);
      }
    }
    hide Fits;
  }

  lemma EnterFits(r: Reader, s: Section)
    requires Fits(r)
    ensures Fits(Enter(r, s))
  {
    hide Zeroed;
  }

  lemma CurrentKeys(r: Reader)
    requires Fits(r) && r.current.Some?
    ensures Current(r).Keys == Zeroed(r.current.value).Keys
  {
    hide Zeroed;
  }

  lemma WithFits(r: Reader, rec: Record)
    requires Fits(r) && r.current.Some? && rec.Keys == Zeroed(r.current.value).Keys
    ensures Fits(WithCurrent(r, rec))
  {
    hide Zeroed;
  }

  lemma FieldKeepsKeys(s: Section, rec: Record, line: wstring)
    requires rec.Keys == Zeroed(s).Keys
    ensures SetField(s, rec, line).Some? ==> SetField(s, rec, line).value.Keys == Zeroed(s).Keys
  {
    hide Keys, Zero, Stored, Cuts;
  }

  /** Any file, damaged or hand-edited: the tables are never overrun, and every record has all its fields. */
  lemma {:induction false} ReadFits(lines: seq<wstring>)
    ensures Fits(Read(START, lines))
  {
    if lines == [] {
      assert Fits(START);
    } else {
      ReadFits(lines[..|lines| - 1]);
      hide Fits, Step;
      StepFits(Read(START, lines[..|lines| - 1]), lines[|lines| - 1]);
    }
  }

  /** A line that is no header and starts with no key of its section changes nothing. */
  lemma UnknownLineIsIgnored(r: Reader, line: wstring)
    requires HasCurrent(r) && line != Header(Settings) && line != Header(Vm) && line != Header(Template)
    requires r.current.Some? ==> forall k :: k in Keys(r.current.value) ==> !Starts(line, Prefix(k))
    ensures Step(r, line) == r
  {
    hide Header, Keys, Prefix, Starts, Current, WithCurrent;
    if r.current.Some? {
      NoMatch(line, Keys(r.current.value));
      WithSame(r);
    }
  }

  lemma {:induction false} NoMatch(line: wstring, keys: seq<Key>)
    requires forall k :: k in keys ==> !Starts(line, Prefix(k))
    ensures Matching(line, keys) == None
  {
    hide Prefix, Starts;
    if keys != [] {
      NoMatch(line, keys[1..]);
    }
  }

  /** One VM too many ends the reading; one template too many is skipped up to the next header. */
  lemma TooMany(r: Reader, line: wstring)
    requires HasCurrent(r) && r.going && !r.aborted
    ensures |r.vms| == MAX_VMS ==> Step(Step(r, Header(Vm)), line) == r.(current := None, going := false)
    ensures |r.templates| == MAX_TEMPLATES ==>
              line == Header(Settings) || line == Header(Vm) || line == Header(Template)
              || Step(Step(r, Header(Template)), line) == r.(current := None)
  {
    HeaderEnters(r, Vm);
    HeaderEnters(r, Template);
    hide Header, Current, WithCurrent, Keys;
  }
}
