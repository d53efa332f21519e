/**
 The configuration on disk: the text of the file, `fgetws` reading it back line by line, and the
 save that goes through a temporary file and a rename.
 */
module ConfigDisk {
  import opened Common
  import opened ConfigFile
  import Decimal
  import VmId

  const NEWLINE: unit := 10
  const RETURN: unit := 13

  // ---- Lines and text ----

  function TextOf(lines: seq<wstring>): wstring {
    if lines == [] then [] else lines[0] + [NEWLINE] + TextOf(lines[1..])
  }

  /** What one `fgetws(line, 1024, f)` takes: up to and including a line feed, at most 1023 units. */
  function LineEnd(text: wstring, i: nat): (n: nat)
    requires i <= |text| && i < LINE
    ensures i <= n <= |text| && n < LINE && (i < |text| && i < LINE - 1 ==> i < n)
    ensures forall k :: i <= k < n - 1 ==> text[k] != NEWLINE
    ensures n == |text| || n == LINE - 1 || (n > i && text[n - 1] == NEWLINE)
    decreases |text| - i
  {
    if i == |text| || i == LINE - 1 then i else if text[i] == NEWLINE then i + 1 else LineEnd(text, i + 1)
  }

  function Strip(line: wstring): (r: wstring)
    ensures |r| <= |line| && r == line[..|r|]
    ensures forall k :: |r| <= k < |line| ==> line[k] == NEWLINE || line[k] == RETURN
    ensures r != [] ==> r[|r| - 1] != NEWLINE && r[|r| - 1] != RETURN
  {
    if line != [] && (line[|line| - 1] == NEWLINE || line[|line| - 1] == RETURN) then Strip(line[..|line| - 1])
    else line
  }

  /** The lines the reader sees. */
  function LinesOf(text: wstring): seq<wstring>
    decreases |text|
  {
    if text == [] then [] else [Strip(text[..LineEnd(text, 0)])] + LinesOf(text[LineEnd(text, 0)..])
  }

  /** A line that survives: no line ends in it, and room for its line feed and the NUL. */
  predicate LineOk(line: wstring) {
    |line| + 2 <= LINE && forall i :: 0 <= i < |line| ==> line[i] != NEWLINE && line[i] != RETURN
  }

  predicate LinesOk(lines: seq<wstring>) {
    forall i :: 0 <= i < |lines| ==> LineOk(lines[i])
  }

  lemma {:induction false} LineEndsAt(line: wstring, rest: wstring, i: nat)
    requires LineOk(line) && i <= |line|
    ensures LineEnd(line + [NEWLINE] + rest, i) == |line| + 1
    decreases |line| - i
  {
    if i < |line| {
      LineEndsAt(line, rest, i + 1);
    }
  }

  lemma Stripped(line: wstring)
    requires LineOk(line)
    ensures Strip(line + [NEWLINE]) == line
  {
    assert (line + [NEWLINE])[..|line|] == line;
    assert Strip(line) == line;
  }

  lemma {:induction false} LinesReadBack(lines: seq<wstring>)
    requires LinesOk(lines)
    ensures LinesOf(TextOf(lines)) == lines
  {
    if lines != [] {
      var line, rest := lines[0], TextOf(lines[1..]);
      var text := line + [NEWLINE] + rest;
      LinesReadBack(lines[1..]);
      LineEndsAt(line, rest, 0);
      Stripped(line);
      assert text[..|line| + 1] == line + [NEWLINE] && text[|line| + 1..] == rest;
      hide Strip, LineEnd, LineOk;
      assert LinesOf(text) == [line] + LinesOf(rest);
    }
  }

  lemma {:induction false} TextAppends(a: seq<wstring>, line: wstring)
    ensures TextOf(a + [line]) == TextOf(a) + (line + [NEWLINE])
  {
    if a == [] {
      assert [line][1..] == [] && a + [line] == [line];
    } else {
      assert (a + [line])[1..] == a[1..] + [line];
      TextAppends(a[1..], line);
    }
  }

  // ---- Printed lines are readable lines ----

  predicate Visible(s: wstring) {
    forall i :: 0 <= i < |s| ==> s[i] != NEWLINE && s[i] != RETURN
  }

  lemma {:induction false} HexVisible(id: nat, n: nat)
    ensures Visible(VmId.Hex(id, n))
  {
    if n > 0 {
      HexVisible(id / 16, n - 1);
    }
  }

  /** No value is longer than its buffer allows, and none holds a line end. */
  lemma PrintedFits(k: Key, v: Value)
    requires Storable(k, v)
    ensures Visible(Printed(k, v)) && |Printed(k, v)| <= 511
  {
    hide Decimal.Digits, Decimal.Signed, VmId.Hex, Width;
    match KindOf(k)
    case TextKind =>
    case IdKind =>
      HexVisible(v.n, 16);
    case UnsignedKind =>
      UnsignedFits(v.n);
    case SignedKind =>
      SignedFits(v.n);
    case FlagKind =>
    case IgnoredKind =>
  }

  lemma UnsignedFits(n: nat)
    requires n < 0x1_0000_0000
    ensures Visible(Decimal.Digits(n)) && |Decimal.Digits(n)| <= 10
  {
    assert Decimal.Pow10(5) == 100000;
    assert Decimal.Pow10(10) == 10000000000;
    Decimal.DigitsFit(n, 10);
  }

  lemma SignedFits(v: int)
    requires Decimal.INT_MIN <= v <= Decimal.INT_MAX
    ensures Visible(Decimal.Signed(v)) && |Decimal.Signed(v)| <= 11
  {
    UnsignedFits(if v < 0 then -v else v);
    hide Decimal.Digits;
  }

  lemma FieldLineOk(k: Key, v: Value)
    requires Storable(k, v)
    ensures LinesOk(FieldLine(k, v))
  {
    PrintedFits(k, v);
    hide Prefix, Printed, Written, Storable;
    if Written(k, v) {
      assert LineOk(Prefix(k) + Printed(k, v));
    }
  }

  lemma LinesOkPlus(a: seq<wstring>, b: seq<wstring>)
    requires LinesOk(a) && LinesOk(b)
    ensures LinesOk(a + b)
  {
    hide LineOk;
  }

  lemma {:induction false} FieldLinesOk(s: Section, rec: Record, n: nat)
    requires IsRecord(s, rec) && n <= |Keys(s)|
    ensures LinesOk(FieldLines(s, rec, n))
  {
    if n > 0 {
      hide *;
      FieldLinesOk(s, rec, n - 1);
      FieldsNext(s, rec, n - 1);
      FieldLineOk(Keys(s)[n - 1], rec[Keys(s)[n - 1]]);
      LinesOkPlus(FieldLines(s, rec, n - 1), FieldLine(Keys(s)[n - 1], rec[Keys(s)[n - 1]]));
    }
  }

  lemma BlockOk(s: Section, rec: Record)
    requires IsRecord(s, rec)
    ensures LinesOk(Block(s, rec))
  {
    hide LineOk, FieldLines, Keys, IsRecord, Header, KeyName, Printed, Storable;
    FieldLinesOk(s, rec, |Keys(s)|);
    HeaderOk(s);
  }

  lemma HeaderOk(s: Section)
    ensures LineOk(Header(s)) && LineOk([])
  {
  }

  lemma {:induction false} BlocksOk(s: Section, recs: seq<Record>)
    requires AreRecords(s, recs)
    ensures LinesOk(Blocks(s, recs))
  {
    hide LineOk, Block, IsRecord;
    if recs != [] {
      BlocksOk(s, recs[..|recs| - 1]);
      BlockOk(s, recs[|recs| - 1]);
    }
  }

  /** Every line that is saved fits the reader's buffer. */
  lemma SavedLinesFit(c: Config)
    requires IsConfig(c)
    ensures LinesOk(SavedLines(c))
  {
    hide LineOk, Block, Blocks, Zeroed, IsRecord, Built;
    BlocksOk(Template, c.templates);
    BlocksOk(Vm, Built(c.vms));
    if c.settings != Zeroed(Settings) { BlockOk(Settings, c.settings); }
  }

  /** What the reader makes of a file. */
  function Loaded(text: wstring): Reader {
    Read(START, LinesOf(text))
  }

  /** Loading the saved file restores the settings, the templates and the saved VMs. */
  lemma FileReadsBack(c: Config)
    requires IsConfig(c) && ReadableConfig(c)
    ensures var e := Loaded(TextOf(SavedLines(c)));
            e.settings == c.settings && e.templates == c.templates && e.vms == Built(c.vms) && !e.aborted
  {
    SavedLinesFit(c);
    LinesReadBack(SavedLines(c));
    ConfigReadsBack(c);
  }

  // ---- Loading ----

  /** `fgetws`: the end of the line that starts at `pos`. */
  method NextLine(text: wstring, pos: nat) returns (end: nat)
    requires pos < |text|
    ensures pos < end <= |text| && end == pos + LineEnd(text[pos..], 0)
  {
    end := pos;
    while end < |text| && end - pos < LINE - 1
      invariant pos <= end <= |text| && end - pos < LINE
      invariant LineEnd(text[pos..], 0) == LineEnd(text[pos..], end - pos)
    {
      end := end + 1;
      if text[end - 1] == NEWLINE { return; }
    }
  }

  method TrimEnd(line: wstring) returns (r: wstring)
    ensures r == Strip(line)
  {
    var len := |line|;
    assert line[..len] == line;
    while len > 0 && (line[len - 1] == NEWLINE || line[len - 1] == RETURN)
      invariant 0 <= len <= |line| && Strip(line[..len]) == Strip(line)
    {
      assert line[..len][..len - 1] == line[..len - 1];
      len := len - 1;
    }
    return line[..len];
  }

  lemma LinesNext(text: wstring, pos: nat, end: nat)
    requires pos < |text| && pos < end <= |text| && end == pos + LineEnd(text[pos..], 0)
    ensures LinesOf(text[pos..]) == [Strip(text[pos..end])] + LinesOf(text[end..])
  {
    assert text[pos..][..end - pos] == text[pos..end] && text[pos..][end - pos..] == text[end..];
    hide Strip, LineEnd;
  }

  lemma ReadFirst(r: Reader, line: wstring, rest: seq<wstring>)
    requires HasCurrent(r)
    ensures Read(r, [line] + rest) == Read(Step(r, line), rest)
  {
    ReadAppends(r, [line], rest);
    ReadOne(r, line);
  }

  lemma {:induction false} ReadEnded(r: Reader, lines: seq<wstring>)
    requires HasCurrent(r) && (!r.going || r.aborted)
    ensures Read(r, lines) == r
  {
    if lines != [] {
      ReadEnded(r, lines[..|lines| - 1]);
    }
  }

  /** The reading loop of `load_vm_list` over a whole file. */
  method Load(text: wstring) returns (r: Reader)
    ensures r == Loaded(text)
  {
    hide LineEnd, Strip, LinesOf, Step, Read, Zeroed;
    r := START;
    var pos := 0;
    assert text[0..] == text;
    while pos < |text|
      invariant 0 <= pos <= |text| && HasCurrent(r) && Read(r, LinesOf(text[pos..])) == Loaded(text)
    {
      var end := NextLine(text, pos);
      var line := TrimEnd(text[pos..end]);
      LinesNext(text, pos, end);
      ReadFirst(r, line, LinesOf(text[end..]));
      r := Step(r, line);
      pos := end;
      if !r.going || r.aborted {
        ReadEnded(r, LinesOf(text[pos..]));
        return;
      }
    }
    NothingLeft(r, text[pos..]);
  }

  lemma NothingLeft(r: Reader, text: wstring)
    requires HasCurrent(r) && text == []
    ensures Read(r, LinesOf(text)) == r
  {
  }

  // ---- Saving ----

  /** The configuration file and the temporary file beside it. */
  class Disk {
    var config: Option<wstring>
    var temp: Option<wstring>
    /** The stream's sticky error flag. */
    var error: bool
    /** Lines written to the stream so far. */
    ghost var lines: seq<wstring>
    /** What a crash right now would leave as the configuration, after each operation so far. */
    var left: seq<Option<wstring>>

    constructor (config: Option<wstring>)
      ensures this.config == config && temp == None && left == []
    {
      this.config, temp, error, lines, left := config, None, false, [], [];
    }

    /** The stream holds what was written, unless an error was flagged. */
    ghost predicate Streaming()
      reads this
    {
      temp.Some? && (!error ==> temp == Some(TextOf(lines)))
    }

    /** `GetTempFileNameW`, which creates an empty file. */
    method CreateTemp(ok: bool)
      modifies this
      ensures config == old(config) && left == old(left) + [config]
      ensures temp == if ok then Some([]) else None
    {
      temp, error, lines := if ok then Some([]) else None, false, [];
      left := left + [config];
    }

    /** `_wfopen_s`. */
    method Open(ok: bool) returns (isOpen: bool)
      requires temp.Some?
      modifies `temp, `error, `lines, `left
      ensures left == old(left) + [config] && isOpen == ok && temp.Some?
      ensures isOpen ==> Streaming() && lines == [] && !error
    {
      if ok { temp, error, lines := Some([]), false, []; }
      left := left + [config];
      isOpen := ok;
    }

    /** `fflush`, `_commit` or `fclose`: they only report. */
    method Finish(ok: bool) returns (done: bool)
      modifies `left
      ensures left == old(left) + [config] && done == ok
    {
      left := left + [config];
      done := ok;
    }

    /** `fwprintf` of one line; one that fails leaves the flag set. */
    method Print(line: wstring, ok: bool)
      requires Streaming()
      modifies `temp, `error, `lines, `left
      ensures Streaming() && lines == old(lines) + [line] && left == old(left) + [config]
      ensures error == (old(error) || !ok)
    {
      hide TextOf;
      TextAppends(lines, line);
      if ok { temp := Some(temp.value + (line + [NEWLINE])); } else { error := true; }
      lines := lines + [line];
      left := left + [config];
    }

    method DeleteTemp(ok: bool)
      modifies `temp, `left
      ensures temp == (if ok then None else old(temp)) && left == old(left) + [config]
    {
      if ok { temp := None; }
      left := left + [config];
    }

    /** The rename replaces the file in one step. */
    method Replace(ok: bool)
      requires temp.Some?
      modifies `config, `temp, `left
      ensures left == old(left) + [config]
      ensures if ok then config == old(temp) && temp == None else config == old(config) && temp == old(temp)
    {
      if ok { config, temp := temp, None; }
      left := left + [config];
    }

    method PrintBlock(s: Section, rec: Record, ok: nat -> bool)
      requires Streaming() && IsRecord(s, rec)
      modifies `temp, `error, `lines, `left
      ensures Streaming() && lines == old(lines) + Block(s, rec)
      ensures OnlyLeft(old(left), left, config) && error == (old(error) || !AllOk(ok, |old(left)|, |left|))
    {
      hide *;
      ghost var before := left;
      AllOkStart(ok, |left|);
      Print(Header(s), ok(|left|));
      LeftOne(before, config);
      AllOkNext(ok, |before|, |before|);
      ghost var start := lines;
      var keys := Keys(s);
      NoFields(s, rec);
      for i := 0 to |keys|
        invariant Streaming() && lines == start + FieldLines(s, rec, i)
        invariant OnlyLeft(before, left, config) && |before| <= |left|
        invariant error == (old(error) || !AllOk(ok, |before|, |left|))
      {
        var k := keys[i];
        FieldsNext(s, rec, i);
        FieldLineIs(k, rec[k]);
        if Written(k, rec[k]) {
          LeftMore(before, left, config);
          AllOkNext(ok, |before|, |left|);
          Print(Prefix(k) + Printed(k, rec[k]), ok(|left|));
        }
      }
      LeftMore(before, left, config);
      AllOkNext(ok, |before|, |left|);
      Print([], ok(|left|));
      BlockIs(s, rec, old(lines));
    }

    /**
     `save_vm_list`; `ok(i)` is whether operation `i` on the disk succeeds. Whatever fails, and wherever the machine
     stops, the configuration is the old file or the complete new one; it becomes the new one exactly when every
     operation succeeds, which is what the save reports.
     */
    method Save(c: Config, loadFailed: bool, ok: nat -> bool) returns (saved: bool)
      requires IsConfig(c)
      modifies this
      ensures saved ==> config == Some(TextOf(SavedLines(c))) && temp == None
      ensures |old(left)| <= |left| && left[..|old(left)|] == old(left)
      ensures forall i :: |old(left)| <= i < |left| ==> left[i] == old(config) || left[i] == Some(TextOf(SavedLines(c)))
      ensures loadFailed ==> !saved && left == old(left)
      ensures !loadFailed ==> |left| > |old(left)|
      ensures !saved ==> config == old(config) && (loadFailed || temp == None || !ok(|left| - 1))
      ensures !loadFailed ==> (saved <==> AllOk(ok, |old(left)|, |left|))
    {
      hide SavedLines, IsConfig, TextOf, OnlyLeft;
      if loadFailed { return false; }
      CreateTemp(ok(|left|));
      if temp.None? { return false; }
      var isOpen := Open(ok(|left|));
      if !isOpen {
        DeleteTemp(ok(|left|));
        return false;
      }
      ghost var before := left;
      PrintAll(c, ok);
      OnlyLeftMeans(before, left, config);
      ghost var printed := left;
      saved := Publish(ok);
      AllOkThen(ok, |before|, |printed|, |left|);
      AllOkThen(ok, |old(left)|, |before|, |left|);
    }

    /** The end of the save: flush, commit, close, rename; anything else deletes the temporary file. */
    method Publish(ok: nat -> bool) returns (saved: bool)
      requires Streaming()
      modifies this
      ensures |left| > |old(left)| && left[..|old(left)|] == old(left)
      ensures forall i :: |old(left)| <= i < |left| ==>
                left[i] == old(config) || (saved && left[i] == Some(TextOf(old(lines))))
      ensures saved ==> config == Some(TextOf(old(lines))) && temp == None
      ensures !saved ==> config == old(config) && (temp == None || !ok(|left| - 1))
      ensures saved <==> !old(error) && AllOk(ok, |old(left)|, |left|)
    {
      hide TextOf;
      var whole := !error;
      if whole { whole := Finish(ok(|left|)); }
      if whole { whole := Finish(ok(|left|)); }
      var closed := Finish(ok(|left|));
      if !closed { whole := false; }
      if whole {
        Replace(ok(|left|));
        if temp.None? { return true; }
      }
      DeleteTemp(ok(|left|));
      return false;
    }

    method PrintTemplates(recs: seq<Record>, ok: nat -> bool)
      requires AreRecords(Template, recs) && Streaming()
      modifies `temp, `error, `lines, `left
      ensures Streaming() && lines == old(lines) + Blocks(Template, recs)
      ensures OnlyLeft(old(left), left, config) && error == (old(error) || !AllOk(ok, |old(left)|, |left|))
    {
      hide *;
      LeftNothing(left, config);
      AllOkStart(ok, |left|);
      NoBlocks(Template);
      for i := 0 to |recs|
        invariant Streaming() && OnlyLeft(old(left), left, config)
        invariant |old(left)| <= |left| && error == (old(error) || !AllOk(ok, |old(left)|, |left|))
        invariant AreRecords(Template, recs[..i]) && lines == old(lines) + Blocks(Template, recs[..i])
      {
        BlocksNext(Template, recs, i);
        ghost var middle, sofar := left, lines;
        PrintBlock(Template, recs[i], ok);
        LeftThen(old(left), middle, left, config);
        AllOkThen(ok, |old(left)|, |middle|, |left|);
      }
      assert recs[..|recs|] == recs;
    }

    method PrintVms(vms: seq<TableVm>, ok: nat -> bool)
      requires AreRecords(Vm, Built(vms)) && Streaming()
      modifies `temp, `error, `lines, `left
      ensures Streaming() && lines == old(lines) + Blocks(Vm, Built(vms))
      ensures OnlyLeft(old(left), left, config) && error == (old(error) || !AllOk(ok, |old(left)|, |left|))
    {
      hide *;
      LeftNothing(left, config);
      AllOkStart(ok, |left|);
      NoBlocks(Vm);
      NoneBuilt();
      for i := 0 to |vms|
        invariant Streaming() && OnlyLeft(old(left), left, config)
        invariant |old(left)| <= |left| && error == (old(error) || !AllOk(ok, |old(left)|, |left|))
        invariant AreRecords(Vm, Built(vms[..i])) && lines == old(lines) + Blocks(Vm, Built(vms[..i]))
      {
        BuiltNext(vms, i);
        if vms[i].building { continue; }
        ghost var middle := left;
        PrintBlock(Vm, vms[i].rec, ok);
        LeftThen(old(left), middle, left, config);
        AllOkThen(ok, |old(left)|, |middle|, |left|);
      }
      assert vms[..|vms|] == vms;
    }

    method PrintAll(c: Config, ok: nat -> bool)
      requires IsConfig(c) && Streaming() && lines == []
      modifies `temp, `error, `lines, `left
      ensures Streaming() && lines == SavedLines(c)
      ensures OnlyLeft(old(left), left, config) && error == (old(error) || !AllOk(ok, |old(left)|, |left|))
    {
      hide TextOf, Block, Blocks, Built, IsRecord, AreRecords, Zeroed, Streaming, OnlyLeft, AllOk;
      LeftNothing(left, config);
      AllOkStart(ok, |left|);
      if c.settings != Zeroed(Settings) {
        PrintBlock(Settings, c.settings, ok);
      }
      assert lines == SettingsLines(c.settings);
      ghost var middle := left;
      PrintTemplates(c.templates, ok);
      LeftThen(old(left), middle, left, config);
      AllOkThen(ok, |old(left)|, |middle|, |left|);
      middle := left;
      PrintVms(c.vms, ok);
      LeftThen(old(left), middle, left, config);
      AllOkThen(ok, |old(left)|, |middle|, |left|);
    }
  }

  // ---- Steps of the printing loops ----

  lemma NoFields(s: Section, rec: Record)
    requires IsRecord(s, rec)
    ensures FieldLines(s, rec, 0) == []
  {
  }

  lemma FieldsNext(s: Section, rec: Record, i: nat)
    requires IsRecord(s, rec) && i < |Keys(s)|
    ensures var k := Keys(s)[i];
            && k in rec && Storable(k, rec[k])
            && FieldLines(s, rec, i + 1)
               == FieldLines(s, rec, i) + FieldLine(k, rec[k])
  {
    hide Keys, Storable, Written, Prefix, Printed;
    assert Keys(s)[i] in Zeroed(s).Keys;
  }

  lemma FieldLineIs(k: Key, v: Value)
    requires Storable(k, v)
    ensures Written(k, v) ==> FieldLine(k, v) == [Prefix(k) + Printed(k, v)]
    ensures !Written(k, v) ==> FieldLine(k, v) == []
  {
    hide Written, Prefix, Printed, Storable;
  }

  lemma BlockIs(s: Section, rec: Record, before: seq<wstring>)
    requires IsRecord(s, rec)
    ensures before + [Header(s)] + FieldLines(s, rec, |Keys(s)|) + [[]] == before + Block(s, rec)
  {
    hide IsRecord, FieldLines, Keys, Header;
  }

  lemma NoBlocks(s: Section)
    ensures AreRecords(s, []) && Blocks(s, []) == []
  {
  }

  lemma NoneBuilt()
    ensures Built([]) == []
  {
  }

  lemma BlocksNext(s: Section, recs: seq<Record>, i: nat)
    requires AreRecords(s, recs) && i < |recs|
    ensures IsRecord(s, recs[i]) && AreRecords(s, recs[..i]) && AreRecords(s, recs[..i + 1])
    ensures Blocks(s, recs[..i + 1]) == Blocks(s, recs[..i]) + Block(s, recs[i])
  {
    hide IsRecord, Block;
    assert recs[..i + 1][..i] == recs[..i];
  }

  lemma BuiltNext(vms: seq<TableVm>, i: nat)
    requires i < |vms| && AreRecords(Vm, Built(vms)) && AreRecords(Vm, Built(vms[..i]))
    ensures AreRecords(Vm, Built(vms[..i + 1]))
    ensures vms[i].building ==> Built(vms[..i + 1]) == Built(vms[..i])
    ensures !vms[i].building ==>
              && IsRecord(Vm, vms[i].rec)
              && Blocks(Vm, Built(vms[..i + 1])) == Blocks(Vm, Built(vms[..i])) + Block(Vm, vms[i].rec)
  {
    hide *;
    BuiltSnoc(vms, i);
    if !vms[i].building {
      BuiltHere(vms, i);
      BlocksPlus(Built(vms[..i]), vms[i].rec);
    }
  }

  lemma BuiltSnoc(vms: seq<TableVm>, i: nat)
    requires i < |vms|
    ensures Built(vms[..i + 1]) == if vms[i].building then Built(vms[..i]) else Built(vms[..i]) + [vms[i].rec]
  {
    assert vms[..i + 1][..i] == vms[..i];
  }

  lemma BlocksPlus(front: seq<Record>, rec: Record)
    requires AreRecords(Vm, front) && IsRecord(Vm, rec)
    ensures AreRecords(Vm, front + [rec]) && Blocks(Vm, front + [rec]) == Blocks(Vm, front) + Block(Vm, rec)
  {
    hide IsRecord, Block;
    assert (front + [rec])[..|front|] == front;
  }

  /** The operations from number `lo` on, up to number `hi`, succeed. */
  predicate AllOk(ok: nat -> bool, lo: nat, hi: nat) {
    forall i: nat | lo <= i < hi :: ok(i)
  }

  lemma AllOkStart(ok: nat -> bool, at: nat)
    ensures AllOk(ok, at, at)
  {
  }

  lemma AllOkNext(ok: nat -> bool, lo: nat, hi: nat)
    requires lo <= hi
    ensures AllOk(ok, lo, hi + 1) <==> AllOk(ok, lo, hi) && ok(hi)
  {
  }

  lemma AllOkThen(ok: nat -> bool, lo: nat, mid: nat, hi: nat)
    requires lo <= mid <= hi
    ensures AllOk(ok, lo, hi) <==> AllOk(ok, lo, mid) && AllOk(ok, mid, hi)
  {
  }

  /** Every operation in between left the same configuration. */
  ghost predicate OnlyLeft(before: seq<Option<wstring>>, after: seq<Option<wstring>>, config: Option<wstring>) {
    && |before| <= |after| && after[..|before|] == before
    && forall i :: |before| <= i < |after| ==> after[i] == config
  }

  lemma OnlyLeftMeans(before: seq<Option<wstring>>, after: seq<Option<wstring>>, config: Option<wstring>)
    requires OnlyLeft(before, after, config)
    ensures |before| <= |after| && after[..|before|] == before
    ensures forall i :: |before| <= i < |after| ==> after[i] == config
  {
  }

  lemma LeftNothing(left: seq<Option<wstring>>, config: Option<wstring>)
    ensures OnlyLeft(left, left, config)
  {
  }

  lemma LeftOne(before: seq<Option<wstring>>, config: Option<wstring>)
    ensures OnlyLeft(before, before + [config], config)
  {
  }

  lemma LeftMore(before: seq<Option<wstring>>, after: seq<Option<wstring>>, config: Option<wstring>)
    requires OnlyLeft(before, after, config)
    ensures OnlyLeft(before, after + [config], config)
  {
  }

  lemma LeftThen(before: seq<Option<wstring>>, middle: seq<Option<wstring>>, after: seq<Option<wstring>>,
                 config: Option<wstring>)
    requires OnlyLeft(before, middle, config) && OnlyLeft(middle, after, config)
    ensures OnlyLeft(before, after, config) && |before| <= |middle| <= |after|
  {
    forall i | |before| <= i < |after|
      ensures after[i] == config
    {
      if i < |middle| { assert after[..|middle|][i] == after[i]; }
    }
  }

  lemma {:induction false} BuiltHere(vms: seq<TableVm>, i: nat)
    requires i < |vms| && !vms[i].building && AreRecords(Vm, Built(vms))
    ensures IsRecord(Vm, vms[i].rec)
  {
    hide IsRecord;
    var n := |vms| - 1;
    if i < n {
      assert forall j :: 0 <= j < |Built(vms[..n])| ==> Built(vms)[j] == Built(vms[..n])[j];
      BuiltHere(vms[..n], i);
    } else {
      assert Built(vms)[|Built(vms)| - 1] == vms[i].rec;
    }
  }
}
