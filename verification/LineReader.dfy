/**
 Reader of the output of `iso-patch.exe`: the pipe loop that appears in
 `vhdx_create_thread` and again in `run_iso_patch_ubuntu`.

 The specification knows nothing of buffers or reads: `Lines` are the non-empty
 terminated segments of a byte stream (`LinesOfSegment`, `LinesOfUnterminated`), and
 `StopAt` is the first position at which an unterminated run is as long as the buffer
 can hold.
 */
module LineReader {
  import opened Common

  const CAPACITY: nat := 4096
  const LONGEST_RUN: nat := CAPACITY - 1

  predicate IsTerminator(b: byte) {
    b == 10 || b == 13
  }

  // ---- Lines of a stream ----

  /** The bytes after the last terminator. */
  function Rest(data: seq<byte>): (r: seq<byte>)
    ensures |r| <= |data|
  {
    if data == [] || IsTerminator(data[|data| - 1]) then [] else Rest(data[..|data| - 1]) + [data[|data| - 1]]
  }

  /** The non-empty segments that a CR or LF closes, in order. */
  function Lines(data: seq<byte>): seq<seq<byte>> {
    if data == [] then []
    else
      var before := data[..|data| - 1];
      if IsTerminator(data[|data| - 1]) && Rest(before) != [] then Lines(before) + [Rest(before)]
      else Lines(before)
  }

  /** How one more byte changes the lines and the unterminated rest. */
  lemma OneMoreByte(data: seq<byte>, b: byte)
    ensures !IsTerminator(b) ==> Lines(data + [b]) == Lines(data) && Rest(data + [b]) == Rest(data) + [b]
    ensures IsTerminator(b) ==>
              && Lines(data + [b]) == Lines(data) + (if Rest(data) == [] then [] else [Rest(data)])
              && Rest(data + [b]) == []
  {
    assert (data + [b])[..|data|] == data;
  }

  /** A stream that ends with a terminator does not affect what follows. */
  lemma {:induction false} Join(done: seq<byte>, more: seq<byte>)
    requires Rest(done) == []
    ensures Lines(done + more) == Lines(done) + Lines(more) && Rest(done + more) == Rest(more)
  {
    if more == [] {
      assert done + more == done;
    } else {
      var init, b := more[..|more| - 1], more[|more| - 1];
      Join(done, init);
      OneMoreByte(done + init, b);
      assert done + more == (done + init) + [b];
    }
  }

  lemma {:induction false} LinesOfUnterminated(segment: seq<byte>)
    requires forall i :: 0 <= i < |segment| ==> !IsTerminator(segment[i])
    ensures Lines(segment) == [] && Rest(segment) == segment
  {
    if segment != [] {
      LinesOfUnterminated(segment[..|segment| - 1]);
    }
  }

  /** The lines of a stream are its leading segment, unless that is empty, and the lines after its terminator. */
  lemma LinesOfSegment(segment: seq<byte>, t: byte, more: seq<byte>)
    requires forall i :: 0 <= i < |segment| ==> !IsTerminator(segment[i])
    requires IsTerminator(t)
    ensures Lines(segment + [t] + more) == (if segment == [] then [] else [segment]) + Lines(more)
    ensures Rest(segment + [t] + more) == Rest(more)
  {
    LinesOfUnterminated(segment);
    OneMoreByte(segment, t);
    Join(segment + [t], more);
  }

  /** Cutting off the unterminated rest leaves a stream that ends with a terminator. */
  lemma {:induction false} CutRest(data: seq<byte>)
    ensures var n := |data| - |Rest(data)|;
            Rest(data) == data[n..] && Rest(data[..n]) == [] && Lines(data[..n]) == Lines(data)
  {
    if data == [] {
    } else if IsTerminator(data[|data| - 1]) {
      assert data[..|data|] == data;
    } else {
      var before := data[..|data| - 1];
      CutRest(before);
      assert data[..|data| - |Rest(data)|] == before[..|before| - |Rest(before)|];
    }
  }

  // ---- Where the reader stops ----

  function StopFrom(data: seq<byte>, k: nat): (n: nat)
    requires k <= |data|
    ensures k <= n <= |data|
    ensures forall j :: k <= j < n ==> |Rest(data[..j])| < LONGEST_RUN
    ensures n < |data| ==> |Rest(data[..n])| >= LONGEST_RUN
    decreases |data| - k
  {
    if k == |data| || |Rest(data[..k])| >= LONGEST_RUN then k else StopFrom(data, k + 1)
  }

  /** The whole stream, unless an unterminated run fills the buffer first. */
  function StopAt(data: seq<byte>): (n: nat)
    ensures n <= |data|
  {
    StopFrom(data, 0)
  }

  lemma StopAtIs(data: seq<byte>, n: nat)
    requires n <= |data|
    requires forall j :: 0 <= j < n ==> |Rest(data[..j])| < LONGEST_RUN
    requires n < |data| ==> |Rest(data[..n])| >= LONGEST_RUN
    ensures StopAt(data) == n
  {
  }

  /** Nothing of the stream is lost exactly when no unterminated run of 4095 bytes has a byte after it. */
  lemma ReadsEverythingIff(data: seq<byte>)
    ensures StopAt(data) == |data| <==> forall k :: 0 <= k < |data| ==> |Rest(data[..k])| < LONGEST_RUN
  {
    if forall k :: 0 <= k < |data| ==> |Rest(data[..k])| < LONGEST_RUN {
      StopAtIs(data, |data|);
    }
  }

  /** A run of 4096 bytes or more without a terminator ends the loop, whatever comes after it. */
  lemma LongRunStops(segment: seq<byte>, more: seq<byte>)
    requires |segment| > LONGEST_RUN && forall i :: 0 <= i < |segment| ==> !IsTerminator(segment[i])
    ensures StopAt(segment + more) == LONGEST_RUN
    ensures Lines((segment + more)[..LONGEST_RUN]) == []
  {
    var data := segment + more;
    forall j | 0 <= j <= LONGEST_RUN
      ensures Rest(data[..j]) == data[..j] && Lines(data[..j]) == []
    {
      assert data[..j] == segment[..j];
      LinesOfUnterminated(segment[..j]);
    }
    StopAtIs(data, LONGEST_RUN);
  }

  lemma NothingRead()
    ensures Lines([]) == []
  {
  }

  /** For one, a DONE line behind such a run is not read. */
  lemma DoneBehindLongRunIsLost() returns (data: seq<byte>)
    ensures |Lines(data)| == 2 && IsDone(Lines(data)[1]) && Lines(data[..StopAt(data)]) == []
  {
    var run: seq<byte> := seq(LONGEST_RUN + 1, i => 65);
    var done := Bytes("DONE:");
    data := run + ([10] + done + [10]);
    LongRunStops(run, [10] + done + [10]);
    assert run + [10] + (done + [10]) == data;
    TwoLines(run, done);
  }

  // ---- What the lines mean ----

  /** ASCII text as bytes. */
  function Bytes(s: string): (r: seq<byte>)
    requires forall i :: 0 <= i < |s| ==> s[i] as int < 0x80
    ensures |r| == |s| && forall i :: 0 <= i < |s| ==> r[i] == s[i] as int
  {
    seq(|s|, i requires 0 <= i < |s| => s[i] as int)
  }

  function CString(s: seq<byte>): seq<byte> {
    if s == [] || s[0] == 0 then [] else [s[0]] + CString(s[1..])
  }

  /** It ends before the first NUL, or at the end of the bytes. */
  lemma {:induction false} CStringMeans(s: seq<byte>)
    ensures var n := |CString(s)|;
            && n <= |s| && CString(s) == s[..n] && (n == |s| || s[n] == 0)
            && forall i :: 0 <= i < n ==> s[i] != 0
  {
    if s != [] && s[0] != 0 {
      CStringMeans(s[1..]);
    }
  }

  predicate StartsWith(line: seq<byte>, prefix: string)
    requires forall i :: 0 <= i < |prefix| ==> prefix[i] as int < 0x80
  {
    |prefix| <= |line| && forall i :: 0 <= i < |prefix| ==> line[i] == prefix[i] as int
  }

  predicate IsError(line: seq<byte>) {
    StartsWith(line, "ERROR:")
  }

  predicate IsDone(line: seq<byte>) {
    StartsWith(line, "DONE:")
  }

  /** Text of an ERROR line, `convert` being the ANSI-to-UTF-16 conversion. */
  function ErrorText(line: seq<byte>, convert: seq<byte> -> seq<wchar>): seq<wchar>
    requires IsError(line)
  {
    convert(CString(line[6..]))
  }

  /** Some DONE line has no ERROR line after it. */
  ghost predicate EndsInDone(lines: seq<seq<byte>>) {
    exists i :: 0 <= i < |lines| && IsDone(lines[i]) && forall j :: i < j < |lines| ==> !IsError(lines[j])
  }

  predicate Speaks(line: seq<byte>, convert: seq<byte> -> seq<wchar>) {
    IsError(line) && ErrorText(line, convert) != []
  }

  /** `message` is the text of the first ERROR line whose text is not empty; empty when there is none. */
  ghost predicate IsFirstErrorText(lines: seq<seq<byte>>, convert: seq<byte> -> seq<wchar>, message: seq<wchar>) {
    if message == [] then forall i :: 0 <= i < |lines| ==> !Speaks(lines[i], convert)
    else exists i :: 0 <= i < |lines| && Speaks(lines[i], convert) && message == ErrorText(lines[i], convert)
                     && forall j :: 0 <= j < i ==> !Speaks(lines[j], convert)
  }

  lemma ErrorIsNotDone(line: seq<byte>)
    requires IsError(line)
    ensures !IsDone(line)
  {
    assert line[0] == "ERROR:"[0] as int != "DONE:"[0] as int;
  }

  lemma OneMoreVerdict(lines: seq<seq<byte>>, line: seq<byte>)
    ensures EndsInDone(lines + [line]) <==> IsDone(line) || (!IsError(line) && EndsInDone(lines))
  {
    var longer := lines + [line];
    if IsError(line) { ErrorIsNotDone(line); }
    assert longer[|lines|] == line;
    if EndsInDone(longer) && !IsDone(line) {
      var i :| 0 <= i < |longer| && IsDone(longer[i]) && forall j :: i < j < |longer| ==> !IsError(longer[j]);
      assert IsDone(lines[i]);
      assert forall j :: i < j < |lines| ==> lines[j] == longer[j];
    }
    if !IsError(line) && EndsInDone(lines) {
      var i :| 0 <= i < |lines| && IsDone(lines[i]) && forall j :: i < j < |lines| ==> !IsError(lines[j]);
      assert IsDone(longer[i]);
    }
  }

  lemma OneMoreText(lines: seq<seq<byte>>, line: seq<byte>, convert: seq<byte> -> seq<wchar>, message: seq<wchar>)
    requires IsFirstErrorText(lines, convert, message)
    ensures IsFirstErrorText(lines + [line], convert,
              if message == [] && IsError(line) then ErrorText(line, convert) else message)
  {
    var longer := lines + [line];
    assert longer[|lines|] == line;
    assert forall j :: 0 <= j < |lines| ==> longer[j] == lines[j];
    if message != [] {
      var i :| 0 <= i < |lines| && Speaks(lines[i], convert) && message == ErrorText(lines[i], convert)
               && forall j :: 0 <= j < i ==> !Speaks(lines[j], convert);
      assert Speaks(longer[i], convert);
    } else if Speaks(line, convert) {
      assert Speaks(longer[|lines|], convert);
    }
  }

  // ---- The loop ----

  /** `args->result == S_OK` and `args->error_msg`. */
  datatype Outcome = Outcome(ok: bool, message: seq<wchar>)

  const NOTHING_YET := Outcome(false, [])

  /** The branches of the loop body on one non-empty line. */
  function Report(o: Outcome, line: seq<byte>, convert: seq<byte> -> seq<wchar>): Outcome {
    if StartsWith(line, "ERROR:") then
      Outcome(false, if o.message == [] then convert(CString(line[6..])) else o.message)
    else if StartsWith(line, "DONE:") then o.(ok := true)
    else o
  }

  function ReportAll(lines: seq<seq<byte>>, convert: seq<byte> -> seq<wchar>): Outcome {
    if lines == [] then NOTHING_YET
    else Report(ReportAll(lines[..|lines| - 1], convert), lines[|lines| - 1], convert)
  }

  /** Success means the last DONE/ERROR line is DONE; the message is the first one that says something. */
  lemma {:induction false} ReportMeans(lines: seq<seq<byte>>, convert: seq<byte> -> seq<wchar>)
    ensures ReportAll(lines, convert).ok <==> EndsInDone(lines)
    ensures IsFirstErrorText(lines, convert, ReportAll(lines, convert).message)
  {
    hide ReportAll, IsError, IsDone, ErrorText, Report;
    if lines == [] {
      Empty(convert);
    } else {
      var before, line := lines[..|lines| - 1], lines[|lines| - 1];
      hide EndsInDone, IsFirstErrorText;
      ReportMeans(before, convert);
      OneMoreReport(before, line, convert);
      ReportIs(ReportAll(before, convert), line, convert);
      OneMoreVerdict(before, line);
      OneMoreText(before, line, convert, ReportAll(before, convert).message);
      assert before + [line] == lines;
    }
  }

  lemma ReportIs(o: Outcome, line: seq<byte>, convert: seq<byte> -> seq<wchar>)
    ensures Report(o, line, convert).ok <==> IsDone(line) || (!IsError(line) && o.ok)
    ensures Report(o, line, convert).message
            == if o.message == [] && IsError(line) then ErrorText(line, convert) else o.message
  {
    if IsError(line) { ErrorIsNotDone(line); }
  }

  /**
   The message is the text of the first ERROR line exactly when that line has a text or no later ERROR line has one
   either.
   */
  lemma MessageIsFirstErrorIff(lines: seq<seq<byte>>, convert: seq<byte> -> seq<wchar>, first: nat)
    requires first < |lines| && IsError(lines[first]) && forall i :: 0 <= i < first ==> !IsError(lines[i])
    ensures ReportAll(lines, convert).message == ErrorText(lines[first], convert)
            <==> Speaks(lines[first], convert) || forall i :: first < i < |lines| ==> !Speaks(lines[i], convert)
  {
    hide *;
    ReportMeans(lines, convert);
    FirstErrorText(lines, convert, first, ReportAll(lines, convert).message);
  }

  lemma FirstErrorText(lines: seq<seq<byte>>, convert: seq<byte> -> seq<wchar>, first: nat, message: seq<wchar>)
    requires first < |lines| && IsError(lines[first]) && forall i :: 0 <= i < first ==> !IsError(lines[i])
    requires IsFirstErrorText(lines, convert, message)
    ensures message == ErrorText(lines[first], convert)
            <==> Speaks(lines[first], convert) || forall i :: first < i < |lines| ==> !Speaks(lines[i], convert)
  {
    hide ErrorText, IsError, StartsWith;
    forall i | 0 <= i < first
      ensures !Speaks(lines[i], convert)
    {
    }
    if message != [] {
      var i :| 0 <= i < |lines| && Speaks(lines[i], convert) && message == ErrorText(lines[i], convert)
               && forall j :: 0 <= j < i ==> !Speaks(lines[j], convert);
      assert i >= first;
    }
  }

  /** An ERROR line without a text is passed over. */
  lemma EmptyErrorIsPassedOver() returns (data: seq<byte>, convert: seq<byte> -> seq<wchar>)
    ensures |Lines(data)| == 2 && IsError(Lines(data)[0]) && ErrorText(Lines(data)[0], convert) == []
    ensures IsError(Lines(data)[1])
    ensures ReportAll(Lines(data), convert).message == ErrorText(Lines(data)[1], convert) != []
  {
    var none, some := Bytes("ERROR:"), Bytes("ERROR:x");
    convert := s => s;
    data := none + [10] + (some + [10]);
    TwoLines(none, some);
    Empty(convert);
    OneMoreReport([], none, convert);
    OneMoreReport([none], some, convert);
    assert [] + [none] == [none] && [none] + [some] == Lines(data);
    ErrorTexts(none, some);
    hide Lines, ReportAll, Bytes, CString;
  }

  lemma ErrorTexts(none: seq<byte>, some: seq<byte>)
    requires none == Bytes("ERROR:") && some == Bytes("ERROR:x")
    ensures IsError(none) && IsError(some) && CString(none[6..]) == [] && CString(some[6..]) == [120]
  {
    var x: seq<byte> := [120];
    assert none[6..] == [] && some[6..] == x && x[1..] == [];
  }

  lemma TwoLines(a: seq<byte>, b: seq<byte>)
    requires a != [] && b != []
    requires (forall i :: 0 <= i < |a| ==> !IsTerminator(a[i])) && forall i :: 0 <= i < |b| ==> !IsTerminator(b[i])
    ensures Lines(a + [10] + (b + [10])) == [a] + [b]
  {
    LinesOfSegment(a, 10, b + [10]);
    LinesOfSegment(b, 10, []);
    NothingRead();
    assert b + [10] + [] == b + [10];
  }

  lemma Empty(convert: seq<byte> -> seq<wchar>)
    ensures Lines([]) == [] && Rest([]) == [] && ReportAll([], convert) == NOTHING_YET
  {
  }

  lemma OneMoreReport(lines: seq<seq<byte>>, line: seq<byte>, convert: seq<byte> -> seq<wchar>)
    ensures ReportAll(lines + [line], convert) == Report(ReportAll(lines, convert), line, convert)
  {
    hide Report;
    assert (lines + [line])[..|lines|] == lines;
  }

  /** Splits `cbuf[..end]` in place on CR/LF; `start` is where the unterminated rest begins. */
  method SplitBuffer(cbuf: array<byte>, end: nat, convert: seq<byte> -> seq<wchar>,
                     oldHandled: seq<seq<byte>>, oldOutcome: Outcome)
    returns (handled: seq<seq<byte>>, outcome: Outcome, start: nat)
    requires end <= cbuf.Length
    requires oldOutcome == ReportAll(oldHandled, convert)
    modifies cbuf
    ensures handled == oldHandled + Lines(old(cbuf[..end]))
    ensures start <= end && cbuf[start..end] == Rest(old(cbuf[..end]))
    ensures outcome == ReportAll(handled, convert)
  {
    Empty(convert);
    hide Lines;
    hide Rest;
    hide ReportAll;
    hide Report;
    ghost var data := cbuf[..end];
    assert data[..0] == [];
    handled, outcome, start := oldHandled, oldOutcome, 0;
    var ci := 0;
    while ci < end
      invariant 0 <= ci <= end && 0 <= start <= end
      invariant start <= ci || (start == ci + 1 && IsTerminator(data[ci]))
      invariant forall i :: 0 <= i < end && (start <= i || ci <= i) ==> cbuf[i] == data[i]
      invariant oldHandled + Lines(data[..ci]) == handled
      invariant Rest(data[..ci]) == if start <= ci then data[start..ci] else []
      invariant outcome == ReportAll(handled, convert)
    {
      OneMoreByte(data[..ci], data[ci]);
      assert data[..ci] + [data[ci]] == data[..ci + 1];
      if cbuf[ci] == 10 || cbuf[ci] == 13 {
        cbuf[ci] := 0;
        if ci > start {
          var line := cbuf[start..ci];
          assert line == data[start..ci];
          outcome := Report(outcome, line, convert);
          OneMoreReport(handled, line, convert);
          handled := handled + [line];
        }
        start := ci + 1;
        if start < end && (cbuf[start] == 10 || cbuf[start] == 13) {
          start := start + 1;
        }
      }
      ci := ci + 1;
    }
    assert data[..end] == data;
  }

  /** A read appends the bytes it got, and the caller terminates them with NUL. */
  method ReadFile(cbuf: array<byte>, pos: nat, bytes: seq<byte>)
    requires pos + |bytes| < cbuf.Length
    modifies cbuf
    ensures cbuf[..pos + |bytes|] == old(cbuf[..pos]) + bytes
  {
    forall i | 0 <= i < |bytes| {
      cbuf[pos + i] := bytes[i];
    }
    cbuf[pos + |bytes|] := 0;
  }

  /** The `memmove` of the unterminated rest to the front of the buffer. */
  method MoveDown(cbuf: array<byte>, start: nat, end: nat)
    requires start <= end <= cbuf.Length
    modifies cbuf
    ensures cbuf[..end - start] == old(cbuf[start..end])
  {
    forall i | 0 <= i < end - start {
      cbuf[i] := cbuf[start + i];
    }
  }

  /** One read of `n` bytes behind the `pos` carried over, and what the loop body makes of it. */
  method OneRead(cbuf: array<byte>, pos: nat, data: seq<byte>, consumed: nat, n: nat, handled: seq<seq<byte>>,
                 outcome: Outcome, ghost done: seq<byte>, convert: seq<byte> -> seq<wchar>)
    returns (handled': seq<seq<byte>>, outcome': Outcome, pos': nat, ghost done': seq<byte>)
    requires cbuf.Length == CAPACITY && pos + n < CAPACITY && consumed + n <= |data|
    requires Reading(data, consumed, done, cbuf[..pos], handled, outcome, convert)
    modifies cbuf
    ensures pos' <= pos + n && Reading(data, consumed + n, done', cbuf[..pos'], handled', outcome', convert)
  {
    hide Lines, Rest, ReportAll, StopAt, Reading;
    ghost var carry := cbuf[..pos];
    OutcomeIs(data, consumed, done, carry, handled, outcome, convert);
    ReadFile(cbuf, pos, data[consumed..consumed + n]);
    var end := pos + n;
    ghost var chunk := cbuf[..end];
    var start;
    handled', outcome', start := SplitBuffer(cbuf, end, convert, handled, outcome);
    ghost var rest := cbuf[start..end];
    if start < end {
      MoveDown(cbuf, start, end);
      pos' := end - start;
    } else {
      pos' := 0;
    }
    assert cbuf[..pos'] == rest;
    ReadingOn(data, consumed, done, carry, handled, chunk, handled', outcome', convert);
    done' := done + chunk[..|chunk| - |Rest(chunk)|];
  }

  /**
   Reads the pipe. `offer(k)` is how many bytes the k-th read finds in the pipe; the read
   takes no more than the buffer has room for. Whatever the offers, the handled lines are
   those of the stream up to `StopAt`.
   */
  method ReadOutput(data: seq<byte>, offer: nat -> posint, convert: seq<byte> -> seq<wchar>)
    returns (handled: seq<seq<byte>>, outcome: Outcome)
    ensures handled == Lines(data[..StopAt(data)])
    ensures outcome == ReportAll(handled, convert)
  {
    hide Lines, Rest, ReportAll, StopAt, Reading;
    var cbuf := new byte[CAPACITY](_ => 0);
    var pos, consumed, k := 0, 0, 0;
    handled, outcome := [], NOTHING_YET;
    ghost var done: seq<byte> := [];          // the stream before cbuf[0]
    NothingReadYet(data, convert, cbuf[..0]);
    while pos < CAPACITY - 1 && consumed < |data|
      invariant 0 <= pos <= LONGEST_RUN && consumed <= |data|
      invariant Reading(data, consumed, done, cbuf[..pos], handled, outcome, convert)
      decreases |data| - consumed
    {
      var bytesRead := Min(offer(k), Min(CAPACITY - pos - 1, |data| - consumed));
      k := k + 1;
      handled, outcome, pos, done := OneRead(cbuf, pos, data, consumed, bytesRead, handled, outcome, done, convert);
      consumed := consumed + bytesRead;
    }
    ReadingEnds(data, consumed, done, cbuf[..pos], handled, outcome, convert);
  }

  /**
   The loop with `consumed` bytes of the stream read: `done` has been split into the lines handled, `carry` is in the
   buffer, and no run has filled the buffer yet.
   */
  ghost predicate Reading(data: seq<byte>, consumed: nat, done: seq<byte>, carry: seq<byte>, handled: seq<seq<byte>>,
                          outcome: Outcome, convert: seq<byte> -> seq<wchar>)
  {
    && consumed <= |data| && data[..consumed] == done + carry
    && Rest(done) == [] && Rest(data[..consumed]) == carry
    && Lines(done) == handled == Lines(data[..consumed])
    && (forall j :: 0 <= j < consumed ==> |Rest(data[..j])| < LONGEST_RUN)
    && outcome == ReportAll(handled, convert)
  }

  lemma NothingReadYet(data: seq<byte>, convert: seq<byte> -> seq<wchar>, carry: seq<byte>)
    requires carry == []
    ensures Reading(data, 0, [], carry, [], NOTHING_YET, convert)
  {
    Empty(convert);
    assert data[..0] == [] && [] + carry == [];
    hide Lines, Rest, ReportAll;
  }

  lemma OutcomeIs(data: seq<byte>, consumed: nat, done: seq<byte>, carry: seq<byte>, handled: seq<seq<byte>>,
                  outcome: Outcome, convert: seq<byte> -> seq<wchar>)
    requires Reading(data, consumed, done, carry, handled, outcome, convert)
    ensures outcome == ReportAll(handled, convert)
  {
  }

  lemma ReadingOn(data: seq<byte>, consumed: nat, done: seq<byte>, carry: seq<byte>, before: seq<seq<byte>>,
                  chunk: seq<byte>, handled: seq<seq<byte>>, outcome: Outcome, convert: seq<byte> -> seq<wchar>)
    requires Reading(data, consumed, done, carry, before, ReportAll(before, convert), convert)
    requires |carry| <= |chunk| <= LONGEST_RUN && consumed + |chunk| - |carry| <= |data|
    requires chunk == carry + data[consumed..consumed + |chunk| - |carry|]
    requires handled == before + Lines(chunk) && outcome == ReportAll(handled, convert)
    ensures Reading(data, consumed + |chunk| - |carry|, done + chunk[..|chunk| - |Rest(chunk)|], Rest(chunk), handled,
                    outcome, convert)
  {
    hide Lines, Rest, ReportAll;
    var n := consumed + |chunk| - |carry|;
    assert data[..n] == data[..consumed] + data[consumed..n];
    Assoc(done, carry, data[consumed..n]);
    Advance(data, n, done, chunk);
  }

  lemma Assoc(a: seq<byte>, b: seq<byte>, c: seq<byte>)
    ensures a + b + c == a + (b + c)
  {
  }

  lemma ReadingEnds(data: seq<byte>, consumed: nat, done: seq<byte>, carry: seq<byte>, handled: seq<seq<byte>>,
                    outcome: Outcome, convert: seq<byte> -> seq<wchar>)
    requires Reading(data, consumed, done, carry, handled, outcome, convert)
    requires consumed == |data| || |carry| >= LONGEST_RUN
    ensures handled == Lines(data[..StopAt(data)]) && outcome == ReportAll(handled, convert)
  {
    hide Lines, Rest, ReportAll;
    StopAtIs(data, consumed);
  }

  /** One read with the buffer holding `chunk`: what was handled, and that no run filled the buffer on the way. */
  lemma Advance(data: seq<byte>, n: nat, done: seq<byte>, chunk: seq<byte>)
    requires n <= |data| && data[..n] == done + chunk && Rest(done) == [] && |chunk| <= LONGEST_RUN
    ensures var more := done + chunk[..|chunk| - |Rest(chunk)|];
            && Rest(more) == []
            && data[..n] == more + Rest(chunk)
            && Lines(more) == Lines(data[..n]) == Lines(done) + Lines(chunk)
    ensures Rest(data[..n]) == Rest(chunk)
    ensures forall j :: |done| <= j < n ==> |Rest(data[..j])| < LONGEST_RUN
  {
    hide Rest, Lines;
    var cut := |chunk| - |Rest(chunk)|;
    Join(done, chunk);
    CutRest(chunk);
    Join(done, chunk[..cut]);
    assert chunk == chunk[..cut] + chunk[cut..];
    Assoc(done, chunk[..cut], chunk[cut..]);
    forall j | |done| <= j < n
      ensures |Rest(data[..j])| < LONGEST_RUN
    {
      ShortSoFar(data, n, done, chunk, j);
    }
  }

  lemma ShortSoFar(data: seq<byte>, n: nat, done: seq<byte>, chunk: seq<byte>, j: nat)
    requires n <= |data| && data[..n] == done + chunk && Rest(done) == [] && |chunk| <= LONGEST_RUN
    requires |done| <= j < n
    ensures |Rest(data[..j])| < LONGEST_RUN
  {
    hide Lines, Rest;
    var i := j - |done|;
    assert data[..j] == data[..n][..j] == done + chunk[..i];
    Join(done, chunk[..i]);
  }
}
