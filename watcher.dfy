/**
 * The rotation-aware file tailer (drop/watcher.go). A `Watcher` remembers how far
 * into the watched file it has read and the file's first 64 bytes (its fingerprint).
 * Each check reads the fingerprint, starts over from offset 0 when it changed, then
 * emits the lines from the saved offset on and advances the offset by exactly the
 * bytes the line splitter consumed.
 *
 * The file's content is a `string`, one character standing for one byte; the channel
 * the lines go to is the sequence of lines a check returns.
 */
module DropWatcher {
  import opened Wrappers
  import opened Text

  /** The first log of the file, expected to be longer than this, serves as fingerprint. */
  const FingerprintSize := 64

  const InsufficientContent := "Error getting fingerprint, insufficient content."

  /** One trailing carriage return is dropped from a line. */
  function DropCR(s: string): (r: string)
    ensures s == r || s == r + ['\r']
    ensures r == s <==> (s == [] || s[|s| - 1] != '\r')
  {
    if |s| > 0 && s[|s| - 1] == '\r' then s[..|s| - 1] else s
  }

  /** One call of the splitter: how many bytes it consumes and the line it yields, if any. */
  datatype ScanStep = ScanStep(advance: nat, token: Option<string>)

  /**
   * `bufio.ScanLines`: the text up to the first newline, minus one trailing `\r`,
   * consuming the newline too; at end of input a non-empty unterminated rest is a line.
   */
  function ScanLines(data: string, atEOF: bool): (r: ScanStep)
    ensures r.advance <= |data|
    ensures r.token.None? <==> r.advance == 0
    ensures data != [] && atEOF ==> r.token.Some?
    ensures r.token.Some? ==> '\n' !in r.token.value
  {
    if atEOF && data == [] then ScanStep(0, None)
    else match IndexOf(data, '\n')
      case Some(i) => ScanStep(i + 1, Some(DropCR(data[..i])))
      case None => if atEOF then ScanStep(|data|, Some(DropCR(data))) else ScanStep(0, None)
  }

  /** All the lines a scanner yields when it reads `data` to its end. */
  function Lines(data: string): seq<string>
    decreases |data|
  {
    if data == [] then []
    else
      var step := ScanLines(data, true);
      [step.token.value] + Lines(data[step.advance..])
  }

  /** The lines of non-empty content: its first line, then the lines of what follows it. */
  lemma LinesUnfold(data: string)
    requires data != []
    ensures var step := ScanLines(data, true);
      Lines(data) == [step.token.value] + Lines(data[step.advance..])
  {
  }

  /** One round of the scanner loop: the line it emits keeps the lines emitted plus those still unread equal to all. */
  lemma LinesStep(rest: string, sent: seq<string>, all: seq<string>)
    requires rest != []
    requires sent + Lines(rest) == all
    ensures var step := ScanLines(rest, true);
      && 0 < step.advance <= |rest|
      && (sent + [step.token.value]) + Lines(rest[step.advance..]) == all
  {
    var step := ScanLines(rest, true);
    LinesUnfold(rest);
    AppendAssoc(sent, [step.token.value], Lines(rest[step.advance..]));
  }

  /** Each line followed by a newline: a file written line by line. */
  function Unlines(lines: seq<string>): string
  {
    if lines == [] then [] else lines[0] + "\n" + Unlines(lines[1..])
  }

  /** A line as the file holds it: no newline inside and no carriage return at its end. */
  predicate IsPlainLine(line: string) {
    '\n' !in line && (line == [] || line[|line| - 1] != '\r')
  }

  /** The splitter gives back exactly the lines a file was written with. */
  lemma {:induction false} LinesOfUnlines(lines: seq<string>)
    requires forall i :: 0 <= i < |lines| ==> IsPlainLine(lines[i])
    ensures Lines(Unlines(lines)) == lines
  {
    if lines != [] {
      var rest := Unlines(lines[1..]);
      var data := Unlines(lines);
      assert data == lines[0] + ['\n'] + rest;
      IndexOfAfter(lines[0], '\n', rest);
      assert data[..|lines[0]|] == lines[0];
      assert data[|lines[0]| + 1..] == rest;
      LinesOfUnlines(lines[1..]);
    }
  }

  /**
   * The splitter at a newline: the line is the text before the first newline, minus
   * one trailing `\r`, and the newline is consumed with it, whether or not more may follow.
   */
  lemma ScanLinesAtFirstNewline(data: string, i: nat, atEOF: bool)
    requires i < |data| && data[i] == '\n' && '\n' !in data[..i]
    ensures ScanLines(data, atEOF) == ScanStep(i + 1, Some(DropCR(data[..i])))
  {
    IndexOfIsFirst(data, '\n', i);
  }

  /**
   * The splitter without a newline: at end of input a non-empty rest is consumed whole
   * and yielded minus one trailing `\r`; before the end it waits for more.
   */
  lemma ScanLinesWithoutNewline(data: string)
    requires data != [] && '\n' !in data
    ensures ScanLines(data, true) == ScanStep(|data|, Some(DropCR(data)))
    ensures ScanLines(data, false) == ScanStep(0, None)
  {
  }

  /** Content written line by line ends on a line boundary. */
  lemma {:induction false} UnlinesEndsWithNewline(lines: seq<string>)
    ensures Unlines(lines) == [] || Unlines(lines)[|Unlines(lines)| - 1] == '\n'
  {
    if lines != [] {
      var rest := Unlines(lines[1..]);
      UnlinesEndsWithNewline(lines[1..]);
      assert Unlines(lines) == lines[0] + "\n" + rest;
    }
  }

  /** A final line without its newline is still read, whole, minus one trailing `\r`. */
  lemma UnterminatedLastLineRead(lines: seq<string>, tail: string)
    requires forall i :: 0 <= i < |lines| ==> IsPlainLine(lines[i])
    requires tail != [] && '\n' !in tail
    ensures Lines(Unlines(lines) + tail) == lines + [DropCR(tail)]
  {
    UnlinesEndsWithNewline(lines);
    LinesAppend(Unlines(lines), tail);
    LinesOfUnlines(lines);
    ScanLinesWithoutNewline(tail);
    LinesUnfold(tail);
    assert tail[|tail|..] == [];
  }

  /** A line ended by `\r\n` is read without its carriage return. */
  lemma CarriageReturnDropped(line: string)
    requires '\n' !in line
    ensures Lines(line + "\r\n") == [line]
  {
    var data := line + "\r\n";
    var head := data[..|line| + 1];
    assert head == line + "\r";
    assert data[|line| + 1] == '\n';
    assert '\n' !in head by {
      forall j | 0 <= j < |head| ensures head[j] != '\n' {
        if j < |line| { assert head[j] == line[j]; }
      }
    }
    ScanLinesAtFirstNewline(data, |line| + 1, true);
    assert DropCR(line + "\r") == line by {
      assert (line + "\r")[..|line|] == line;
    }
    LinesUnfold(data);
    assert data[|line| + 2..] == [];
  }

  /** Content that holds a newline yields the same first line whatever follows it. */
  lemma FirstLineOfAppend(a: string, b: string)
    requires '\n' in a
    ensures var step := ScanLines(a, true);
      && ScanLines(a + b, true) == step
      && 0 < step.advance <= |a|
      && (a + b)[step.advance..] == a[step.advance..] + b
  {
    IndexOfInPrefix(a, b, '\n');
    var i := IndexOf(a, '\n').value;
    assert (a + b)[..i] == a[..i];
  }

  /** Reading up to a line boundary and then the rest yields the lines of the whole, in order. */
  lemma {:induction false} LinesAppend(a: string, b: string)
    requires a == [] || a[|a| - 1] == '\n'
    ensures Lines(a + b) == Lines(a) + Lines(b)
    decreases |a|
  {
    if a == [] {
      assert a + b == b;
    } else {
      assert '\n' in a by { assert a[|a| - 1] == '\n'; }
      FirstLineOfAppend(a, b);
      var step := ScanLines(a, true);
      var rest := a[step.advance..];
      assert rest == [] || rest[|rest| - 1] == '\n' by {
        if rest != [] { assert rest[|rest| - 1] == a[|a| - 1]; }
      }
      LinesAppend(rest, b);
      LinesUnfold(a);
      LinesUnfold(a + b);
      AppendAssoc([step.token.value], Lines(rest), Lines(b));
    }
  }

  /** The state a watcher keeps between checks. */
  datatype TailState = TailState(lastReadPosition: nat, curFingerprint: string)

  /** What one check does: the new state, the lines it emits, and the error it reports. */
  datatype CheckResult = CheckResult(state: TailState, lines: seq<string>, err: Option<string>)

  /** The rotation check: too short a file is an error; a new fingerprint resets the state. */
  function Rotated(s: TailState, input: string): Result<TailState>
  {
    if |input| < FingerprintSize then Failure(InsufficientContent)
    else
      var fingerprint := input[..FingerprintSize];
      if fingerprint != s.curFingerprint then Success(TailState(0, fingerprint)) else Success(s)
  }

  /** The content from an offset on, nothing when the offset is past the end. */
  function Unread(input: string, offset: nat): string
  {
    if offset <= |input| then input[offset..] else []
  }

  /** One whole check of the file content `input`. */
  function Checked(s: TailState, input: string): CheckResult
  {
    match Rotated(s, input)
    case Failure(e) => CheckResult(s, [], Some(e))
    case Success(r) =>
      var data := Unread(input, r.lastReadPosition);
      CheckResult(TailState(r.lastReadPosition + |data|, r.curFingerprint), Lines(data), None)
  }

  class Watcher {
    const watchFileName: string
    const watchInterval: int
    var lastReadPosition: nat
    var curFingerprint: string

    function State(): TailState
      reads this
    {
      TailState(lastReadPosition, curFingerprint)
    }

    constructor InitWatcher(watchFileName: string, watchInterval: int)
      ensures this.watchFileName == watchFileName && this.watchInterval == watchInterval
      ensures State() == TailState(0, "")
    {
      this.watchFileName := watchFileName;
      this.watchInterval := watchInterval;
      lastReadPosition := 0;
      curFingerprint := "";
    }

    /** Start over from the beginning of a file with the given fingerprint. */
    method Reset(fingerprint: string)
      modifies this
      ensures lastReadPosition == 0 && curFingerprint == fingerprint
    {
      lastReadPosition := 0;
      curFingerprint := fingerprint;
    }

    method CheckRotation(input: string) returns (err: Option<string>)
      modifies this
      ensures match Rotated(old(State()), input)
        case Failure(e) => err == Some(e) && State() == old(State())
        case Success(s) => err == None && State() == s
    {
      if |input| < FingerprintSize {
        return Some(InsufficientContent);
      }
      var fingerprint := input[..FingerprintSize];
      if fingerprint != curFingerprint {
        Reset(fingerprint);
      }
      return None;
    }

    /**
     * Check the content of the file: the rotation check, a seek to the saved offset,
     * then the scanner loop, whose splitter adds what it consumes to the offset.
     */
    method Check(input: string) returns (err: Option<string>, sent: seq<string>)
      modifies this
      ensures State() == Checked(old(State()), input).state
      ensures sent == Checked(old(State()), input).lines
      ensures err == Checked(old(State()), input).err
    {
      err := CheckRotation(input);
      if err.Some? {
        return err, [];
      }
      ghost var rotated := State();
      assert Rotated(old(State()), input) == Success(rotated);
      var data := Unread(input, lastReadPosition);
      assert Checked(old(State()), input)
        == CheckResult(TailState(rotated.lastReadPosition + |data|, rotated.curFingerprint), Lines(data), None);
      var rest := data;
      sent := [];
      while rest != []
        invariant lastReadPosition + |rest| == rotated.lastReadPosition + |data|
        invariant curFingerprint == rotated.curFingerprint
        invariant sent + Lines(rest) == Lines(data)
        decreases |rest|
      {
        var step := ScanLines(rest, true);
        LinesStep(rest, sent, Lines(data));
        lastReadPosition := lastReadPosition + step.advance;
        sent := sent + [step.token.value];
        rest := rest[step.advance..];
      }
    }

    /** Open the file and check it; a file that cannot be opened skips this round. */
    method CheckFile(file: Option<string>) returns (sent: seq<string>)
      modifies this
      ensures file.None? ==> State() == old(State()) && sent == []
      ensures file.Some? ==>
        State() == Checked(old(State()), file.value).state && sent == Checked(old(State()), file.value).lines
    {
      if file.None? {
        return [];
      }
      var checkErr;
      checkErr, sent := Check(file.value);
    }
  }

  /** Too short a file is an error: nothing is emitted and the state is kept. */
  lemma ShortContentKeepsState(s: TailState, input: string)
    requires |input| < FingerprintSize
    ensures Checked(s, input) == CheckResult(s, [], Some(InsufficientContent))
  {
  }

  /** A new fingerprint (the initial empty one included) makes the check read the whole file. */
  lemma NewFingerprintRereadsAll(s: TailState, input: string)
    requires |input| >= FingerprintSize && input[..FingerprintSize] != s.curFingerprint
    ensures Checked(s, input) == CheckResult(TailState(|input|, input[..FingerprintSize]), Lines(input), None)
  {
    assert input[0..] == input;
  }

  /** An unchanged fingerprint leaves the offset alone: reading resumes where it stopped. */
  lemma SameFingerprintResumes(s: TailState, input: string)
    requires |input| >= FingerprintSize && input[..FingerprintSize] == s.curFingerprint
    ensures s.lastReadPosition <= |input| ==>
      Checked(s, input) == CheckResult(TailState(|input|, s.curFingerprint), Lines(input[s.lastReadPosition..]), None)
    ensures s.lastReadPosition > |input| ==> Checked(s, input) == CheckResult(s, [], None)
  {
  }

  /** After a successful check the offset is never before the end of the content. */
  lemma CheckReachesEnd(s: TailState, input: string)
    requires Checked(s, input).err.None?
    ensures Checked(s, input).state.lastReadPosition >= |input|
    ensures s.lastReadPosition <= |input| ==> Checked(s, input).state.lastReadPosition == |input|
  {
  }

  /** Checking unchanged content a second time emits nothing and changes nothing. */
  lemma CheckIsIdempotent(s: TailState, input: string)
    requires Checked(s, input).err.None?
    ensures var s1 := Checked(s, input).state;
      Checked(s1, input) == CheckResult(s1, [], None)
  {
  }

  /** Content appended after a check is emitted, and only it. */
  lemma CheckEmitsAppended(s: TailState, input: string, more: string)
    requires Checked(s, input).err.None?
    requires Checked(s, input).state.lastReadPosition == |input|
    ensures var s1 := Checked(s, input).state;
      Checked(s1, input + more)
        == CheckResult(TailState(|input + more|, input[..FingerprintSize]), Lines(more), None)
  {
    assert (input + more)[..FingerprintSize] == input[..FingerprintSize];
    assert (input + more)[|input|..] == more;
  }

  /** A rotated file, whose first 64 bytes differ, is read again from its start and in full. */
  lemma RotatedFileReadInFull(s: TailState, input: string, rotated: string)
    requires Checked(s, input).err.None?
    requires |rotated| >= FingerprintSize && rotated[..FingerprintSize] != input[..FingerprintSize]
    ensures var s1 := Checked(s, input).state;
      Checked(s1, rotated) == CheckResult(TailState(|rotated|, rotated[..FingerprintSize]), Lines(rotated), None)
  {
    NewFingerprintRereadsAll(Checked(s, input).state, rotated);
  }

  /**
   * No loss and no duplicate: a file read fresh, then grown by appending after a
   * complete line, yields over the two checks exactly the lines of the final file.
   */
  lemma TwoChecksEmitEveryLineOnce(s: TailState, input: string, more: string)
    requires |input| >= FingerprintSize && input[..FingerprintSize] != s.curFingerprint
    requires input[|input| - 1] == '\n'
    ensures var r1 := Checked(s, input);
      var r2 := Checked(r1.state, input + more);
      r1.lines + r2.lines == Lines(input + more)
  {
    NewFingerprintRereadsAll(s, input);
    CheckEmitsAppended(s, input, more);
    LinesAppend(input, more);
  }

  /** An offset left past the end (the file shrank under the same fingerprint) emits nothing. */
  lemma TruncatedSameFingerprintEmitsNothing(s: TailState, input: string)
    requires |input| >= FingerprintSize && input[..FingerprintSize] == s.curFingerprint
    requires s.lastReadPosition > |input|
    ensures Checked(s, input).lines == [] && Checked(s, input).state == s
  {
  }
}
