/**
 * The decision logic of the pg_ctl controller: how `Controller.Status` turns
 * the outcome and captured output of `pg_ctl status` into a Status record,
 * and how the deprecated `Controller.IsStarted` turns the outcome of its own
 * `pg_ctl status` run into a yes/no answer. Running the child process is not
 * modelled: its outcome and its captured stdout and stderr are parameters.
 */
module PgCtl {
  import opened Wrappers
  import opened GoText

  // ---------------------------------------------------------------------
  // What running `pg_ctl` produced
  // ---------------------------------------------------------------------

  /**
   * The error value that exec.Cmd.Run (or CombinedOutput) returned.
   * Clean: nil. ExitError: an *exec.ExitError; `waitStatus` is
   * WaitStatus.ExitStatus() when the error's Sys() is a syscall.WaitStatus
   * (the exit code, or -1 for a child killed by a signal) and None otherwise.
   * OtherError: any other error, such as a binary that could not be started.
   */
  datatype RunOutcome =
    | Clean
    | ExitError(waitStatus: Option<int>, message: string)
    | OtherError(message: string)

  /** A Go error value, known by its message. */
  datatype Error = Error(message: string)

  /** The error value the run returned, for an outcome that is not Clean. */
  function RunError(o: RunOutcome): Error
    requires !o.Clean?
  {
    Error(o.message)
  }

  // ---------------------------------------------------------------------
  // The Status record
  // ---------------------------------------------------------------------

  /** The result of `pg_ctl status`, field for field as in the Go Status struct. */
  datatype StatusResult = StatusResult(
    errorCode: int,
    rawStdOut: string,
    rawStdErr: string,
    isServerRunning: bool,
    pid: nat,
    psPostgres: string)

  /** The ErrorCode reported when no exit status could be obtained. */
  const InternalErrorCode: int := 127

  /** The record returned, with the run's error, when no exit status could be obtained. */
  const InternalErrorStatus: StatusResult := StatusResult(InternalErrorCode, "", "", false, 0, "")

  /** The substring of the first stdout line that reports a running server. */
  const ServerIsRunning: string := "server is running"

  /** The literal part of the pattern `PID: (\d+)`. */
  const PidPrefix: string := "PID: "

  // ---------------------------------------------------------------------
  // The pattern `PID: (\d+)`
  // ---------------------------------------------------------------------

  /** The pattern `PID: (\d+)` matches `s` at position `i`. */
  predicate PidMatchAt(s: string, i: int) {
    0 <= i && i + |PidPrefix| < |s| && s[i..i + |PidPrefix|] == PidPrefix
    && IsDigit(s[i + |PidPrefix|])
  }

  /** The leftmost position at or after `from` where `PID: (\d+)` matches, if any. */
  function FindPid(s: string, from: nat): (r: Option<nat>)
    requires from <= |s|
    ensures r.Some? ==> (from <= r.value && PidMatchAt(s, r.value)
      && forall j :: from <= j < r.value ==> !PidMatchAt(s, j))
    ensures r.None? ==> forall j :: from <= j ==> !PidMatchAt(s, j)
    decreases |s| - from
  {
    if from == |s| then None
    else if PidMatchAt(s, from) then Some(from)
    else FindPid(s, from + 1)
  }

  /** The end of the greedy run of digits `\d+` that starts at `from`. */
  function DigitRunEnd(s: string, from: nat): (r: nat)
    requires from <= |s|
    ensures from <= r <= |s|
    ensures forall k :: from <= k < r ==> IsDigit(s[k])
    ensures r < |s| ==> !IsDigit(s[r])
    decreases |s| - from
  {
    if from == |s| || !IsDigit(s[from]) then from else DigitRunEnd(s, from + 1)
  }

  /** The digits captured by the leftmost match of `PID: (\d+)` that starts at `i`. */
  function PidDigits(line: string, i: nat): (d: string)
    requires PidMatchAt(line, i)
    ensures |d| > 0 && AllDigits(d)
  {
    var start := i + |PidPrefix|;
    var e := DigitRunEnd(line, start);
    assert forall k :: 0 <= k < e - start ==> line[start..e][k] == line[start + k];
    line[start..e]
  }

  /**
   * The Pid the controller reads from a line: strconv.Atoi of the digits
   * captured by the leftmost match of `PID: (\d+)`, or 0 without a match.
   */
  function PidOf(line: string): (pid: nat)
    ensures pid <= MaxInt64
    ensures (forall i :: !PidMatchAt(line, i)) ==> pid == 0
  {
    match FindPid(line, 0)
    case None => 0
    case Some(i) => Atoi(PidDigits(line, i))
  }

  // ---------------------------------------------------------------------
  // Parsing the captured stdout
  // ---------------------------------------------------------------------

  /** The three fields of the Status record that come from parsing stdout. */
  datatype Parsed = Parsed(isServerRunning: bool, pid: nat, psPostgres: string)

  /**
   * The parse of `pg_ctl status` stdout, as `Status` does it on its buffer:
   * a first ReadString('\n') gives the first line; the server is running when
   * that line contains "server is running"; the Pid comes from that line
   * whether or not it is running; only when running, a second ReadString('\n')
   * from where the first stopped gives the line whose trimmed text is PsPostgres.
   */
  function ParseStdout(stdout: string): (p: Parsed)
    ensures !p.isServerRunning ==> p.psPostgres == ""
    ensures Trimmed(p.psPostgres) && p.pid <= MaxInt64
  {
    var first := ReadString(stdout, 0, '\n');
    var running := Contains(first.line, ServerIsRunning);
    var pid := PidOf(first.line);
    var ps := if running then TrimSpace(ReadString(stdout, first.next, '\n').line) else "";
    Parsed(running, pid, ps)
  }

  // ---------------------------------------------------------------------
  // Controller.Status
  // ---------------------------------------------------------------------

  /**
   * The exit code `Status` derives from the run: 0 for a clean run, the
   * wait status's exit status for an exit error that has one, and None when
   * no exit status can be obtained (the 127 path).
   */
  function ExitCode(o: RunOutcome): (code: Option<int>)
    ensures code.Some? <==> o.Clean? || (o.ExitError? && o.waitStatus.Some?)
    ensures o.Clean? ==> code == Some(0)
    ensures o.ExitError? && o.waitStatus.Some? ==> code == o.waitStatus
  {
    match o
    case Clean => Some(0)
    case ExitError(ws, _) => ws
    case OtherError(_) => None
  }

  /**
   * Controller.Status given the outcome of `pg_ctl status -w -D <dataDir>`
   * and the stdout and stderr it wrote. Returns the Status record and the
   * error (None for Go's nil).
   */
  function Status(o: RunOutcome, stdout: string, stderr: string): (r: (StatusResult, Option<Error>))
    ensures r.1.Some? <==> ExitCode(o).None?
    ensures r.1.Some? ==> r.0 == InternalErrorStatus && r.1.value == RunError(o)
    ensures r.1.None? ==> (r.0.errorCode == ExitCode(o).value
      && r.0.rawStdOut == stdout && r.0.rawStdErr == stderr
      && Parsed(r.0.isServerRunning, r.0.pid, r.0.psPostgres) == ParseStdout(stdout))
  {
    match ExitCode(o)
    case None => (InternalErrorStatus, Some(RunError(o)))
    case Some(code) =>
      var p := ParseStdout(stdout);
      (StatusResult(code, stdout, stderr, p.isServerRunning, p.pid, p.psPostgres), None)
  }

  // ---------------------------------------------------------------------
  // Controller.IsStarted
  // ---------------------------------------------------------------------

  /** The text IsStarted puts in front of the run's error message. */
  const CannotGetState: string := "cannot get instance state: "

  /** The exit status `pg_ctl status` uses for "no server running". */
  const NotRunningExitStatus: int := 3

  /**
   * Controller.IsStarted given the outcome of its own `pg_ctl status` run.
   * The source reads the wait status of an exit error with an unchecked type
   * assertion, which panics when there is none: the requires says so.
   */
  function IsStarted(o: RunOutcome): (r: (bool, Option<Error>))
    requires o.ExitError? ==> o.waitStatus.Some?
    ensures r.0 <==> o.Clean?
    ensures r.0 ==> r.1.None?
    ensures r.1.None? <==> o.Clean? || (o.ExitError? && o.waitStatus == Some(NotRunningExitStatus))
    ensures r.1.Some? ==> r.1.value == Error(CannotGetState + o.message)
  {
    match o
    case Clean => (true, None)
    case ExitError(ws, msg) =>
      if ws.value == NotRunningExitStatus then (false, None)
      else (false, Some(Error(CannotGetState + msg)))
    case OtherError(msg) => (false, Some(Error(CannotGetState + msg)))
  }

  // ---------------------------------------------------------------------
  // Properties of the Pid extraction
  // ---------------------------------------------------------------------

  /** A match with no match before it is the one FindPid reports. */
  lemma FindPidLeftmost(s: string, i: nat)
    requires PidMatchAt(s, i)
    requires forall j :: 0 <= j < i ==> !PidMatchAt(s, j)
    ensures FindPid(s, 0) == Some(i)
  {
  }

  /**
   * The Pid is the value of the whole digit run of the leftmost match: a
   * match at `i` with none before it, whose digits `d` are not followed by
   * another digit, gives strconv.Atoi(d).
   */
  lemma PidOfMatch(line: string, i: nat, d: string)
    requires PidMatchAt(line, i) && forall j :: 0 <= j < i ==> !PidMatchAt(line, j)
    requires |d| > 0 && AllDigits(d)
    requires i + |PidPrefix| + |d| <= |line| && line[i + |PidPrefix|..i + |PidPrefix| + |d|] == d
    requires i + |PidPrefix| + |d| == |line| || !IsDigit(line[i + |PidPrefix| + |d|])
    ensures PidOf(line) == Atoi(d)
  {
    FindPidLeftmost(line, i);
    var start := i + |PidPrefix|;
    forall k | start <= k < start + |d| ensures IsDigit(line[k]) {
      assert line[k] == d[k - start];
    }
    assert DigitRunEnd(line, start) == start + |d|;
  }

  /**
   * A line that spells `n` in decimal right after the first "PID: " (with no
   * 'P' before it and no digit after the number) yields Pid `n`, saturated
   * at the largest 64-bit int.
   */
  lemma PidOfSpelled(a: string, n: nat, b: string)
    requires 'P' !in a
    requires b == [] || !IsDigit(b[0])
    ensures PidOf(a + PidPrefix + Decimal(n) + b) == if n <= MaxInt64 then n else MaxInt64
  {
    var d := Decimal(n);
    var s := a + PidPrefix + d + b;
    var i := |a|;
    var start := i + |PidPrefix|;
    assert s[i..start] == PidPrefix;
    assert s[start] == d[0];
    forall j | 0 <= j < i ensures !PidMatchAt(s, j) {
      assert s[j] == a[j];
    }
    assert s[start..start + |d|] == d;
    if start + |d| < |s| {
      assert s[start + |d|] == b[0];
    }
    PidOfMatch(s, i, d);
    AtoiOfDecimal(n);
  }

  /** A non-digit appended to a line neither creates nor changes its Pid. */
  lemma PidOfIgnoresNonDigitSuffix(line: string, c: char)
    requires !IsDigit(c)
    ensures PidOf(line + [c]) == PidOf(line)
  {
    var s := line + [c];
    forall i ensures PidMatchAt(s, i) <==> PidMatchAt(line, i) {
      if 0 <= i && i + |PidPrefix| < |line| {
        assert s[i..i + |PidPrefix|] == line[i..i + |PidPrefix|];
      }
    }
    match FindPid(line, 0)
    case None =>
      assert FindPid(s, 0).None?;
    case Some(i) =>
      FindPidLeftmost(s, i);
      var start := i + |PidPrefix|;
      var e := DigitRunEnd(line, start);
      forall k | start <= k < e ensures IsDigit(s[k]) {
        assert s[k] == line[k];
      }
      if e < |line| {
        assert s[e] == line[e];
      } else {
        assert s[e] == c;
      }
      assert DigitRunEnd(s, start) == e;
      assert s[start..e] == line[start..e];
  }

  // ---------------------------------------------------------------------
  // Properties of the stdout parse
  // ---------------------------------------------------------------------

  /** The newline that ends the first line never affects the "server is running" test. */
  lemma RunningIgnoresNewline(line: string)
    ensures Contains(line + "\n", ServerIsRunning) == Contains(line, ServerIsRunning)
  {
    assert '\n' !in ServerIsRunning;
    ContainsIgnoresForeignSuffix(line, ServerIsRunning, '\n');
  }

  /** The parse in terms of what the first ReadString returned. */
  lemma ParseAfterFirstRead(stdout: string, first: string)
    requires ReadString(stdout, 0, '\n') == Read(first, |first|)
    ensures ParseStdout(stdout) == Parsed(Contains(first, ServerIsRunning), PidOf(first),
      if Contains(first, ServerIsRunning) then TrimSpace(ReadString(stdout, |first|, '\n').line) else "")
  {
  }

  /**
   * Running and Pid are decided by the first line alone: for stdout made of
   * a first line, its newline and anything at all after it, the server is
   * running exactly when that line contains "server is running", and the Pid
   * is the one the line spells.
   */
  lemma ParseFirstLine(line: string, rest: string)
    requires '\n' !in line
    ensures ParseStdout(line + "\n" + rest).isServerRunning
        <==> exists i :: Occurs(line, ServerIsRunning, i)
    ensures ParseStdout(line + "\n" + rest).pid == PidOf(line)
  {
    ReadStringLine([], line, '\n', rest);
    assert [] + line + ['\n'] + rest == line + "\n" + rest;
    RunningIgnoresNewline(line);
    PidOfIgnoresNonDigitSuffix(line, '\n');
  }

  /** Text after the first newline never changes IsServerRunning or Pid. */
  lemma LaterLinesIgnored(line: string, rest1: string, rest2: string)
    requires '\n' !in line
    ensures ParseStdout(line + "\n" + rest1).isServerRunning
         == ParseStdout(line + "\n" + rest2).isServerRunning
    ensures ParseStdout(line + "\n" + rest1).pid == ParseStdout(line + "\n" + rest2).pid
  {
    ParseFirstLine(line, rest1);
    ParseFirstLine(line, rest2);
  }

  /**
   * Stdout with no newline at all is one first line: running and Pid come
   * from it, and PsPostgres is "" even when the server is running, since the
   * second read finds nothing.
   */
  lemma ParseSingleLine(line: string)
    requires '\n' !in line
    ensures ParseStdout(line)
         == Parsed(exists i :: Occurs(line, ServerIsRunning, i), PidOf(line), "")
  {
    ReadStringLastLine([], line, '\n');
    assert [] + line == line;
    ReadStringLastLine(line, [], '\n');
    assert line + [] == line;
    TrimSpaceOfPadded([], [], []);
  }

  /** Empty stdout parses to not running, Pid 0 and no PsPostgres. */
  lemma ParseEmpty()
    ensures ParseStdout("") == Parsed(false, 0, "")
  {
    ParseSingleLine("");
  }

  /**
   * The line read from the start of a line, up to and including its newline
   * or to the end of stdout, trims to that line's own trimmed text.
   */
  lemma ReadLineTrimmed(pre: string, line: string, rest: string)
    requires '\n' !in line
    requires rest == [] || rest[0] == '\n'
    ensures TrimSpace(ReadString(pre + line + rest, |pre|, '\n').line) == TrimSpace(line)
  {
    if rest == [] {
      ReadStringLastLine(pre, line, '\n');
      assert pre + line + rest == pre + line;
    } else {
      ReadStringLine(pre, line, '\n', rest[1..]);
      assert pre + line + ['\n'] + rest[1..] == pre + line + rest;
      TrimSpaceDropsTrailingSpace(line, '\n');
    }
  }

  /**
   * PsPostgres is the trimmed second line when the first line reports a
   * running server, and "" otherwise, whatever follows the second line's
   * newline (or when the second line is the last, without a newline).
   */
  lemma ParseSecondLine(line1: string, line2: string, rest: string)
    requires '\n' !in line1 && '\n' !in line2
    requires rest == [] || rest[0] == '\n'
    ensures ParseStdout(line1 + "\n" + line2 + rest).psPostgres
         == if Contains(line1, ServerIsRunning) then TrimSpace(line2) else ""
  {
    var pre := line1 + "\n";
    var s := pre + line2 + rest;
    assert s == line1 + "\n" + line2 + rest;
    assert ReadString(s, 0, '\n') == Read(pre, |pre|) by {
      ReadStringLine([], line1, '\n', line2 + rest);
      assert [] + line1 + ['\n'] + (line2 + rest) == s;
    }
    RunningIgnoresNewline(line1);
    assert TrimSpace(ReadString(s, |pre|, '\n').line) == TrimSpace(line2) by {
      ReadLineTrimmed(pre, line2, rest);
    }
    ParseAfterFirstRead(s, pre);
  }

  /**
   * A first line without "server is running": not running and no PsPostgres,
   * however many lines follow, yet the Pid is still read from that line.
   */
  lemma NotRunningReport(line: string, rest: string)
    requires '\n' !in line && !Contains(line, ServerIsRunning)
    ensures ParseStdout(line + "\n" + rest) == Parsed(false, PidOf(line), "")
  {
    ParseFirstLine(line, rest);
  }

  // ---------------------------------------------------------------------
  // Properties of Status and IsStarted
  // ---------------------------------------------------------------------

  /**
   * The parsed fields depend on stdout only: two runs that both yield an
   * exit code report the same running flag, Pid and PsPostgres for the same
   * stdout, whatever their exit codes and stderr.
   */
  lemma ParsedFieldsIgnoreExitCode(o1: RunOutcome, o2: RunOutcome, stdout: string, e1: string, e2: string)
    requires ExitCode(o1).Some? && ExitCode(o2).Some?
    ensures var (s1, _) := Status(o1, stdout, e1);
      var (s2, _) := Status(o2, stdout, e2);
      s1.isServerRunning == s2.isServerRunning && s1.pid == s2.pid && s1.psPostgres == s2.psPostgres
  {
  }

  /**
   * An *exec.ExitError only arises when the child did not exit with status 0,
   * so its wait status, when there is one, is never 0.
   */
  predicate ExitErrorIsNonZero(o: RunOutcome) {
    o.ExitError? && o.waitStatus.Some? ==> o.waitStatus.value != 0
  }

  /**
   * For an outcome that has an exit status, the two operations read it the
   * same way for "started" but not for "error": IsStarted answers true
   * exactly when Status would report ErrorCode 0, and answers without an
   * error exactly when that ErrorCode is 0 or 3.
   */
  lemma IsStartedMatchesErrorCode(o: RunOutcome, stdout: string, stderr: string)
    requires ExitErrorIsNonZero(o) && ExitCode(o).Some?
    ensures IsStarted(o).0 <==> Status(o, stdout, stderr).0.errorCode == 0
    ensures IsStarted(o).1.None?
        <==> Status(o, stdout, stderr).0.errorCode in {0, NotRunningExitStatus}
  {
  }

  /**
   * ErrorCode 127 alone does not tell an internal error: a `pg_ctl` that
   * itself exits with status 127 gives the same ErrorCode with a nil error.
   */
  lemma ExitStatus127IsNotAnError(msg: string, stdout: string, stderr: string)
    ensures var (st, err) := Status(ExitError(Some(127), msg), stdout, stderr);
      st.errorCode == InternalErrorCode && err.None? && st.rawStdOut == stdout
  {
  }

  /**
   * Exit status 3, pg_ctl's "no server running", is not an error for either
   * operation: Status reports it as ErrorCode 3 and IsStarted as not started.
   */
  lemma ExitStatus3NotAnError(msg: string, stdout: string, stderr: string)
    ensures Status(ExitError(Some(3), msg), stdout, stderr).0.errorCode == 3
    ensures Status(ExitError(Some(3), msg), stdout, stderr).1.None?
    ensures IsStarted(ExitError(Some(3), msg)) == (false, None)
  {
  }

  // ---------------------------------------------------------------------
  // Reports in the shape `pg_ctl status` writes them
  // ---------------------------------------------------------------------

  /**
   * A first line that reports a running server and spells its PID right
   * after the first "PID: ", followed by a second line: the parse reports a
   * running server, that PID, and the trimmed second line, whatever follows it.
   */
  lemma RunningReport(head: string, n: nat, c: string, line2: string, rest: string)
    requires Contains(head, ServerIsRunning) && 'P' !in head && '\n' !in head
    requires '\n' !in c && (c == [] || !IsDigit(c[0]))
    requires '\n' !in line2
    requires rest == [] || rest[0] == '\n'
    requires n <= MaxInt64
    ensures ParseStdout(head + PidPrefix + Decimal(n) + c + "\n" + line2 + rest)
         == Parsed(true, n, TrimSpace(line2))
  {
    var d := Decimal(n);
    var line1 := head + PidPrefix + d + c;
    assert '\n' !in line1 by {
      assert '\n' !in PidPrefix;
    }
    assert Contains(line1, ServerIsRunning) by {
      assert line1 == head + (PidPrefix + d + c);
      ContainsExtend(head, PidPrefix + d + c, ServerIsRunning);
    }
    assert PidOf(line1) == n by {
      PidOfSpelled(head, n, c);
    }
    assert line1 + "\n" + line2 + rest == line1 + "\n" + (line2 + rest);
    ParseFirstLine(line1, line2 + rest);
    ParseSecondLine(line1, line2, rest);
  }
}
