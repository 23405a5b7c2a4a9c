# pg_ctl controller: a Dafny model of its decision logic

The Go package `pg_ctl` wraps PostgreSQL's `pg_ctl` utility for one data
directory. `Controller.Status` runs `pg_ctl status` and turns the run into a
`Status` record: an exit code, the raw stdout and stderr, whether a server is
running, its PID, and the postgres command line. The deprecated
`Controller.IsStarted` runs `pg_ctl status` and answers yes or no.

This project models the part of those two methods that decides something:

- the stdout parser of `Status`. It reads the first line, up to and including
  the first `'\n'`. The server is running when that line contains
  `"server is running"`. The PID is the number after the leftmost `PID: `
  followed by digits in that line, whether or not the server is running. Only
  when it is running, a second read from the same buffer gives the line whose
  trimmed text becomes `PsPostgres`;
- the exit-code derivation of `Status`: 0 for a clean run, the wait status's
  exit status for an exit error that has one, and otherwise `ErrorCode` 127
  with the run's error returned;
- the mapping of `IsStarted`: a clean run is `(true, nil)`, exit status 3 is
  `(false, nil)`, and anything else is `(false, error)`.

The two ways of telling "running" stay separate, as in the source. `Status`
looks at the text. `IsStarted` looks at the exit status.

Files:

- `wrappers.dfy`: module `Wrappers`, an `Option` type for Go's nil results.
- `go_text.dfy`: module `GoText`, the Go library calls the parser relies on.
  These are `bytes.Buffer.ReadString`, `strings.Contains`,
  `strings.TrimSpace` and `strconv.Atoi` (with a 64-bit `int`).
- `controller.dfy`: module `PgCtl`, modelling `controller.go`. It holds the
  outcome and `Status` datatypes, the pattern `PID: (\d+)`, the parser,
  `Status`, `IsStarted`, and the lemmas about them.

The model is pure functions and lemmas. The buffer that `Status` reads twice
is modelled as a string plus a read offset (`ReadString` returns the line and
the new offset). The source has no loops and no fields that change.

`PsPostgres` is the trimmed second line (controller.go:107), and the PID is
read from the first line even when that line does not report a running server
(controller.go:95-102).

## Model

| member | source | states |
|---|---|---|
| `GoText.ReadString` | controller.go:91 | reading from the buffer's offset gives a slice of the unread text that ends at the new offset |
| `GoText.ReadStringSpec` | controller.go:91 | the text read runs up to and including the first newline, or to the end when there is no newline; the rest of the buffer follows right after it |
| `GoText.ReadStringLine` | controller.go:91 | reading at the start of a line that ends in a newline gives exactly that line with its newline, and the offset moves past it |
| `GoText.ReadStringLastLine` | controller.go:106 | reading a last line that has no newline gives all the remaining text; at the end of the buffer it gives "" |
| `GoText.ContainsFrom` | controller.go:93 | the left-to-right search finds the pattern exactly when it occurs at some position at or after the start |
| `GoText.Contains` | controller.go:93 | `strings.Contains` is true exactly when the pattern occurs somewhere in the text |
| `GoText.ContainsExtend` | controller.go:93 | appending text after an occurrence keeps it |
| `GoText.ContainsIgnoresForeignSuffix` | controller.go:93 | appending a character the pattern does not use never changes whether the pattern is contained |
| `GoText.IsSpace` | controller.go:107 | the characters `strings.TrimSpace` removes are those of `unicode.IsSpace`: the Unicode White_Space set |
| `GoText.TrimSpace` | controller.go:107 | the result has no white space at either end |
| `GoText.TrimSpaceSpec` | controller.go:107 | the input is white space, then the result, then white space |
| `GoText.TrimSpaceOfPadded` | controller.go:107 | trimming white-space padding from both sides gives back exactly the unpadded text |
| `GoText.TrimSpaceDropsTrailingSpace` | controller.go:107 | a trailing white-space character, such as the line's own newline, does not change the trimmed text |
| `GoText.Atoi` | controller.go:101 | `strconv.Atoi` of a digit run is its decimal value when that fits a 64-bit int, and the largest 64-bit int otherwise |
| `GoText.Decimal` | controller.go:101 | the decimal spelling of a number is a non-empty run of digits |
| `GoText.DecimalRoundTrip` | controller.go:101 | reading back a decimal spelling gives the number that was spelled |
| `GoText.AtoiOfDecimal` | controller.go:101 | `strconv.Atoi` of a spelled number gives that number up to the largest 64-bit int and saturates beyond it |
| `PgCtl.PidMatchAt` | controller.go:96-97 | `PID: (\d+)` matches at a position exactly when `PID: ` starts there and an ASCII digit follows it |
| `PgCtl.FindPid` | controller.go:96-98 | the result is the leftmost position where `PID: (\d+)` matches, or None when the pattern matches nowhere |
| `PgCtl.DigitRunEnd` | controller.go:96 | `\d+` is greedy: the run covers only digits and stops at the first non-digit or at the end of the line |
| `PgCtl.PidDigits` | controller.go:97-101 | the captured group is a non-empty run of ASCII digits |
| `PgCtl.PidOf` | controller.go:95-102 | the Pid fits a 64-bit int, and it is 0 when `PID: (\d+)` matches nowhere in the line |
| `PgCtl.FindPidLeftmost` | controller.go:97 | a match with no match before it is the one the search reports |
| `PgCtl.PidOfMatch` | controller.go:95-102 | the Pid is `strconv.Atoi` of the whole digit run of the leftmost match |
| `PgCtl.PidOfSpelled` | controller.go:95-102 | a line that spells n right after its first `PID: ` yields Pid n, saturated at the largest 64-bit int |
| `PgCtl.PidOfIgnoresNonDigitSuffix` | controller.go:91-101 | a non-digit appended to the line, such as its newline, neither creates nor changes the Pid |
| `PgCtl.ParseStdout` | controller.go:90-110 | parsing never fails; when not running, PsPostgres is ""; PsPostgres is trimmed; the Pid fits a 64-bit int |
| `PgCtl.RunningIgnoresNewline` | controller.go:91-93 | the newline kept at the end of the first line never changes the "server is running" test |
| `PgCtl.ParseFirstLine` | controller.go:91-102 | with a first line and anything after its newline, running holds exactly when the first line contains "server is running", and the Pid is the one that line spells |
| `PgCtl.LaterLinesIgnored` | controller.go:91-102 | text after the first newline never changes IsServerRunning or Pid |
| `PgCtl.ParseSingleLine` | controller.go:90-110 | stdout with no newline is a single first line: running and Pid come from it, and PsPostgres is "" even when running |
| `PgCtl.ParseEmpty` | controller.go:90-110 | empty stdout gives not running, Pid 0 and PsPostgres "" |
| `PgCtl.ReadLineTrimmed` | controller.go:106-107 | the second read, trimmed, is the second line's trimmed text, whether or not a newline ends it |
| `PgCtl.ParseSecondLine` | controller.go:104-110 | PsPostgres is the trimmed second line when the first line reports a running server, and "" otherwise, whatever follows |
| `PgCtl.NotRunningReport` | controller.go:93-110 | a first line without "server is running" gives not running and PsPostgres "" for any further lines, and the Pid is still read from that line |
| `PgCtl.RunningReport` | controller.go:90-110 | a first line made of a head that contains "server is running" and no `P`, then `PID: ` and a decimal n no larger than the largest 64-bit int, then text that does not start with a digit, followed by a second line, gives running, Pid n and the trimmed second line |
| `PgCtl.ExitCode` | controller.go:75-88 | a clean run gives 0; an exit error with a wait status gives that exit status; every other outcome gives no exit code |
| `PgCtl.Status` | controller.go:67-121 | the error is returned exactly when there is no exit code, and then the record is `Status{ErrorCode: 127}` and the error is the run's own; otherwise ErrorCode is the exit code, RawStdOut and RawStdErr are the full captured streams, and the other fields are the parse of stdout |
| `PgCtl.ParsedFieldsIgnoreExitCode` | controller.go:112-120 | the parsed fields depend on stdout only, never on the exit code or stderr |
| `PgCtl.ExitStatus127IsNotAnError` | controller.go:79-85 | a `pg_ctl` that exits with status 127 gives ErrorCode 127 with a nil error, so ErrorCode alone does not signal an internal error |
| `PgCtl.ExitStatus3NotAnError` | controller.go:126-139 | exit status 3 is not an error for either operation: Status reports ErrorCode 3 and IsStarted reports not started |
| `PgCtl.IsStarted` | controller.go:126-139 | true exactly on a clean run, and never together with an error; no error exactly on a clean run or exit status 3; otherwise the error prefixes the run's message with "cannot get instance state: " |
| `PgCtl.ExitErrorIsNonZero` | controller.go:77-85 | the outcomes Go can produce: an `*exec.ExitError` arises only when the child did not exit with status 0, so its exit status is never 0 |
| `PgCtl.IsStartedMatchesErrorCode` | controller.go:126-139 | assuming `ExitErrorIsNonZero` (an exit error never carries exit status 0), for an outcome with an exit status IsStarted is true exactly when Status's ErrorCode is 0, and has no error exactly when that ErrorCode is 0 or 3 |

## Left out

- Running the child process is not modelled. This covers `exec.Command`, the argument lists, `cmd.Run`, `CombinedOutput` and connecting the buffers (controller.go:68-73, 127-128). It is OS I/O. Its result is the `RunOutcome` parameter plus the stdout and stderr strings.
- The `*exec.ExitError` and `syscall.WaitStatus` type assertions (controller.go:77-85, 130-131) are OS-specific. They are folded into `RunOutcome`: `ExitError(waitStatus, message)` carries `WaitStatus.ExitStatus()` when there is one, which is -1 for a child killed by a signal.
- PgCtl.IsStarted: requires an exit error to carry a wait status. The source reads it with an unchecked type assertion (controller.go:131), which panics otherwise. The panic is not modelled.
- Error values are modelled by their message text. The message of the run's own error, such as "exit status 2", is part of the outcome.
- The global `pg_ctl_bin` path (controller.go:20), `NewController` (controller.go:58-62) and the `dataDir` field are not modelled. They only build the command line.
- Only the fixed pattern `PID: (\d+)` is modelled, not a general regular-expression engine. It matches at the leftmost position, with greedy ASCII digits.
- `strconv.Atoi` assumes a 64-bit `int`: digit runs above 2^63-1 give 2^63-1. A 32-bit platform, which would saturate at 2^31-1, is not modelled. The range error that goes with saturation is ignored by the source, and so by the model.
- Go strings are bytes, while the model's strings are Unicode characters. `TrimSpace` removes the Unicode White_Space characters that Go's `unicode.IsSpace` accepts. Invalid UTF-8 in stdout is not modelled.
- PgCtl.PidOfSpelled: requires no `P` before the spelled PID. That is a simple condition under which the match is the leftmost one. `PgCtl.PidOfMatch` states the general case.
