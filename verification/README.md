# greg2 scan engine in Dafny

A model of the core of greg2, a small grep written in Go. It reports the lines
of its input that a regular expression matches. It can also print up to
`-before` lines of context before each match and up to `-after` lines after
it. It puts a separator line `----------` between groups of matches when
context is asked for.

The model has four modules.

- `Queue` (textqueue.dfy) models the `TextQueue` of textqueue.go. It is the
  elastic sliding window of lines, kept in the Go code as a linked list whose
  front holds the newest line. Here it is a sequence read from the back of the
  list to its front. Its operations `NewTextQueue`, `AddFront`, `RemoveBack`,
  `Len`, `StringSlice` and `Purge` are pure functions.
- `Scanner` (scanner.dfy) models the loop of `searchFile` in main.go.
  - One iteration of the loop is the function `Step`.
  - `Run` folds `Step` over the input lines. It keeps one `Event` per line: a
    flush of the window (after a separator when `sep`), a line printed as
    after-context, or nothing.
  - `Output` turns the events into output records, `Line(text)` or `Sep`.
  - The method `SearchFile` is the loop itself. It is proved to return the
    number of matching lines and to print exactly the records of the trace.
  - The lemmas characterise every line's event in terms of the input alone.
- `Driver` (driver.dfy) models the parts of main.go around the loop:
  - the negative-count check and the `-filenames` decision of
    `configureFromFlags`;
  - `printLine`, which drops lines when quiet and otherwise prefixes them with
    `filename:` when file names are shown;
  - `main`'s loop over the file arguments, with standard input read when there
    are none;
  - the choice of exit status.
- `ScanExamples` (examples_scan.dfy) works through complete scans. They hold
  for any line texts and any predicate that accepts exactly the lines marked
  as matches.

The regular expression becomes an arbitrary total predicate `re: string -> bool`.
Each input stream becomes the sequence of its lines. What the program writes to
standard output becomes a sequence of records. `Driver.Render` turns records
into output lines.

The model follows the code as written. Every line is pushed into the window,
including lines printed as after-context. So a line printed as after-context
is printed again in the next group's flush while it is still in the window
(`ScanExamples.ReprintExample`). With `-after 0`, the line right after a match
closes the empty after-window and is purged from the window at once
(`ScanExamples.NoAfterContextExample`).

## Model

| member | source | states |
|---|---|---|
| Queue.NewTextQueue | textqueue.go:11-14 | A new queue holds no lines: its length is 0 and its snapshot is empty. |
| Queue.Len | textqueue.go:28-31 | The length is 0 exactly when the queue holds no lines. |
| Queue.StringSlice | textqueue.go:33-40 | The snapshot has exactly as many lines as the queue reports. |
| Queue.AddFront | textqueue.go:16-19 | Pushing a line increases the length by one. The pushed line becomes the last (newest) line of the snapshot, and the earlier lines are unchanged. |
| Queue.RemoveBack | textqueue.go:21-26 | On an empty queue it changes nothing. Otherwise the length drops by one and exactly the oldest line, the first of the snapshot, is gone. |
| Queue.Purge | textqueue.go:42-45 | Afterwards the queue is empty, whatever it held before. |
| Queue.AddFrontOrder | textqueue.go:16-40 | Pushing `a` and then `b` onto an empty queue reads back as `[a, b]`. |
| Queue.SlideKeepsNewest | textqueue.go:16-26 | Pushing lines and dropping the oldest whenever the queue is wider than `n` keeps exactly the newest `min(n, pushed)` lines, oldest first. |
| Scanner.Initial | main.go:114-117 | Before the first line nothing has matched, the window is empty and no after-context is pending. |
| Scanner.Step | main.go:119-155 | One iteration counts the line as a match exactly when the predicate accepts it. A window no wider than `before` stays no wider than `before`. |
| Scanner.StepEvent | main.go:121-144 | A step flushes exactly when the line matches. A flush prints the window followed by the line itself, preceded by a separator exactly when an earlier line matched and context is configured. Otherwise the line is printed as after-context exactly when the after-window is open and positive. |
| Scanner.Run | main.go:118-156 | The scan of a stream has one event per input line. |
| Scanner.RunInv | main.go:114-156 | After any prefix of the input, the match count is the number of accepted lines. The window is exactly the input from `WindowStart` to the end of the prefix: from the purge point, but no more than `before` lines back. The purge point is the first line when nothing has matched, the line after the last match while its after-window lasts, and the line after that after-window once it has ended. The after-window counters are fixed by the distance from the last match. |
| Scanner.RunPrefix | main.go:118-156 | The scan of a prefix of the input yields the prefix of the scan's events. |
| Scanner.FlushIffMatch | main.go:122-137 | A line's event is a flush if and only if the line matches. |
| Scanner.FlushContents | main.go:121-134 | The flush of a match prints the input lines from `WindowStart` of the lines before it up to the match itself. That is between 1 and `before + 1` lines, and none of the earlier ones is a match. |
| Scanner.WindowAt | main.go:121-134 | The window in front of any line is the input from `WindowStart` up to that line: at most `before` lines, none of them a match. |
| Scanner.FirstFlush | main.go:114-134 | The first match prints the `before` lines in front of it, or all of them when there are fewer, and then itself. |
| Scanner.LaterFlush | main.go:121-155 | A later match prints the lines in front of it back to the purge point, but no more than `before` of them, and then itself. The purge point is the line after the previous match while that match's after-window lasts, and the line after the after-window once it has ended. |
| Scanner.StepKeepsWindow | main.go:121-155 | One step keeps the window equal to the input from `WindowStart`: a match empties it, and any other line is appended, purged or trimmed to `before` lines as that start moves. |
| Scanner.StepWindow | main.go:139-155 | A non-matching line empties the window when it ends the after-window. Otherwise it is appended, and the oldest line is dropped when the window grows wider than `before`. |
| Scanner.StepEnds | main.go:139-150 | A non-matching line ends the after-window exactly when it is the last line of the last match's after-window: line `after` after it, or line 1 with `-after 0`. |
| Scanner.WindowStartSnoc | main.go:145-155 | A non-matching line moves the start of the window past itself when it ends the after-window. Otherwise the start moves by one when the window would exceed `before` lines, and stays put when it would not. |
| Scanner.PurgePointSnoc | main.go:145-150 | A non-matching line moves the purge point past itself exactly when it ends the last match's after-window, and leaves it unchanged otherwise. |
| Scanner.WindowMatchFree | main.go:121-137 | No line in the window is a match, because every match empties it. |
| Scanner.SeparatorIff | main.go:126-128 | A flush is preceded by a separator if and only if context is configured and an earlier line matched. |
| Scanner.AfterLineIff | main.go:135-150 | A line is printed as after-context if and only if it does not match and one of the `after` lines before it does. The printed text is the line itself. |
| Scanner.AfterContextBound | main.go:135-144 | Between a match and the next match, at most `after` lines are printed as after-context. |
| Scanner.SearchFile | main.go:112-158 | The loop returns the number of matching lines and prints the records of the scan. The number of separators is `matches - 1` with context configured and 0 otherwise. Without context the records are exactly the matching lines in input order. No match means no output. |
| Scanner.SearchStep | main.go:118-156 | One iteration keeps the loop's invariant: the state and the output are those of the scan, and the separator count holds. |
| Scanner.StepKeepsSeps | main.go:126-129 | A step adds one separator exactly for a match that is not the first, when context is configured. |
| Scanner.StepWithoutContext | main.go:121-155 | Without context, a step prints the line alone when it matches and nothing otherwise. |
| Scanner.NoContextState | main.go:134-155 | Without context the window stays empty and no after-context is pending. |
| Scanner.SepsOfEvent | main.go:126-132 | Only a flush marked with a separator contributes a separator record. |
| Driver.ResolveFilenames | main.go:78-92 | The `-filenames` value is accepted if and only if it is `auto`, `no` or `yes`. File names are shown if and only if it is `yes`, or `auto` with more than one file argument. |
| Driver.AutoFilenames | main.go:79-84 | `auto` behaves as `yes` with several file arguments and as `no` otherwise. |
| Driver.Configure | main.go:74-92 | The flags are accepted if and only if both counts are non-negative and the `-filenames` value is valid. A negative count is reported first. An accepted configuration carries the counts, `quiet` and the file name decision unchanged. |
| Driver.PrintLine | main.go:102-109 | Nothing is printed when quiet. Otherwise one line is printed: the text, prefixed with `filename:` when file names are shown. |
| Driver.RenderLoud | main.go:102-132 | When not quiet, each record gives one output line in order: a separator as `----------`, and a line as `printLine` writes it. |
| Driver.RenderQuiet | main.go:102-132 | When quiet, only the separators are printed, one per separator record. |
| Driver.ExitStatus | main.go:40-46 | The status is 2 if and only if a file could not be opened. It is 0 if and only if no file failed and some stream matched, and 1 if and only if no file failed and nothing matched. |
| Driver.SearchAll | main.go:20-46 | The files are searched in argument order and their outputs concatenated; without arguments standard input is searched under the name `stdin`. The status is 2 exactly when some file is unreadable, 0 exactly when none is and some searched stream matched, and 1 exactly when none is and no searched stream matched. |
| Driver.SomeSnoc | main.go:24-36 | The "some file failed" and "some file matched" flags grow one argument at a time. |
| Driver.Greg | main.go:20-92 | Refused flags end the run with status 1 before any input is read. Accepted flags lead to the search of the files, or of standard input when there are none, with the output of `SearchAll` and its status: 2 when a file is unreadable, otherwise 0 when a stream matched and 1 when none did. |
| ScanExamples.GroupsExample | main.go:118-156 | With `-before 2 -after 1` over `a b E1 c d E2 e`, the output is `a b E1 c`, a separator, then `d E2 e`, with 2 matches. |
| ScanExamples.AfterWindowPurgeExample | main.go:139-150 | With one line of context each side, over `M1 c d M2`, the line `c` shown as after-context is purged and is not printed again. |
| ScanExamples.ReprintExample | main.go:121-144 | With `-before 1 -after 2`, over `M1 c M2`, the line `c` is printed as after-context and printed again in the second group. |
| ScanExamples.NoAfterContextExample | main.go:135-150 | With `-before 1 -after 0`, over `M1 x M2`, the line right after a match is purged and is not printed as before-context. |

## Left out

- Flag parsing and `os.Exit` (main.go:64-73, 75-76, 90-91) are not modelled. `Driver.Configure` receives the parsed values and returns an error value in place of the fatal message. `Driver.Greg` turns that error into status 1.
- A `-match` pattern that does not compile makes `regexp.MustCompile` panic after the flags are accepted (main.go:93-97). This is not modelled: `Driver.Greg` assumes the pattern compiles, so its promise that accepted flags lead to the search holds only for such patterns.
- The regular expression is not modelled, including its compilation, RE2 semantics and the `(?i)` prefix for `-ignorecase` (main.go:93-97). Matching is an arbitrary total predicate.
- Opening, reading and closing files and standard input are not modelled, and neither is `bufio.Scanner`'s line splitting with its line-length limit and read errors (main.go:25, 35, 113, 118-119). A stream is the sequence of its lines. A file that cannot be opened is `Driver.Source.Unreadable`. The error message written to standard error is not modelled.
- The `container/list` pointer structure behind `TextQueue` is not modelled (textqueue.go:3, 8); a sequence holds the same lines in the same order.
- Go's `int` width is not modelled: counts are unbounded naturals, so the match counter cannot overflow.
- Scanner.Step: its contract states only the match count and the window bound. What each step prints is stated separately, in `Scanner.StepEvent` and in the per-line lemmas built on it.
- Some promises need no lemma, because every operation is a pure function of its inputs: `StringSlice` leaves the queue unchanged, two calls give equal results, and two runs with the same configuration and input produce the same output.
