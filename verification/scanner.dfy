/**
  The per-stream scan loop `searchFile` of main.go, as a deterministic state
  machine over an input sequence of lines.

  The regular expression becomes an opaque total predicate `re`, the
  scanner's input a `seq<string>`, and what the loop prints a sequence of
  output records. One loop iteration is the pure function `Step`; `Run` folds
  it over a prefix of the input and keeps, besides the final state, one
  `Event` per input line saying what that line caused to be printed.
 */
module Scanner {
  import opened Wrappers
  import opened Queue

  /** The context counts the scanner reads from its configuration. */
  datatype Context = Context(before: nat, after: nat)

  /** One printed item: a line of text, or the group separator. */
  datatype Record = Line(text: string) | Sep

  /**
    What one input line caused to be printed: a flush of the window (after a
    separator when `sep`), a line of after-context, or nothing.
   */
  datatype Event = Flush(sep: bool, lines: seq<string>) | AfterLine(text: string) | Silent

  /** The loop variables of `searchFile`. */
  datatype ScanState = ScanState(matches: nat, afterWindow: nat, inAfterWindow: bool, tq: TextQueue)

  datatype StepResult = StepResult(next: ScanState, event: Event)

  datatype RunResult = RunResult(state: ScanState, trace: seq<Event>)

  /** The state before the first line is read. */
  function Initial(): (st: ScanState)
    ensures st.matches == 0 && Len(st.tq) == 0
    ensures st.afterWindow == 0 && !st.inAfterWindow
  {
    ScanState(0, 0, false, NewTextQueue())
  }

  /** True when either context count is positive, so groups are separated. */
  predicate HasContext(ctx: Context)
  {
    ctx.before > 0 || ctx.after > 0
  }

  /**
    One iteration of the loop for the line `text`, whose match decision is
    `isMatch`. Every line is pushed first; a match flushes and purges the
    window and arms the after-window; otherwise the line may be printed as
    after-context, the window is purged when the after-window runs out, and
    the oldest line is dropped when the window is wider than `before`.
   */
  function Step(ctx: Context, isMatch: bool, st: ScanState, text: string): (r: StepResult)
    ensures r.next.matches == if isMatch then st.matches + 1 else st.matches
    ensures Len(st.tq) <= ctx.before ==> Len(r.next.tq) <= ctx.before
  {
    var tq := AddFront(st.tq, text);
    if isMatch then
      var sep := st.matches > 0 && HasContext(ctx);
      StepResult(ScanState(st.matches + 1, ctx.after, true, Purge(tq)), Flush(sep, StringSlice(tq)))
    else
      var printed := st.inAfterWindow && st.afterWindow > 0;
      var afterWindow := if printed then st.afterWindow - 1 else st.afterWindow;
      var ended := st.inAfterWindow && afterWindow == 0;
      var purged := if ended then Purge(tq) else tq;
      var trimmed := if Len(purged) > ctx.before then RemoveBack(purged) else purged;
      StepResult(ScanState(st.matches, afterWindow, st.inAfterWindow && !ended, trimmed),
                 if printed then AfterLine(text) else Silent)
  }

  /**
    What one step prints: a matching line flushes the window followed by the
    line itself, after a separator exactly when an earlier line matched and
    context is configured; any other line is printed, as after-context, exactly
    when the after-window is open and not yet used up.
   */
  lemma StepEvent(ctx: Context, isMatch: bool, st: ScanState, text: string)
    ensures var r := Step(ctx, isMatch, st, text);
      && (r.event.Flush? <==> isMatch)
      && (isMatch ==> Len(r.next.tq) == 0 && r.event.lines == StringSlice(st.tq) + [text])
      && (isMatch ==> (r.event.sep <==> st.matches > 0 && HasContext(ctx)))
      && (r.event.AfterLine? <==> !isMatch && st.inAfterWindow && st.afterWindow > 0)
      && (r.event.AfterLine? ==> r.event.text == text)
  {
  }

  /** The number of lines of `p` the predicate accepts. */
  function CountMatches(re: string -> bool, p: seq<string>): nat
    decreases |p|
  {
    if |p| == 0 then 0
    else CountMatches(re, p[..|p| - 1]) + (if re(p[|p| - 1]) then 1 else 0)
  }

  /** The lines of `p` the predicate accepts, in input order. */
  function Filter(re: string -> bool, p: seq<string>): seq<string>
    decreases |p|
  {
    if |p| == 0 then []
    else Filter(re, p[..|p| - 1]) + (if re(p[|p| - 1]) then [p[|p| - 1]] else [])
  }

  /** How many lines of `p` follow its last matching line; None when none matches. */
  function SinceMatch(re: string -> bool, p: seq<string>): (r: Option<nat>)
    ensures r.Some? ==> r.value < |p|
    decreases |p|
  {
    if |p| == 0 then None
    else if re(p[|p| - 1]) then Some(0)
    else
      match SinceMatch(re, p[..|p| - 1])
      case None => None
      case Some(d) => Some(d + 1)
  }

  /** The number of lines after a match at which its after-window ends: `after`, but at least one. */
  function AfterSpan(ctx: Context): nat
  {
    if ctx.after == 0 then 1 else ctx.after
  }

  /**
    The first line of the prefix `p` that can still be in the window: the
    first line when nothing has matched; the line after the last match while
    that match's after-window lasts; once it has ended, the line after it,
    where the window was purged.
   */
  function PurgePoint(ctx: Context, re: string -> bool, p: seq<string>): (c: nat)
    ensures c <= |p|
  {
    match SinceMatch(re, p)
    case None => 0
    case Some(d) => if d < AfterSpan(ctx) then |p| - d else |p| - d + AfterSpan(ctx)
  }

  /** Where the window after the prefix `p` starts: at the purge point, but no more than `before` lines back. */
  function WindowStart(ctx: Context, re: string -> bool, p: seq<string>): (lo: nat)
    ensures lo <= |p|
  {
    var c := PurgePoint(ctx, re, p);
    if c + ctx.before < |p| then |p| - ctx.before else c
  }

  /** `w` is the window after the prefix `p`: the suffix of `p` from `WindowStart`. */
  ghost predicate WindowOf(ctx: Context, re: string -> bool, p: seq<string>, w: seq<string>)
  {
    w == p[WindowStart(ctx, re, p)..]
  }

  /** No line from the start of the window on is a match. */
  lemma WindowMatchFree(ctx: Context, re: string -> bool, p: seq<string>)
    ensures forall m :: WindowStart(ctx, re, p) <= m < |p| ==> !re(p[m])
  {
    SinceMatchLocates(re, p);
  }

  /** The after-window counters as the distance from the last match determines them. */
  ghost predicate AfterStateOf(ctx: Context, re: string -> bool, p: seq<string>, st: ScanState)
  {
    match SinceMatch(re, p)
    case None => st.afterWindow == 0 && !st.inAfterWindow
    case Some(d) =>
      && st.afterWindow == (if d <= ctx.after then ctx.after - d else 0)
      && st.inAfterWindow == (d == 0 || d < ctx.after)
  }

  /** What the state after reading the prefix `p` is known to be. */
  ghost predicate Inv(ctx: Context, re: string -> bool, p: seq<string>, st: ScanState)
  {
    && st.matches == CountMatches(re, p)
    && WindowOf(ctx, re, p, StringSlice(st.tq))
    && AfterStateOf(ctx, re, p, st)
  }

  /** The scan of the lines `p`: the final state and one event per line. */
  function Run(ctx: Context, re: string -> bool, p: seq<string>): (r: RunResult)
    ensures |r.trace| == |p|
    decreases |p|
  {
    if |p| == 0 then RunResult(Initial(), [])
    else
      var prev := Run(ctx, re, p[..|p| - 1]);
      var s := Step(ctx, re(p[|p| - 1]), prev.state, p[|p| - 1]);
      RunResult(s.next, prev.trace + [s.event])
  }

  /** Appending a line extends the scan by one step. */
  lemma RunSnoc(ctx: Context, re: string -> bool, p: seq<string>, text: string)
    ensures var prev := Run(ctx, re, p);
      var s := Step(ctx, re(text), prev.state, text);
      Run(ctx, re, p + [text]) == RunResult(s.next, prev.trace + [s.event])
  {
    assert (p + [text])[..|p|] == p;
  }

  /** The state after any prefix satisfies `Inv`. */
  lemma {:induction false} RunInv(ctx: Context, re: string -> bool, p: seq<string>)
    ensures Inv(ctx, re, p, Run(ctx, re, p).state)
    decreases |p|
  {
    if |p| > 0 {
      var q := p[..|p| - 1];
      assert q + [p[|p| - 1]] == p;
      RunInv(ctx, re, q);
      RunSnoc(ctx, re, q, p[|p| - 1]);
      StepPreservesInv(ctx, re, q, Run(ctx, re, q).state, p[|p| - 1]);
    }
  }

  /** One step keeps `Inv` when the line read is appended to the prefix. */
  lemma StepPreservesInv(ctx: Context, re: string -> bool, p: seq<string>, st: ScanState, text: string)
    requires Inv(ctx, re, p, st)
    ensures Inv(ctx, re, p + [text], Step(ctx, re(text), st, text).next)
  {
    assert (p + [text])[..|p|] == p;
    StepKeepsWindow(ctx, re, p, st, text);
    StepKeepsAfterState(ctx, re, p, st, text);
  }

  /** One step keeps the window the suffix of the input from `WindowStart`. */
  lemma StepKeepsWindow(ctx: Context, re: string -> bool, p: seq<string>, st: ScanState, text: string)
    requires WindowOf(ctx, re, p, StringSlice(st.tq)) && AfterStateOf(ctx, re, p, st)
    ensures WindowOf(ctx, re, p + [text], StringSlice(Step(ctx, re(text), st, text).next.tq))
  {
    if re(text) {
      var p' := p + [text];
      assert p'[..|p|] == p;
      assert SinceMatch(re, p') == Some(0);
    } else {
      StepKeepsWindowOther(ctx, re, p, st, text);
    }
  }

  /** `StepKeepsWindow` for a line that does not match. */
  lemma StepKeepsWindowOther(ctx: Context, re: string -> bool, p: seq<string>, st: ScanState, text: string)
    requires !re(text)
    requires WindowOf(ctx, re, p, StringSlice(st.tq)) && AfterStateOf(ctx, re, p, st)
    ensures WindowOf(ctx, re, p + [text], StringSlice(Step(ctx, false, st, text).next.tq))
  {
    var p' := p + [text];
    var lo := WindowStart(ctx, re, p);
    assert StringSlice(st.tq) + [text] == p'[lo..];
    WindowStartSnoc(ctx, re, p, text);
    StepEnds(ctx, re, p, st);
    StepWindow(ctx, st, text);
    if SinceMatch(re, p) != Some(AfterSpan(ctx) - 1) && lo + ctx.before < |p| + 1 {
      assert p'[lo..][1..] == p'[lo + 1..];
    }
  }

  /**
    The window a non-matching step leaves: emptied when the step ends the
    after-window, otherwise the old window with the line added and, when it
    has grown wider than `before`, its oldest line dropped.
   */
  lemma StepWindow(ctx: Context, st: ScanState, text: string)
    ensures var afterWindow := if st.inAfterWindow && st.afterWindow > 0 then st.afterWindow - 1 else st.afterWindow;
      var w := StringSlice(st.tq);
      StringSlice(Step(ctx, false, st, text).next.tq)
        == if st.inAfterWindow && afterWindow == 0 then []
           else if |w| + 1 > ctx.before then (w + [text])[1..]
           else w + [text]
  {
  }

  /** How a non-matching line moves the start of the window. */
  lemma WindowStartSnoc(ctx: Context, re: string -> bool, p: seq<string>, text: string)
    requires !re(text)
    ensures var lo := WindowStart(ctx, re, p);
      WindowStart(ctx, re, p + [text])
        == if SinceMatch(re, p) == Some(AfterSpan(ctx) - 1) then |p| + 1
           else if lo + ctx.before < |p| + 1 then lo + 1
           else lo
  {
    PurgePointSnoc(ctx, re, p, text);
  }

  /** A non-matching line moves the purge point past itself exactly when it ends the last match's after-window. */
  lemma PurgePointSnoc(ctx: Context, re: string -> bool, p: seq<string>, text: string)
    requires !re(text)
    ensures PurgePoint(ctx, re, p + [text])
         == if SinceMatch(re, p) == Some(AfterSpan(ctx) - 1) then |p| + 1 else PurgePoint(ctx, re, p)
  {
    SinceMatchSnoc(re, p, text);
    match SinceMatch(re, p)
    case None =>
    case Some(d) =>
      if d + 1 < AfterSpan(ctx) {
        assert PurgePoint(ctx, re, p + [text]) == |p| - d;
      } else if d + 1 == AfterSpan(ctx) {
        assert PurgePoint(ctx, re, p + [text]) == |p| + 1;
      } else {
        assert PurgePoint(ctx, re, p + [text]) == |p| - d + AfterSpan(ctx);
      }
  }

  /** A non-matching line is one more line since the last match. */
  lemma SinceMatchSnoc(re: string -> bool, p: seq<string>, text: string)
    requires !re(text)
    ensures SinceMatch(re, p + [text])
         == match SinceMatch(re, p) case None => None case Some(d) => Some(d + 1)
  {
    assert (p + [text])[..|p|] == p;
  }

  /** A non-matching step ends the after-window exactly when it is the last line of the last match's after-window. */
  lemma StepEnds(ctx: Context, re: string -> bool, p: seq<string>, st: ScanState)
    requires AfterStateOf(ctx, re, p, st)
    ensures var afterWindow := if st.inAfterWindow && st.afterWindow > 0 then st.afterWindow - 1 else st.afterWindow;
      st.inAfterWindow && afterWindow == 0 <==> SinceMatch(re, p) == Some(AfterSpan(ctx) - 1)
  {
  }

  /** One step keeps the after-window counters in line with the distance from the last match. */
  lemma StepKeepsAfterState(ctx: Context, re: string -> bool, p: seq<string>, st: ScanState, text: string)
    requires AfterStateOf(ctx, re, p, st)
    ensures AfterStateOf(ctx, re, p + [text], Step(ctx, re(text), st, text).next)
  {
    assert (p + [text])[..|p|] == p;
  }

  /** The prefix of a scan's trace is the trace of the prefix. */
  lemma {:induction false} RunPrefix(ctx: Context, re: string -> bool, p: seq<string>, j: nat)
    requires j <= |p|
    ensures Run(ctx, re, p[..j]).trace == Run(ctx, re, p).trace[..j]
    decreases |p|
  {
    if j < |p| {
      var q := p[..|p| - 1];
      assert q[..j] == p[..j];
      RunPrefix(ctx, re, q, j);
    } else {
      assert p[..j] == p;
    }
  }

  /** The event of line `j` is the step taken from the state after lines `..j`. */
  lemma EventAt(ctx: Context, re: string -> bool, p: seq<string>, j: nat)
    requires j < |p|
    ensures Run(ctx, re, p).trace[j]
         == Step(ctx, re(p[j]), Run(ctx, re, p[..j]).state, p[j]).event
  {
    var q := p[..j];
    RunPrefix(ctx, re, p, j + 1);
    assert p[..j + 1] == q + [p[j]];
    RunSnoc(ctx, re, q, p[j]);
  }

  /** `SinceMatch` locates the last matching line of a prefix. */
  lemma {:induction false} SinceMatchLocates(re: string -> bool, p: seq<string>)
    ensures SinceMatch(re, p).None? ==> forall m :: 0 <= m < |p| ==> !re(p[m])
    ensures SinceMatch(re, p).Some? ==>
      var d := SinceMatch(re, p).value;
      && d < |p|
      && re(p[|p| - 1 - d])
      && forall m :: |p| - 1 - d < m < |p| ==> !re(p[m])
    decreases |p|
  {
    if |p| > 0 && !re(p[|p| - 1]) {
      SinceMatchLocates(re, p[..|p| - 1]);
    }
  }

  /** A prefix has a positive match count exactly when one of its lines matches. */
  lemma {:induction false} CountMatchesPositive(re: string -> bool, p: seq<string>)
    ensures CountMatches(re, p) > 0 <==> exists m :: 0 <= m < |p| && re(p[m])
    decreases |p|
  {
    if |p| > 0 {
      var q := p[..|p| - 1];
      CountMatchesPositive(re, q);
      if CountMatches(re, q) > 0 {
        var m :| 0 <= m < |q| && re(q[m]);
        assert re(p[m]);
      }
      if exists m :: 0 <= m < |p| && re(p[m]) {
        var m :| 0 <= m < |p| && re(p[m]);
        if m < |q| {
          assert re(q[m]);
        }
      }
    }
  }

  /** Extending a slice by the element right after it. */
  lemma SliceExtend<T>(s: seq<T>, a: nat, b: nat)
    requires a <= b < |s|
    ensures s[a..b] + [s[b]] == s[a..b + 1]
  {
  }

  /** A line's event is a flush exactly when the line matches. */
  lemma FlushIffMatch(ctx: Context, re: string -> bool, p: seq<string>, j: nat)
    requires j < |p|
    ensures Run(ctx, re, p).trace[j].Flush? <==> re(p[j])
  {
    EventAt(ctx, re, p, j);
  }

  /**
    The flush of a matching line `j` prints the input lines from the start of
    the window up to line `j` itself: at most `before + 1` of them, none of
    the earlier ones a match.
   */
  lemma FlushContents(ctx: Context, re: string -> bool, p: seq<string>, j: nat)
    requires j < |p| && re(p[j])
    ensures var ev := Run(ctx, re, p).trace[j];
      && ev.Flush?
      && 1 <= |ev.lines| <= ctx.before + 1
      && |ev.lines| <= j + 1
      && ev.lines[|ev.lines| - 1] == p[j]
      && ev.lines == p[j + 1 - |ev.lines|..j + 1]
      && j + 1 - |ev.lines| == WindowStart(ctx, re, p[..j])
      && forall m :: j + 1 - |ev.lines| <= m < j ==> !re(p[m])
  {
    var st := Run(ctx, re, p[..j]).state;
    EventAt(ctx, re, p, j);
    StepEvent(ctx, true, st, p[j]);
    WindowAt(ctx, re, p, j);
  }

  /** The window in front of line `j`: the input lines from `WindowStart`, none of them a match. */
  lemma WindowAt(ctx: Context, re: string -> bool, p: seq<string>, j: nat)
    requires j < |p|
    ensures var w := StringSlice(Run(ctx, re, p[..j]).state.tq);
      && |w| <= j && |w| <= ctx.before
      && j - |w| == WindowStart(ctx, re, p[..j])
      && w + [p[j]] == p[j - |w|..j + 1]
      && forall m :: j - |w| <= m < j ==> !re(p[m])
  {
    RunInv(ctx, re, p[..j]);
    WindowBeforeLine(ctx, re, p, j, StringSlice(Run(ctx, re, p[..j]).state.tq));
  }

  /**
    The first match prints the `before` lines in front of it, or all of them
    when there are fewer, and then itself.
   */
  lemma FirstFlush(ctx: Context, re: string -> bool, p: seq<string>, j: nat)
    requires j < |p| && re(p[j])
    requires forall m :: 0 <= m < j ==> !re(p[m])
    ensures Run(ctx, re, p).trace[j].Flush?
    ensures Run(ctx, re, p).trace[j].lines == p[(if j < ctx.before then 0 else j - ctx.before)..j + 1]
  {
    FlushContents(ctx, re, p, j);
    NoMatchBefore(re, p, j);
  }

  /**
    A later match, with the previous match at line `i`, prints itself after
    the lines in front of it back to the purge point, but no more than
    `before` of them. The purge point is the line after line `i` while the
    after-window of line `i` lasts up to line `j`, and the line after that
    after-window once it has ended.
   */
  lemma LaterFlush(ctx: Context, re: string -> bool, p: seq<string>, i: nat, j: nat)
    requires i < j < |p| && re(p[i]) && re(p[j])
    requires forall m :: i < m < j ==> !re(p[m])
    ensures Run(ctx, re, p).trace[j].Flush?
    ensures var cut := if j - 1 - i < AfterSpan(ctx) then i + 1 else i + 1 + AfterSpan(ctx);
      Run(ctx, re, p).trace[j].lines == p[(if cut + ctx.before < j then j - ctx.before else cut)..j + 1]
  {
    FlushContents(ctx, re, p, j);
    LastMatchBefore(re, p, i, j);
  }

  /** With no match among the lines before line `j`, nothing has matched since. */
  lemma NoMatchBefore(re: string -> bool, p: seq<string>, j: nat)
    requires j <= |p|
    requires forall m :: 0 <= m < j ==> !re(p[m])
    ensures SinceMatch(re, p[..j]) == None
  {
    var q := p[..j];
    SinceMatchLocates(re, q);
    if SinceMatch(re, q).Some? {
      assert false;
    }
  }

  /** With line `i` the last match before line `j`, `j - 1 - i` lines have passed since a match. */
  lemma LastMatchBefore(re: string -> bool, p: seq<string>, i: nat, j: nat)
    requires i < j <= |p| && re(p[i])
    requires forall m :: i < m < j ==> !re(p[m])
    ensures SinceMatch(re, p[..j]) == Some(j - 1 - i)
  {
    var q := p[..j];
    SinceMatchLocates(re, q);
    assert q[i] == p[i];
    var m := j - 1 - SinceMatch(re, q).value;
    assert q[m] == p[m];
    if m > i {
      assert false;
    }
  }

  /** The window after the lines `..j`, followed by line `j`, is a slice of the input. */
  lemma WindowBeforeLine(ctx: Context, re: string -> bool, p: seq<string>, j: nat, w: seq<string>)
    requires j < |p| && WindowOf(ctx, re, p[..j], w)
    ensures |w| <= j && |w| <= ctx.before && j - |w| == WindowStart(ctx, re, p[..j])
    ensures w + [p[j]] == p[j - |w|..j + 1]
    ensures forall m :: j - |w| <= m < j ==> !re(p[m])
  {
    var q := p[..j];
    WindowMatchFree(ctx, re, q);
    assert w == p[j - |w|..j] by {
      assert q[j - |w|..] == p[j - |w|..j];
    }
    SliceExtend(p, j - |w|, j);
    forall m | j - |w| <= m < j
      ensures !re(p[m])
    {
      assert q[m] == p[m];
    }
  }

  /**
    A flush is preceded by a separator exactly when context is configured and
    an earlier line matched.
   */
  lemma SeparatorIff(ctx: Context, re: string -> bool, p: seq<string>, j: nat)
    requires j < |p| && re(p[j])
    ensures var ev := Run(ctx, re, p).trace[j];
      ev.Flush? && (ev.sep <==> HasContext(ctx) && exists m :: 0 <= m < j && re(p[m]))
  {
    EventAt(ctx, re, p, j);
    RunInv(ctx, re, p[..j]);
    CountMatchesPositive(re, p[..j]);
    if exists m :: 0 <= m < j && re(p[m]) {
      var m :| 0 <= m < j && re(p[m]);
      assert p[..j][m] == p[m];
    }
  }

  /**
    A line is printed as after-context exactly when it does not match and one
    of the `after` lines before it does; the printed text is the line itself.
   */
  lemma AfterLineIff(ctx: Context, re: string -> bool, p: seq<string>, j: nat)
    requires j < |p|
    ensures var ev := Run(ctx, re, p).trace[j];
      && (ev.AfterLine? <==> !re(p[j]) && exists m :: j - ctx.after <= m < j && 0 <= m && re(p[m]))
      && (ev.AfterLine? ==> ev.text == p[j])
  {
    EventAt(ctx, re, p, j);
    RunInv(ctx, re, p[..j]);
    RecentMatch(re, p, j, ctx.after);
  }

  /** One of the `n` lines before line `j` matches exactly when the last match is fewer than `n` lines back. */
  lemma RecentMatch(re: string -> bool, p: seq<string>, j: nat, n: nat)
    requires j <= |p|
    ensures (exists m :: j - n <= m < j && 0 <= m && re(p[m]))
        <==> SinceMatch(re, p[..j]).Some? && SinceMatch(re, p[..j]).value < n
  {
    var q := p[..j];
    SinceMatchLocates(re, q);
    if exists m :: j - n <= m < j && 0 <= m && re(p[m]) {
      var m :| j - n <= m < j && 0 <= m && re(p[m]);
      assert re(q[m]);
    }
    if SinceMatch(re, q).Some? && SinceMatch(re, q).value < n {
      var d := SinceMatch(re, q).value;
      assert q[j - 1 - d] == p[j - 1 - d];
    }
  }

  /** The number of after-context events in a stretch of trace. */
  function CountAfterLines(t: seq<Event>): nat
    decreases |t|
  {
    if |t| == 0 then 0
    else CountAfterLines(t[..|t| - 1]) + (if t[|t| - 1].AfterLine? then 1 else 0)
  }

  /** A stretch whose after-context events all sit in its first `n` places holds at most `n`. */
  lemma {:induction false} CountAfterLinesBound(t: seq<Event>, n: nat)
    requires forall k :: n <= k < |t| ==> !t[k].AfterLine?
    ensures CountAfterLines(t) <= n
    decreases |t|
  {
    if |t| > n {
      var u := t[..|t| - 1];
      forall k | n <= k < |u|
        ensures !u[k].AfterLine?
      {
        assert u[k] == t[k];
      }
      CountAfterLinesBound(u, n);
    } else if |t| > 0 {
      CountAfterLinesAtMostLength(t);
    }
  }

  lemma {:induction false} CountAfterLinesAtMostLength(t: seq<Event>)
    ensures CountAfterLines(t) <= |t|
    decreases |t|
  {
    if |t| > 0 {
      CountAfterLinesAtMostLength(t[..|t| - 1]);
    }
  }

  /**
    Between a match at line `i` and the next match (or the end of the
    stretch `i + 1 .. j`), at most `after` lines are printed as after-context.
   */
  lemma AfterContextBound(ctx: Context, re: string -> bool, p: seq<string>, i: nat, j: nat)
    requires i < j <= |p| && re(p[i])
    requires forall m :: i < m < j ==> !re(p[m])
    ensures CountAfterLines(Run(ctx, re, p).trace[i + 1..j]) <= ctx.after
  {
    var tr := Run(ctx, re, p).trace;
    var t := tr[i + 1..j];
    forall k | ctx.after <= k < |t|
      ensures !t[k].AfterLine?
    {
      NoAfterLineFarFromMatch(ctx, re, p, i, i + 1 + k);
      assert t[k] == tr[i + 1 + k];
    }
    CountAfterLinesBound(t, ctx.after);
  }

  /** A line more than `after` lines past a match, with no match in between, is not after-context. */
  lemma NoAfterLineFarFromMatch(ctx: Context, re: string -> bool, p: seq<string>, i: nat, l: nat)
    requires i + ctx.after < l < |p|
    requires forall m :: i < m <= l ==> !re(p[m])
    ensures !Run(ctx, re, p).trace[l].AfterLine?
  {
    AfterLineIff(ctx, re, p, l);
  }

  /** The records a line's event puts on the output. */
  function EventRecords(ev: Event): seq<Record>
  {
    match ev
    case Flush(sep, ls) => (if sep then [Sep] else []) + LineRecords(ls)
    case AfterLine(t) => [Line(t)]
    case Silent => []
  }

  /** Each text as a line record, in order. */
  function LineRecords(ls: seq<string>): (rs: seq<Record>)
    ensures |rs| == |ls|
    ensures forall i :: 0 <= i < |ls| ==> rs[i] == Line(ls[i])
  {
    seq(|ls|, i requires 0 <= i < |ls| => Line(ls[i]))
  }

  /** Everything a trace puts on the output, in order. */
  function Output(t: seq<Event>): seq<Record>
    decreases |t|
  {
    if |t| == 0 then [] else Output(t[..|t| - 1]) + EventRecords(t[|t| - 1])
  }

  /** The number of separators among the records. */
  function CountSeps(rs: seq<Record>): nat
  {
    multiset(rs)[Sep]
  }

  /** What `SearchFile` knows after reading the prefix `p`, holding state `st` and having printed `out`. */
  ghost predicate SearchInv(ctx: Context, re: string -> bool, p: seq<string>, st: ScanState, out: seq<Record>)
  {
    && st == Run(ctx, re, p).state
    && out == Output(Run(ctx, re, p).trace)
    && (st.matches == 0 ==> !st.inAfterWindow && out == [])
    && CountSeps(out) == (if !HasContext(ctx) || st.matches == 0 then 0 else st.matches - 1)
    && (!HasContext(ctx) ==> out == LineRecords(Filter(re, p)))
  }

  /** One loop iteration of `SearchFile` keeps `SearchInv`. */
  lemma SearchStep(ctx: Context, re: string -> bool, p: seq<string>, st: ScanState, out: seq<Record>, text: string)
    requires SearchInv(ctx, re, p, st, out)
    ensures var r := Step(ctx, re(text), st, text);
      SearchInv(ctx, re, p + [text], r.next, out + EventRecords(r.event))
  {
    var r := Step(ctx, re(text), st, text);
    var out' := out + EventRecords(r.event);
    RunSnoc(ctx, re, p, text);
    OutputSnoc(Run(ctx, re, p).trace, r.event);
    assert r.next == Run(ctx, re, p + [text]).state;
    assert out' == Output(Run(ctx, re, p + [text]).trace);
    StepKeepsSeps(ctx, st, out, text, re(text));
    StepBeforeFirstMatch(ctx, st, out, text, re(text));
    if !HasContext(ctx) {
      NoContextState(ctx, re, p);
      FilterSnoc(re, p, text);
      StepWithoutContext(ctx, st, Filter(re, p), text, re(text));
    }
  }

  /** Without context the window is always empty and no after-context is pending. */
  lemma NoContextState(ctx: Context, re: string -> bool, p: seq<string>)
    requires !HasContext(ctx)
    ensures Len(Run(ctx, re, p).state.tq) == 0 && Run(ctx, re, p).state.afterWindow == 0
  {
    RunInv(ctx, re, p);
  }

  /** A step adds one separator exactly for a match that is not the first, when context is configured. */
  lemma StepKeepsSeps(ctx: Context, st: ScanState, out: seq<Record>, text: string, isMatch: bool)
    requires CountSeps(out) == (if !HasContext(ctx) || st.matches == 0 then 0 else st.matches - 1)
    ensures var r := Step(ctx, isMatch, st, text);
      CountSeps(out + EventRecords(r.event))
        == (if !HasContext(ctx) || r.next.matches == 0 then 0 else r.next.matches - 1)
  {
    SepsOfEvent(Step(ctx, isMatch, st, text).event);
  }

  /** Until the first match the after-window stays closed and nothing is printed. */
  lemma StepBeforeFirstMatch(ctx: Context, st: ScanState, out: seq<Record>, text: string, isMatch: bool)
    requires st.matches == 0 ==> !st.inAfterWindow && out == []
    ensures var r := Step(ctx, isMatch, st, text);
      r.next.matches == 0 ==> !r.next.inAfterWindow && out + EventRecords(r.event) == []
  {
  }

  /** Without context, and with an empty window and no after-context pending, a step prints exactly the line when it matches. */
  lemma StepWithoutContext(ctx: Context, st: ScanState, found: seq<string>, text: string, isMatch: bool)
    requires !HasContext(ctx) && Len(st.tq) == 0 && st.afterWindow == 0
    ensures var r := Step(ctx, isMatch, st, text);
      LineRecords(found) + EventRecords(r.event)
        == LineRecords(found + (if isMatch then [text] else []))
  {
    var r := Step(ctx, isMatch, st, text);
    LineRecordsAppend(found, if isMatch then [text] else []);
    if isMatch {
      assert r.event.lines == [text];
    } else {
      assert r.event == Silent;
    }
  }

  lemma OutputSnoc(t: seq<Event>, ev: Event)
    ensures Output(t + [ev]) == Output(t) + EventRecords(ev)
  {
    assert (t + [ev])[..|t|] == t;
  }

  lemma FilterSnoc(re: string -> bool, p: seq<string>, text: string)
    ensures Filter(re, p + [text]) == Filter(re, p) + (if re(text) then [text] else [])
  {
    assert (p + [text])[..|p|] == p;
  }

  lemma LineRecordsAppend(a: seq<string>, b: seq<string>)
    ensures LineRecords(a + b) == LineRecords(a) + LineRecords(b)
  {
  }

  /** An event contributes one separator when it is a flush marked `sep`, and none otherwise. */
  lemma SepsOfEvent(ev: Event)
    ensures CountSeps(EventRecords(ev)) == if ev.Flush? && ev.sep then 1 else 0
  {
    if ev.Flush? {
      var ls := LineRecords(ev.lines);
      assert Sep !in ls;
      assert multiset(ls)[Sep] == 0;
    }
  }

  /**
    The scan loop over one stream: returns the number of matching lines and
    the records printed, which are those of the scan's trace.
   */
  method SearchFile(ctx: Context, re: string -> bool, lines: seq<string>) returns (matches: nat, out: seq<Record>)
    ensures matches == CountMatches(re, lines)
    ensures out == Output(Run(ctx, re, lines).trace)
    ensures CountSeps(out) == if !HasContext(ctx) || matches == 0 then 0 else matches - 1
    ensures !HasContext(ctx) ==> out == LineRecords(Filter(re, lines))
    ensures matches == 0 ==> out == []
  {
    var st := Initial();
    out := [];
    var i := 0;
    assert lines[..0] == [];
    while i < |lines|
      invariant 0 <= i <= |lines|
      invariant SearchInv(ctx, re, lines[..i], st, out)
    {
      var text := lines[i];
      assert lines[..i + 1] == lines[..i] + [text];
      SearchStep(ctx, re, lines[..i], st, out, text);
      var r := Step(ctx, re(text), st, text);
      out := out + EventRecords(r.event);
      st := r.next;
      i := i + 1;
    }
    assert lines[..i] == lines;
    RunInv(ctx, re, lines);
    matches := st.matches;
  }
}
