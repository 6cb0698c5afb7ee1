/**
  Worked scans that pin down the behaviour of the loop as written, for any
  line texts and any predicate that accepts exactly the lines marked as
  matches. Some show consequences of pushing every line, after-context lines
  included, into the window.
 */
module ScanExamples {
  import opened Queue
  import opened Scanner

  /** Reading one more line, whose step is known, extends the scan by that step's records. */
  lemma Extend(ctx: Context, re: string -> bool, q: seq<string>, text: string, p: seq<string>,
               st: ScanState, out: seq<Record>, next: ScanState, ev: Event, printed: seq<Record>, out': seq<Record>)
    requires p == q + [text]
    requires Run(ctx, re, q).state == st && Output(Run(ctx, re, q).trace) == out
    requires Step(ctx, re(text), st, text) == StepResult(next, ev)
    requires EventRecords(ev) == printed && out' == out + printed
    ensures Run(ctx, re, p).state == next
    ensures Output(Run(ctx, re, p).trace) == out'
  {
    RunSnoc(ctx, re, q, text);
    OutputSnoc(Run(ctx, re, q).trace, ev);
  }

  /** A non-matching line read outside any after-window is only pushed. */
  lemma HeldStep(ctx: Context, st: ScanState, text: string)
    requires !st.inAfterWindow && Len(st.tq) < ctx.before
    ensures Step(ctx, false, st, text)
         == StepResult(ScanState(st.matches, st.afterWindow, false, AddFront(st.tq, text)), Silent)
  {
  }

  /** A matching line flushes the window followed by itself and arms the after-window. */
  lemma MatchStep(ctx: Context, st: ScanState, text: string)
    ensures Step(ctx, true, st, text)
         == StepResult(ScanState(st.matches + 1, ctx.after, true, TextQueue([])),
                       Flush(st.matches > 0 && HasContext(ctx), StringSlice(st.tq) + [text]))
  {
  }

  /** A first line that matches is flushed alone and arms the after-window. */
  lemma FirstMatch(ctx: Context, re: string -> bool, a: string)
    requires re(a)
    ensures Run(ctx, re, [a]).state == ScanState(1, ctx.after, true, TextQueue([]))
    ensures Output(Run(ctx, re, [a]).trace) == [Line(a)]
  {
    MatchStep(ctx, Initial(), a);
    assert StringSlice(Initial().tq) + [a] == [a];
    assert LineRecords([a]) == [Line(a)];
    assert [] + [a] == [a];
    Extend(ctx, re, [], a, [a],
           Initial(), [], ScanState(1, ctx.after, true, TextQueue([])), Flush(false, [a]), [Line(a)], [Line(a)]);
  }

  /** Over `M1 c`, with one line of context each side, `c` is printed as after-context and the window purged. */
  lemma AfterWindowPurge2(re: string -> bool, a: string, c: string)
    requires re(a) && !re(c)
    ensures Run(Context(1, 1), re, [a, c]).state == ScanState(1, 0, false, TextQueue([]))
    ensures Output(Run(Context(1, 1), re, [a, c]).trace) == [Line(a), Line(c)]
  {
    var ctx := Context(1, 1);
    var s1 := ScanState(1, 1, true, TextQueue([]));
    FirstMatch(ctx, re, a);
    assert Step(ctx, false, s1, c) == StepResult(ScanState(1, 0, false, TextQueue([])), AfterLine(c));
    assert [a] + [c] == [a, c];
    Extend(ctx, re, [a], c, [a, c],
           s1, [Line(a)], ScanState(1, 0, false, TextQueue([])), AfterLine(c), [Line(c)], [Line(a), Line(c)]);
  }

  /** Over `M1 c d`, with one line of context each side, `d` is held in the window. */
  lemma AfterWindowPurge3(re: string -> bool, a: string, c: string, d: string)
    requires re(a) && !re(c) && !re(d)
    ensures Run(Context(1, 1), re, [a, c, d]).state == ScanState(1, 0, false, TextQueue([d]))
    ensures Output(Run(Context(1, 1), re, [a, c, d]).trace) == [Line(a), Line(c)]
  {
    var ctx := Context(1, 1);
    var s2 := ScanState(1, 0, false, TextQueue([]));
    AfterWindowPurge2(re, a, c);
    HeldStep(ctx, s2, d);
    assert AddFront(s2.tq, d) == TextQueue([d]);
    assert [a, c] + [d] == [a, c, d];
    Extend(ctx, re, [a, c], d, [a, c, d],
           s2, [Line(a), Line(c)], ScanState(1, 0, false, TextQueue([d])), Silent, [], [Line(a), Line(c)]);
  }

  /**
    With one line of context each side, over `M1 c d M2`: `c` is printed as
    after-context and the purge that ends the after-window keeps it out of
    the second group, which is only `d M2`.
   */
  lemma AfterWindowPurgeExample(re: string -> bool, a: string, c: string, d: string, b: string)
    requires re(a) && !re(c) && !re(d) && re(b)
    ensures Output(Run(Context(1, 1), re, [a, c, d, b]).trace) == [Line(a), Line(c), Sep, Line(d), Line(b)]
  {
    var ctx := Context(1, 1);
    var s3 := ScanState(1, 0, false, TextQueue([d]));
    AfterWindowPurge3(re, a, c, d);
    assert Step(ctx, true, s3, b) == StepResult(ScanState(2, 1, true, TextQueue([])), Flush(true, [d, b])) by {
      MatchStep(ctx, s3, b);
      assert StringSlice(s3.tq) + [b] == [d, b];
    }
    assert LineRecords([d, b]) == [Line(d), Line(b)];
    assert [a, c, d] + [b] == [a, c, d, b];
    Extend(ctx, re, [a, c, d], b, [a, c, d, b],
           s3, [Line(a), Line(c)], ScanState(2, 1, true, TextQueue([])), Flush(true, [d, b]), [Sep, Line(d), Line(b)], [Line(a), Line(c), Sep, Line(d), Line(b)]);
  }

  /** Over `M1 c`, with one line of before-context and two of after-context, `c` is printed and stays in the window. */
  lemma Reprint2(re: string -> bool, a: string, c: string)
    requires re(a) && !re(c)
    ensures Run(Context(1, 2), re, [a, c]).state == ScanState(1, 1, true, TextQueue([c]))
    ensures Output(Run(Context(1, 2), re, [a, c]).trace) == [Line(a), Line(c)]
  {
    var ctx := Context(1, 2);
    var s1 := ScanState(1, 2, true, TextQueue([]));
    FirstMatch(ctx, re, a);
    assert AddFront(s1.tq, c) == TextQueue([c]);
    assert Step(ctx, false, s1, c) == StepResult(ScanState(1, 1, true, TextQueue([c])), AfterLine(c));
    assert [a] + [c] == [a, c];
    Extend(ctx, re, [a], c, [a, c],
           s1, [Line(a)], ScanState(1, 1, true, TextQueue([c])), AfterLine(c), [Line(c)], [Line(a), Line(c)]);
  }

  /**
    One line of before-context and two of after-context, over `M1 c M2`: `c`
    is printed as after-context and, being still in the window when `M2`
    arrives, printed again in the second group.
   */
  lemma ReprintExample(re: string -> bool, a: string, c: string, b: string)
    requires re(a) && !re(c) && re(b)
    ensures Output(Run(Context(1, 2), re, [a, c, b]).trace) == [Line(a), Line(c), Sep, Line(c), Line(b)]
  {
    var ctx := Context(1, 2);
    var s2 := ScanState(1, 1, true, TextQueue([c]));
    Reprint2(re, a, c);
    MatchStep(ctx, s2, b);
    assert StringSlice(s2.tq) + [b] == [c, b];
    assert LineRecords([c, b]) == [Line(c), Line(b)];
    assert [a, c] + [b] == [a, c, b];
    Extend(ctx, re, [a, c], b, [a, c, b],
           s2, [Line(a), Line(c)], ScanState(2, 2, true, TextQueue([])), Flush(true, [c, b]), [Sep, Line(c), Line(b)], [Line(a), Line(c), Sep, Line(c), Line(b)]);
  }

  /** Over `M1 x`, with one line of before-context and none after, `x` is purged at once. */
  lemma NoAfterContext2(re: string -> bool, a: string, x: string)
    requires re(a) && !re(x)
    ensures Run(Context(1, 0), re, [a, x]).state == ScanState(1, 0, false, TextQueue([]))
    ensures Output(Run(Context(1, 0), re, [a, x]).trace) == [Line(a)]
  {
    var ctx := Context(1, 0);
    var s1 := ScanState(1, 0, true, TextQueue([]));
    FirstMatch(ctx, re, a);
    assert Step(ctx, false, s1, x) == StepResult(ScanState(1, 0, false, TextQueue([])), Silent);
    assert [a] + [x] == [a, x];
    Extend(ctx, re, [a], x, [a, x],
           s1, [Line(a)], ScanState(1, 0, false, TextQueue([])), Silent, [], [Line(a)]);
  }

  /**
    One line of before-context and none after, over `M1 x M2`: the line right
    after a match is purged when the empty after-window closes, so it is not
    printed as before-context of `M2`.
   */
  lemma NoAfterContextExample(re: string -> bool, a: string, x: string, b: string)
    requires re(a) && !re(x) && re(b)
    ensures Output(Run(Context(1, 0), re, [a, x, b]).trace) == [Line(a), Sep, Line(b)]
  {
    var ctx := Context(1, 0);
    var s2 := ScanState(1, 0, false, TextQueue([]));
    NoAfterContext2(re, a, x);
    MatchStep(ctx, s2, b);
    assert StringSlice(s2.tq) + [b] == [b];
    assert LineRecords([b]) == [Line(b)];
    assert [a, x] + [b] == [a, x, b];
    Extend(ctx, re, [a, x], b, [a, x, b],
           s2, [Line(a)], ScanState(2, 0, true, TextQueue([])), Flush(true, [b]), [Sep, Line(b)], [Line(a), Sep, Line(b)]);
  }

  /** Over `a b`, with two lines of before-context and one after, both lines are held. */
  lemma GroupsWalk2(re: string -> bool, a: string, b: string)
    requires !re(a) && !re(b)
    ensures Run(Context(2, 1), re, [a, b]).state == ScanState(0, 0, false, TextQueue([a, b]))
    ensures Output(Run(Context(2, 1), re, [a, b]).trace) == []
  {
    var ctx := Context(2, 1);
    var s1 := ScanState(0, 0, false, TextQueue([a]));
    HeldStep(ctx, Initial(), a);
    assert AddFront(Initial().tq, a) == s1.tq;
    assert [] + [a] == [a];
    Extend(ctx, re, [], a, [a],
           Initial(), [], s1, Silent, [], []);
    HeldStep(ctx, s1, b);
    assert AddFront(s1.tq, b) == TextQueue([a, b]);
    assert [a] + [b] == [a, b];
    Extend(ctx, re, [a], b, [a, b],
           s1, [], ScanState(0, 0, false, TextQueue([a, b])), Silent, [], []);
  }

  /** The match `E1` seen with `a b` held flushes all three, with no separator before the first group. */
  lemma GroupsFlush1(a: string, b: string, e1: string)
    ensures Step(Context(2, 1), true, ScanState(0, 0, false, TextQueue([a, b])), e1)
         == StepResult(ScanState(1, 1, true, TextQueue([])), Flush(false, [a, b, e1]))
    ensures EventRecords(Flush(false, [a, b, e1])) == [Line(a), Line(b), Line(e1)]
  {
    var s2 := ScanState(0, 0, false, TextQueue([a, b]));
    MatchStep(Context(2, 1), s2, e1);
    assert StringSlice(s2.tq) + [e1] == [a, b, e1];
    assert LineRecords([a, b, e1]) == [Line(a), Line(b), Line(e1)];
  }

  /** Then the match `E1` flushes `a b E1`. */
  lemma GroupsWalk3(re: string -> bool, a: string, b: string, e1: string)
    requires !re(a) && !re(b) && re(e1)
    ensures Run(Context(2, 1), re, [a, b, e1]).state == ScanState(1, 1, true, TextQueue([]))
    ensures Output(Run(Context(2, 1), re, [a, b, e1]).trace) == [Line(a), Line(b), Line(e1)]
  {
    var ctx := Context(2, 1);
    var s2 := ScanState(0, 0, false, TextQueue([a, b]));
    GroupsWalk2(re, a, b);
    GroupsFlush1(a, b, e1);
    assert [a, b] + [e1] == [a, b, e1];
    Extend(ctx, re, [a, b], e1, [a, b, e1],
           s2, [], ScanState(1, 1, true, TextQueue([])), Flush(false, [a, b, e1]), [Line(a), Line(b), Line(e1)], [Line(a), Line(b), Line(e1)]);
  }

  /** Then `c` is printed as after-context, which ends the after-window and purges the window. */
  lemma GroupsWalk4(re: string -> bool, a: string, b: string, e1: string, c: string)
    requires !re(a) && !re(b) && re(e1) && !re(c)
    ensures Run(Context(2, 1), re, [a, b, e1, c]).state == ScanState(1, 0, false, TextQueue([]))
    ensures Output(Run(Context(2, 1), re, [a, b, e1, c]).trace) == [Line(a), Line(b), Line(e1), Line(c)]
  {
    var ctx := Context(2, 1);
    var s3 := ScanState(1, 1, true, TextQueue([]));
    var s4 := ScanState(1, 0, false, TextQueue([]));
    GroupsWalk3(re, a, b, e1);
    assert Step(ctx, false, s3, c) == StepResult(s4, AfterLine(c));
    assert [a, b, e1] + [c] == [a, b, e1, c];
    Extend(ctx, re, [a, b, e1], c, [a, b, e1, c],
           s3, [Line(a), Line(b), Line(e1)], s4, AfterLine(c), [Line(c)], [Line(a), Line(b), Line(e1), Line(c)]);
  }

  /** Then `d` is held. */
  lemma GroupsWalk5(re: string -> bool, a: string, b: string, e1: string, c: string, d: string)
    requires !re(a) && !re(b) && re(e1) && !re(c) && !re(d)
    ensures Run(Context(2, 1), re, [a, b, e1, c, d]).state == ScanState(1, 0, false, TextQueue([d]))
    ensures Output(Run(Context(2, 1), re, [a, b, e1, c, d]).trace) == [Line(a), Line(b), Line(e1), Line(c)]
  {
    var ctx := Context(2, 1);
    var s4 := ScanState(1, 0, false, TextQueue([]));
    GroupsWalk4(re, a, b, e1, c);
    HeldStep(ctx, s4, d);
    assert AddFront(s4.tq, d) == TextQueue([d]);
    assert [a, b, e1, c] + [d] == [a, b, e1, c, d];
    Extend(ctx, re, [a, b, e1, c], d, [a, b, e1, c, d],
           s4, [Line(a), Line(b), Line(e1), Line(c)], ScanState(1, 0, false, TextQueue([d])), Silent, [], [Line(a), Line(b), Line(e1), Line(c)]);
  }

  /** Then the match `E2` flushes `d E2` after a separator. */
  lemma GroupsWalk6(re: string -> bool, a: string, b: string, e1: string, c: string, d: string, e2: string)
    requires !re(a) && !re(b) && re(e1) && !re(c) && !re(d) && re(e2)
    ensures Run(Context(2, 1), re, [a, b, e1, c, d, e2]).state == ScanState(2, 1, true, TextQueue([]))
    ensures Output(Run(Context(2, 1), re, [a, b, e1, c, d, e2]).trace)
         == [Line(a), Line(b), Line(e1), Line(c), Sep, Line(d), Line(e2)]
  {
    var ctx := Context(2, 1);
    var s5 := ScanState(1, 0, false, TextQueue([d]));
    var s6 := ScanState(2, 1, true, TextQueue([]));
    GroupsWalk5(re, a, b, e1, c, d);
    assert Step(ctx, true, s5, e2) == StepResult(s6, Flush(true, [d, e2])) by {
      MatchStep(ctx, s5, e2);
      assert StringSlice(s5.tq) + [e2] == [d, e2];
    }
    assert LineRecords([d, e2]) == [Line(d), Line(e2)];
    assert [a, b, e1, c, d] + [e2] == [a, b, e1, c, d, e2];
    Extend(ctx, re, [a, b, e1, c, d], e2, [a, b, e1, c, d, e2],
           s5, [Line(a), Line(b), Line(e1), Line(c)], s6, Flush(true, [d, e2]), [Sep, Line(d), Line(e2)], [Line(a), Line(b), Line(e1), Line(c), Sep, Line(d), Line(e2)]);
  }

  /**
    Two lines of before-context and one after, over `a b E1 c d E2 e` with
    `E1` and `E2` the only matches: the output is `a b E1 c`, a separator,
    then `d E2 e`. The line `c` is printed as after-context of `E1`; the purge
    that follows keeps it out of the second group.
   */
  lemma GroupsExample(re: string -> bool, a: string, b: string, e1: string, c: string, d: string, e2: string, e: string)
    requires !re(a) && !re(b) && re(e1) && !re(c) && !re(d) && re(e2) && !re(e)
    ensures Output(Run(Context(2, 1), re, [a, b, e1, c, d, e2, e]).trace)
         == [Line(a), Line(b), Line(e1), Line(c), Sep, Line(d), Line(e2), Line(e)]
    ensures Run(Context(2, 1), re, [a, b, e1, c, d, e2, e]).state.matches == 2
  {
    var ctx := Context(2, 1);
    var s6 := ScanState(2, 1, true, TextQueue([]));
    GroupsWalk6(re, a, b, e1, c, d, e2);
    assert Step(ctx, false, s6, e) == StepResult(ScanState(2, 0, false, TextQueue([])), AfterLine(e));
    assert [a, b, e1, c, d, e2] + [e] == [a, b, e1, c, d, e2, e];
    Extend(ctx, re, [a, b, e1, c, d, e2], e, [a, b, e1, c, d, e2, e],
           s6, [Line(a), Line(b), Line(e1), Line(c), Sep, Line(d), Line(e2)], ScanState(2, 0, false, TextQueue([])), AfterLine(e), [Line(e)], [Line(a), Line(b), Line(e1), Line(c), Sep, Line(d), Line(e2), Line(e)]);
  }
}
