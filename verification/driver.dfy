/**
  The glue around the scan loop in main.go: the checks and decisions
  `configureFromFlags` makes once its flags are parsed, the rendering of
  records by `printLine`, and `main`'s walk over the named files with its
  choice of exit status.

  Flag parsing, the regular expression, files and the standard streams are
  not modelled: the parsed flag values, the match predicate and each
  stream's lines arrive as parameters, and what would be written to
  standard output is returned as a sequence of output lines.
 */
module Driver {
  import opened Wrappers
  import opened Scanner

  /** Exit statuses, numbered as GNU grep numbers them. */
  const ExitMatched := 0
  const ExitNotMatched := 1
  const ExitError := 2

  /** The status the program exits with when its flags are unusable. */
  const ExitBadFlags := 1

  /** The line printed between two groups of matches. */
  const Separator := "----------"

  /** The configuration the scan and the rendering read once flags are checked. */
  datatype Config = Config(ctx: Context, quiet: bool, printFilenames: bool)

  /** Why a configuration was refused. */
  datatype ConfigError = NegativeContext | InvalidFilenames

  /** The accepted values of the `-filenames` option. */
  predicate ValidFilenamesOption(option: string)
  {
    option == "auto" || option == "no" || option == "yes"
  }

  /**
    Whether lines are prefixed with their file's name, given the
    `-filenames` option and the number of file arguments; None for a value
    the option does not accept.
   */
  function ResolveFilenames(option: string, nargs: nat): (r: Option<bool>)
    ensures r.Some? <==> ValidFilenamesOption(option)
    ensures r == Some(true) <==> option == "yes" || (option == "auto" && nargs > 1)
  {
    match option
    case "auto" => Some(nargs > 1)
    case "no" => Some(false)
    case "yes" => Some(true)
    case _ => None
  }

  /** `auto` behaves as `yes` with several file arguments and as `no` otherwise. */
  lemma AutoFilenames(nargs: nat)
    ensures ResolveFilenames("auto", nargs) == ResolveFilenames(if nargs > 1 then "yes" else "no", nargs)
  {
  }

  /**
    The checks on the parsed flags: negative context counts are refused
    before the `-filenames` value is looked at.
   */
  function Configure(before: int, after: int, quiet: bool, filenames: string, nargs: nat): (r: Result<Config, ConfigError>)
    ensures r.Ok? <==> before >= 0 && after >= 0 && ValidFilenamesOption(filenames)
    ensures before < 0 || after < 0 ==> r == Err(NegativeContext)
    ensures r.Ok? ==>
      && r.value.ctx.before == before
      && r.value.ctx.after == after
      && r.value.quiet == quiet
      && (r.value.printFilenames <==> filenames == "yes" || (filenames == "auto" && nargs > 1))
  {
    if before < 0 || after < 0 then Err(NegativeContext)
    else
      match ResolveFilenames(filenames, nargs)
      case None => Err(InvalidFilenames)
      case Some(printFilenames) => Ok(Config(Context(before, after), quiet, printFilenames))
  }

  /** What `printLine` writes for one line: nothing when quiet, else the line after its prefix. */
  function PrintLine(cfg: Config, line: string, filename: string): (out: seq<string>)
    ensures |out| == if cfg.quiet then 0 else 1
    ensures !cfg.quiet && !cfg.printFilenames ==> out == [line]
    ensures !cfg.quiet && cfg.printFilenames ==> out == [filename + ":" + line]
  {
    if cfg.quiet then []
    else if cfg.printFilenames then [filename + ":" + line]
    else [line]
  }

  /** The output lines for one record; the separator ignores `quiet`. */
  function RenderRecord(cfg: Config, filename: string, rec: Record): seq<string>
  {
    match rec
    case Line(t) => PrintLine(cfg, t, filename)
    case Sep => [Separator]
  }

  /** The output lines for a stream's records, in order. */
  function Render(cfg: Config, filename: string, recs: seq<Record>): seq<string>
    decreases |recs|
  {
    if |recs| == 0 then []
    else Render(cfg, filename, recs[..|recs| - 1]) + RenderRecord(cfg, filename, recs[|recs| - 1])
  }

  /**
    Rendering when not quiet: one output line per record, a separator as
    itself and a line as `printLine` writes it.
   */
  lemma {:induction false} RenderLoud(cfg: Config, filename: string, recs: seq<Record>)
    requires !cfg.quiet
    ensures var out := Render(cfg, filename, recs);
      && |out| == |recs|
      && forall i :: 0 <= i < |recs| ==>
           out[i] == if recs[i].Sep? then Separator else PrintLine(cfg, recs[i].text, filename)[0]
    decreases |recs|
  {
    if |recs| > 0 {
      var init := recs[..|recs| - 1];
      var last := recs[|recs| - 1];
      RenderLoud(cfg, filename, init);
      var prev := Render(cfg, filename, init);
      var tail := RenderRecord(cfg, filename, last);
      assert tail == [if last.Sep? then Separator else PrintLine(cfg, last.text, filename)[0]];
      var out := prev + tail;
      forall i | 0 <= i < |recs|
        ensures out[i] == if recs[i].Sep? then Separator else PrintLine(cfg, recs[i].text, filename)[0]
      {
        if i < |init| {
          assert recs[i] == init[i];
          assert out[i] == prev[i];
        }
      }
    }
  }

  /** Rendering when quiet: only the separators survive, one per `Sep` record. */
  lemma {:induction false} RenderQuiet(cfg: Config, filename: string, recs: seq<Record>)
    requires cfg.quiet
    ensures var out := Render(cfg, filename, recs);
      && |out| == CountSeps(recs)
      && forall i :: 0 <= i < |out| ==> out[i] == Separator
    decreases |recs|
  {
    if |recs| > 0 {
      var init := recs[..|recs| - 1];
      RenderQuiet(cfg, filename, init);
      assert recs == init + [recs[|recs| - 1]];
      assert multiset(recs) == multiset(init) + multiset{recs[|recs| - 1]};
    }
  }

  /**
    The exit status: an unreadable file wins over everything, then any
    matching stream, and otherwise the run found nothing.
   */
  function ExitStatus(hadErr: bool, matched: bool): (status: int)
    ensures status == ExitError <==> hadErr
    ensures status == ExitMatched <==> !hadErr && matched
    ensures status == ExitNotMatched <==> !hadErr && !matched
  {
    if hadErr then ExitError
    else if matched then ExitMatched
    else ExitNotMatched
  }

  /** A command-line file argument: a file that cannot be opened, or the lines of one that can. */
  datatype Source = Unreadable(name: string) | Readable(name: string, lines: seq<string>)

  /** What the files `args` print, in argument order; unreadable files print nothing. */
  function FilesOutput(cfg: Config, re: string -> bool, args: seq<Source>): seq<string>
    decreases |args|
  {
    if |args| == 0 then []
    else
      var last := args[|args| - 1];
      FilesOutput(cfg, re, args[..|args| - 1])
        + match last
          case Unreadable(_) => []
          case Readable(name, lines) => Render(cfg, name, Output(Run(cfg.ctx, re, lines).trace))
  }

  /** One of the files cannot be opened. */
  predicate SomeUnreadable(args: seq<Source>)
  {
    exists i :: 0 <= i < |args| && args[i].Unreadable?
  }

  /** One of the readable files holds a matching line. */
  predicate SomeMatch(re: string -> bool, args: seq<Source>)
  {
    exists i :: 0 <= i < |args| && args[i].Readable? && CountMatches(re, args[i].lines) > 0
  }

  /**
    The loop of `main` over the file arguments, reading standard input
    under the name "stdin" when there are none, and the exit status it
    ends with.
   */
  method SearchAll(cfg: Config, re: string -> bool, args: seq<Source>, stdin: seq<string>)
    returns (status: int, out: seq<string>)
    ensures |args| > 0 ==> out == FilesOutput(cfg, re, args)
    ensures |args| == 0 ==> out == Render(cfg, "stdin", Output(Run(cfg.ctx, re, stdin).trace))
    ensures status == ExitError <==> SomeUnreadable(args)
    ensures status == ExitMatched <==>
      !SomeUnreadable(args)
      && (if |args| == 0 then CountMatches(re, stdin) > 0 else SomeMatch(re, args))
    ensures status == ExitNotMatched <==>
      !SomeUnreadable(args)
      && !(if |args| == 0 then CountMatches(re, stdin) > 0 else SomeMatch(re, args))
  {
    var matched := false;
    var hadErr := false;
    out := [];
    var i := 0;
    while i < |args|
      invariant 0 <= i <= |args|
      invariant out == FilesOutput(cfg, re, args[..i])
      invariant hadErr <==> SomeUnreadable(args[..i])
      invariant matched <==> SomeMatch(re, args[..i])
    {
      var arg := args[i];
      assert args[..i + 1][..i] == args[..i];
      assert args[..i + 1][i] == arg;
      SomeSnoc(re, args[..i + 1]);
      match arg {
        case Unreadable(_) =>
          hadErr := true;
        case Readable(name, lines) =>
          var m, recs := SearchFile(cfg.ctx, re, lines);
          out := out + Render(cfg, name, recs);
          if m > 0 {
            matched := true;
          }
      }
      i := i + 1;
    }
    assert args[..i] == args;
    if |args| == 0 {
      var m, recs := SearchFile(cfg.ctx, re, stdin);
      out := Render(cfg, "stdin", recs);
      matched := m > 0;
    }
    status := ExitStatus(hadErr, matched);
  }

  /** The two existential summaries over arguments grow one argument at a time. */
  lemma SomeSnoc(re: string -> bool, args: seq<Source>)
    requires |args| > 0
    ensures var init := args[..|args| - 1];
      var last := args[|args| - 1];
      && (SomeUnreadable(args) <==> SomeUnreadable(init) || last.Unreadable?)
      && (SomeMatch(re, args) <==> SomeMatch(re, init) || (last.Readable? && CountMatches(re, last.lines) > 0))
  {
    var init := args[..|args| - 1];
    if SomeUnreadable(args) {
      var i :| 0 <= i < |args| && args[i].Unreadable?;
      if i < |init| {
        assert init[i] == args[i];
      }
    }
    if SomeUnreadable(init) {
      var i :| 0 <= i < |init| && init[i].Unreadable?;
      assert args[i] == init[i];
    }
    if SomeMatch(re, args) {
      var i :| 0 <= i < |args| && args[i].Readable? && CountMatches(re, args[i].lines) > 0;
      if i < |init| {
        assert init[i] == args[i];
      }
    }
    if SomeMatch(re, init) {
      var i :| 0 <= i < |init| && init[i].Readable? && CountMatches(re, init[i].lines) > 0;
      assert args[i] == init[i];
    }
  }

  /**
    The whole program on parsed flags: refused flags end it with status 1
    before any input is read; otherwise the files, or standard input, are
    searched.
   */
  method Greg(before: int, after: int, quiet: bool, filenames: string,
              re: string -> bool, args: seq<Source>, stdin: seq<string>)
    returns (status: int, out: seq<string>)
    ensures Configure(before, after, quiet, filenames, |args|).Err? ==> status == ExitBadFlags && out == []
    ensures Configure(before, after, quiet, filenames, |args|).Ok? ==>
      var cfg := Configure(before, after, quiet, filenames, |args|).value;
      && (status == ExitError <==> SomeUnreadable(args))
      && (status == ExitMatched <==>
            !SomeUnreadable(args)
            && (if |args| == 0 then CountMatches(re, stdin) > 0 else SomeMatch(re, args)))
      && (status == ExitNotMatched <==>
            !SomeUnreadable(args)
            && !(if |args| == 0 then CountMatches(re, stdin) > 0 else SomeMatch(re, args)))
      && (|args| > 0 ==> out == FilesOutput(cfg, re, args))
      && (|args| == 0 ==> out == Render(cfg, "stdin", Output(Run(cfg.ctx, re, stdin).trace)))
  {
    match Configure(before, after, quiet, filenames, |args|) {
      case Err(_) =>
        status, out := ExitBadFlags, [];
      case Ok(cfg) =>
        status, out := SearchAll(cfg, re, args, stdin);
    }
  }
}
