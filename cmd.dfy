/** The command-line layer of `Cmd` (pydb/pydbcmd.py): alias expansion and
    `;;` splitting before a command runs, the argument parsers for on/off and
    integer settings, the start-up command file consumer and the routing of
    messages to the terminal and the log. */
module Cmd {
  import opened Wrappers
  import opened PyStr

  // ---------------------------------------------------------------------
  // Argument parsers (they raise on bad input; here `Err`)
  // ---------------------------------------------------------------------

  /** `get_onoff(arg, default)`; `default` is `None` when the caller gives
      none. */
  function GetOnOff(arg: string, default: Option<bool>): (r: Result<bool>)
    ensures r.Ok? <==> (arg == "" && default.Some?) || arg == "1" || arg == "on" || arg == "0" || arg == "off"
    ensures r == Ok(true) <==> arg == "1" || arg == "on" || (arg == "" && default == Some(true))
    ensures r.Err? ==> r.error == ValueError
  {
    if arg == "" then
      if default.None? then Err(ValueError) else Ok(default.value)
    else if arg == "1" || arg == "on" then Ok(true)
    else if arg == "0" || arg == "off" then Ok(false)
    else Err(ValueError)
  }

  /** `get_int(arg, default)`: the default for an empty argument, otherwise
      `int(arg)`, which raises ValueError on anything that is not a decimal
      integer. */
  function GetInt(arg: string, default: int): (r: Result<int>)
    ensures arg == "" ==> r == Ok(default)
    ensures arg != "" ==> (r.Ok? <==> ParseInt(arg).Some?)
    ensures r.Err? ==> r.error == ValueError
  {
    if arg == "" then Ok(default)
    else match ParseInt(arg)
      case Some(v) => Ok(v)
      case None => Err(ValueError)
  }

  /** Any integer printed with `%d` reads back through `get_int`. */
  lemma GetIntOfIntToString(i: int, default: int)
    ensures GetInt(IntToString(i), default) == Ok(i)
  {
    ParseIntOfIntToString(i);
  }

  /** `get_pos_int(arg, min, default, cmdname)` as written. Without a command
      name (`cmdname` empty or None) both error reports format their message
      with one argument too many (`cmdname` is passed along), so the `%`
      operator itself raises TypeError, which neither `except` clause
      catches. */
  function GetPosIntAsWritten(arg: string, min: int, default: int, cmdname: string): (r: Result<int>)
    ensures r.Ok? && arg != "" ==> r.value >= min
    ensures cmdname == "" && r.Err? ==> r.error == TypeError
  {
    if arg == "" then Ok(default)
    else match ParseInt(arg)
      case None => if cmdname != "" then Err(ValueError) else Err(TypeError)
      case Some(v) =>
        if v < min then (if cmdname != "" then Err(ValueError) else Err(TypeError))
        else Ok(v)
  }

  /** `get_pos_int` as its docstring and its callers intend: the default for
      an empty argument, otherwise an integer at least `min`, and ValueError
      for everything else. */
  function GetPosInt(arg: string, min: int, default: int, cmdname: string): (r: Result<int>)
    ensures arg == "" ==> r == Ok(default)
    ensures arg != "" ==> (r.Ok? <==> ParseInt(arg).Some? && ParseInt(arg).value >= min)
    ensures r.Ok? && arg != "" ==> r.value >= min && Some(r.value) == ParseInt(arg)
    ensures r.Err? ==> r.error == ValueError
  {
    if arg == "" then Ok(default)
    else match ParseInt(arg)
      case None => Err(ValueError)
      case Some(v) => if v < min then Err(ValueError) else Ok(v)
  }

  /** With a command name the code as written behaves as intended; without
      one, every rejected argument raises TypeError instead of ValueError. */
  lemma GetPosIntDiscrepancy(arg: string, min: int, default: int, cmdname: string)
    ensures cmdname != "" ==> GetPosIntAsWritten(arg, min, default, cmdname) == GetPosInt(arg, min, default, cmdname)
    ensures cmdname == "" && GetPosInt(arg, min, default, cmdname).Err? ==>
      GetPosIntAsWritten(arg, min, default, cmdname) == Err(TypeError)
    ensures GetPosIntAsWritten(arg, min, default, cmdname).Ok? <==> GetPosInt(arg, min, default, cmdname).Ok?
  {
  }

  /** `get_pos_int("0", 1)` without a command name: a value below the
      minimum raises TypeError instead of ValueError. */
  lemma GetPosIntBelowMinRaisesTypeError()
    ensures GetPosIntAsWritten("0", 1, 1, "") == Err(TypeError)
    ensures GetPosInt("0", 1, 1, "") == Err(ValueError)
  {
    ParseIntOfIntToString(0);
    assert IntToString(0) == "0";
  }

  // ---------------------------------------------------------------------
  // precmd: alias expansion and ';;' splitting
  // ---------------------------------------------------------------------

  /** The placeholder `%ii` of the alias body. */
  function Placeholder(ii: nat): (p: string)
    ensures p != [] && p[0] == '%'
  {
    "%" + IntToString(ii)
  }

  /** The `for tmpArg in args[1:]` loop: `%ii` replaced by `args[ii]` for
      ii = start, …, len(args) - 1, in that order. */
  function SubstFrom(line: string, args: seq<string>, ii: nat): string
    requires 1 <= ii <= |args|
    decreases |args| - ii
  {
    if ii == |args| then line
    else SubstFrom(Replace(line, Placeholder(ii), args[ii]), args, ii + 1)
  }

  /** One expansion: the alias body with its positional placeholders and
      then `%*` replaced. */
  function Subst(body: string, args: seq<string>): string
    requires |args| >= 1
  {
    Replace(SubstFrom(body, args, 1), "%*", JoinSpace(args[1..]))
  }

  /** The alias-expansion loop, allowed at most `fuel` expansions: `None`
      when it needs more (a cyclic alias never stops), `Err(IndexError)`
      when an expansion leaves a blank line and `args[0]` fails. */
  function ExpandAliases(aliases: map<string, string>, line: string, fuel: nat): (r: Option<Result<string>>)
    ensures r.Some? && r.value.Err? ==> r.value.error == IndexError
    ensures Split(line) != [] && Split(line)[0] !in aliases ==> r == Some(Ok(line))
    decreases fuel
  {
    var args := Split(line);
    if args == [] then Some(Err(IndexError))
    else if args[0] !in aliases then Some(Ok(line))
    else if fuel == 0 then None
    else ExpandAliases(aliases, Subst(aliases[args[0]], args), fuel - 1)
  }

  /** The `;;` split: the text before the first `;;`, right-stripped, and the
      left-stripped remainder to queue. */
  function SplitAtMarker(line: string): (string, Option<string>) {
    var marker := Find(line, ";;");
    if marker >= 0 then (RStrip(line[..marker]), Some(LStrip(line[marker + 2..])))
    else (line, None)
  }

  /** What `precmd` returns and what it appends to `cmdqueue`. */
  datatype PrecmdOutcome = PrecmdOutcome(result: Option<Result<string>>, queued: seq<string>)

  function PrecmdResult(aliases: map<string, string>, line: string, fuel: nat): (r: PrecmdOutcome)
    ensures Strip(line) == [] ==> r == PrecmdOutcome(Some(Ok(line)), [])
    ensures |r.queued| <= 1
    ensures r.queued != [] ==> r.result.Some? && r.result.value.Ok?
  {
    if Strip(line) == [] then PrecmdOutcome(Some(Ok(line)), [])
    else AfterExpansion(ExpandAliases(aliases, line, fuel))
  }

  /** The `;;` split applied to the outcome of alias expansion; an `alias`
      command keeps its `;;`. */
  function AfterExpansion(e: Option<Result<string>>): (r: PrecmdOutcome)
    ensures |r.queued| <= 1
    ensures r.queued != [] ==> r.result.Some? && r.result.value.Ok?
  {
    match e
    case None => PrecmdOutcome(None, [])
    case Some(Err(err)) => PrecmdOutcome(Some(Err(err)), [])
    case Some(Ok(l)) =>
      var words := Split(l);
      if words != [] && words[0] == "alias" then PrecmdOutcome(Some(Ok(l)), [])
      else
        var (head, rest) := SplitAtMarker(l);
        PrecmdOutcome(Some(Ok(head)), if rest.Some? then [rest.value] else [])
  }

  /** The `;;` split loses only the whitespace around the first marker: the
      line is the returned command, some blanks, `;;`, some blanks and the
      queued rest, and the returned command holds no `;;`. */
  lemma SplitAtMarkerParts(line: string)
    requires Find(line, ";;") >= 0
    ensures var m := Find(line, ";;"); var (head, rest) := SplitAtMarker(line);
      && rest.Some?
      && |head| <= m && m + 2 <= |line| - |rest.value|
      && AllSpace(line[|head|..m]) && AllSpace(line[m + 2..|line| - |rest.value|])
      && line == head + line[|head|..m] + ";;" + line[m + 2..|line| - |rest.value|] + rest.value
      && Find(head, ";;") == -1
  {
    var m := Find(line, ";;");
    var head := RStrip(line[..m]);
    var rest := LStrip(line[m + 2..]);
    assert SplitAtMarker(line) == (head, Some(rest));
    HeadPart(line, m);
    RestPart(line, m + 2);
    var a := TrimEnd(line, m);
    var e := SkipSpace(line, m + 2);
    assert |head| == a && |line| - |rest| == e;
    assert line[m..m + 2] == ";;";
    FiveParts(line, a, m, e);
    NoMarkerInPrefix(line, m, head);
  }

  /** What `rstrip` keeps of the text before position `m`, and what it drops. */
  lemma HeadPart(line: string, m: nat)
    requires m <= |line|
    ensures RStrip(line[..m]) == line[..TrimEnd(line, m)] && AllSpace(line[TrimEnd(line, m)..m])
  {
    TrimEndPrefix(line, m, m);
    TrimEndTrimsSpace(line, m);
  }

  /** What `lstrip` keeps of the text from position `n`, and what it drops. */
  lemma RestPart(line: string, n: nat)
    requires n <= |line|
    ensures LStrip(line[n..]) == line[SkipSpace(line, n)..] && AllSpace(line[n..SkipSpace(line, n)])
  {
    SkipSpaceSuffix(line, n, 0);
    SkipSpaceSkipsSpace(line, n);
  }

  lemma FiveParts(line: string, a: int, m: int, b: int)
    requires 0 <= a <= m && m + 2 <= b <= |line|
    ensures line == line[..a] + line[a..m] + line[m..m + 2] + line[m + 2..b] + line[b..]
  {
  }

  /** Text that lies before the first `;;` holds no `;;`. */
  lemma NoMarkerInPrefix(line: string, m: int, head: string)
    requires 0 <= m <= |line| && |head| <= m && head == line[..|head|]
    requires forall j :: 0 <= j < m ==> !OccursAt(line, ";;", j)
    ensures Find(head, ";;") == -1
  {
    forall j | 0 <= j ensures !OccursAt(head, ";;", j) {
      if j + 2 <= |head| {
        assert head[j..j + 2] == line[j..j + 2];
        assert !OccursAt(line, ";;", j);
      }
    }
  }

  /** A line with no alias in front and no `;;` comes back unchanged and
      queues nothing. */
  lemma PrecmdPlainLine(aliases: map<string, string>, line: string, fuel: nat)
    requires Split(line) != [] && Split(line)[0] !in aliases && Find(line, ";;") == -1
    ensures PrecmdResult(aliases, line, fuel) == PrecmdOutcome(Some(Ok(line)), [])
  {
    SplitEmptyIffStripEmpty(line);
  }

  predicate NoPercent(s: string) {
    forall i :: 0 <= i < |s| ==> s[i] != '%'
  }

  /** A string without `%` has no placeholder to fill. */
  lemma NoPercentFind(s: string, p: string)
    requires p != [] && p[0] == '%'
    requires NoPercent(s)
    ensures Find(s, p) == -1
  {
    forall j | 0 <= j ensures !OccursAt(s, p, j) {
      if j + |p| <= |s| {
        assert s[j..j + |p|][0] == s[j];
      }
    }
  }

  lemma {:induction false} SubstFromNoPercent(body: string, args: seq<string>, ii: nat)
    requires 1 <= ii <= |args|
    requires NoPercent(body)
    ensures SubstFrom(body, args, ii) == body
    decreases |args| - ii
  {
    if ii < |args| {
      NoPercentFind(body, Placeholder(ii));
      ReplaceAbsent(body, Placeholder(ii), args[ii]);
      SubstFromNoPercent(body, args, ii + 1);
    }
  }

  /** Alias `w` expands to a body without placeholders that starts with
      `w` itself. */
  predicate SelfAlias(aliases: map<string, string>, w: string) {
    w in aliases && Split(aliases[w]) != [] && Split(aliases[w])[0] == w && NoPercent(aliases[w])
  }

  /** A body without `%` is its own expansion, whatever the arguments. */
  lemma SubstNoPercent(body: string, args: seq<string>)
    requires |args| >= 1 && NoPercent(body)
    ensures Subst(body, args) == body
  {
    SubstFromNoPercent(body, args, 1);
    NoPercentFind(body, "%*");
    ReplaceAbsent(body, "%*", JoinSpace(args[1..]));
  }

  /** One turn of the alias loop. */
  lemma ExpandAliasesStep(aliases: map<string, string>, line: string, args: seq<string>, f: nat, k: nat)
    requires args == Split(line) && args != [] && args[0] in aliases && f == k + 1
    ensures ExpandAliases(aliases, line, f) == ExpandAliases(aliases, Subst(aliases[args[0]], args), k)
  {
    var l2 := Subst(aliases[args[0]], args);
    assert ExpandAliases(aliases, line, f) == ExpandAliases(aliases, l2, f - 1);
  }

  /** A line that comes out of the alias loop never starts with an alias. */
  lemma {:induction false} ExpandedNotAlias(aliases: map<string, string>, line: string, fuel: nat, out: string)
    requires ExpandAliases(aliases, line, fuel) == Some(Ok(out))
    ensures Split(out) != [] && Split(out)[0] !in aliases
    decreases fuel
  {
    var args := Split(line);
    if args != [] && args[0] in aliases && fuel > 0 {
      var next := Subst(aliases[args[0]], args);
      ExpandAliasesStep(aliases, line, args, fuel, fuel - 1);
      ExpandedNotAlias(aliases, next, fuel - 1, out);
    }
  }

  /** A self alias expands to its own body, which again starts with it. */
  lemma SelfAliasStep(aliases: map<string, string>, line: string, k: nat)
    requires Split(line) != [] && SelfAlias(aliases, Split(line)[0])
    ensures ExpandAliases(aliases, line, k + 1) == ExpandAliases(aliases, aliases[Split(line)[0]], k)
  {
    var args := Split(line);
    ExpandAliasesStep(aliases, line, args, k + 1, k);
    SubstNoPercent(aliases[args[0]], args);
  }

  /** A line that starts with a self alias is expanded forever: no number
      of expansions is enough. */
  lemma {:induction false} SelfAliasDiverges(aliases: map<string, string>, w: string, line: string, fuel: nat)
    requires SelfAlias(aliases, w) && Split(line) != [] && Split(line)[0] == w
    ensures ExpandAliases(aliases, line, fuel) == None
    decreases fuel
  {
    if fuel > 0 {
      var k: nat := fuel - 1;
      SelfAliasDiverges(aliases, w, aliases[w], k);
      SelfAliasStep(aliases, line, k);
    }
  }

  // ---------------------------------------------------------------------
  // execRcLines
  // ---------------------------------------------------------------------

  /** `line[:-1]`: the trailing newline dropped. */
  function DropLast(line: string): string {
    if line == [] then [] else line[..|line| - 1]
  }

  /** Lines that reach `onecmd`: non-empty after the drop and not comments. */
  predicate Runnable(line: string) {
    var c := DropLast(line);
    |c| > 0 && c[0] != '#'
  }

  /** The commands handed to `onecmd` for the given start-up lines. */
  function Runnables(lines: seq<string>): (cs: seq<string>)
    ensures |cs| <= |lines|
    ensures forall j :: 0 <= j < |cs| ==> |cs[j]| > 0 && cs[j][0] != '#'
  {
    if lines == [] then []
    else
      var last := lines[|lines| - 1];
      Runnables(lines[..|lines| - 1]) + (if Runnable(last) then [DropLast(last)] else [])
  }

  /** The line at which `onecmd` asks execution to continue. */
  predicate Fires(line: string, onecmd: string -> int) {
    Runnable(line) && onecmd(DropLast(line)) == 1
  }

  /** The first line at or after `i` that fires, or `|lines|` if none does. */
  function RcStop(lines: seq<string>, onecmd: string -> int, i: nat): (k: nat)
    requires i <= |lines|
    ensures i <= k <= |lines|
    ensures forall j :: i <= j < k ==> !Fires(lines[j], onecmd)
    ensures k < |lines| ==> Fires(lines[k], onecmd)
    decreases |lines| - i
  {
    if i == |lines| then i
    else if Fires(lines[i], onecmd) then i
    else RcStop(lines, onecmd, i + 1)
  }

  // ---------------------------------------------------------------------
  // Message routing
  // ---------------------------------------------------------------------

  /** Where `msg_nocr` sends a message: to the log file when logging is on
      and a log file object exists, and to the terminal unless logging and
      redirection are both on. */
  function Routes(logging: bool, hasLogFile: bool, redirect: bool): (r: (bool, bool))
    ensures r.0 <==> logging && hasLogFile
    ensures r.1 <==> !(logging && redirect)
  {
    (logging && hasLogFile, !logging || !redirect)
  }

  /** A message is lost exactly when logging and redirection are on but no
      log file could be opened. */
  lemma MessageLostIff(logging: bool, hasLogFile: bool, redirect: bool)
    ensures var (toLog, toTerminal) := Routes(logging, hasLogFile, redirect);
      !toLog && !toTerminal <==> logging && redirect && !hasLogFile
  {
  }

  /** The command-processing object: the state `Cmd.__init__` sets up plus
      the `cmd.Cmd` command queue and the program's argument vector. The
      terminal and the log file are the sequences of texts written to
      them. */
  class CommandLine {
    var aliases: map<string, string>
    var cmdqueue: seq<string>
    var rcLines: seq<string>
    var cmdtrace: bool
    var logging: bool
    var hasLogFile: bool
    var redirect: bool
    var terminal: seq<string>
    var logFile: seq<string>
    var programArgv: seq<string>

    /** `Cmd.__init__`; `argv` is the debugged program's argument vector,
        which the option processing records. */
    constructor (argv: seq<string>)
      ensures aliases == map[] && cmdqueue == [] && rcLines == [] && !cmdtrace
      ensures !logging && !hasLogFile && !redirect && terminal == [] && logFile == []
      ensures programArgv == argv
    {
      aliases := map[];
      cmdqueue := [];
      rcLines := [];
      cmdtrace := false;
      logging := false;
      hasLogFile := false;
      redirect := false;
      terminal := [];
      logFile := [];
      programArgv := argv;
    }

    /** `msg_nocr` */
    method MsgNocr(msg: string)
      modifies this`terminal, this`logFile
      ensures var (toLog, toTerminal) := Routes(logging, hasLogFile, redirect);
        && logFile == old(logFile) + (if toLog then [msg] else [])
        && terminal == old(terminal) + (if toTerminal then [msg] else [])
    {
      var doPrint := true;
      if logging {
        if hasLogFile {
          logFile := logFile + [msg];
        }
        doPrint := !redirect;
      }
      if doPrint {
        terminal := terminal + [msg];
      }
    }

    /** `msg`: the message and a newline. */
    method Msg(msg: string)
      modifies this`terminal, this`logFile
      ensures var (toLog, toTerminal) := Routes(logging, hasLogFile, redirect);
        && logFile == old(logFile) + (if toLog then [msg + "\n"] else [])
        && terminal == old(terminal) + (if toTerminal then [msg + "\n"] else [])
    {
      MsgNocr(msg + "\n");
    }

    /** `errmsg`: the message marked with `*** ` and a newline. */
    method Errmsg(msg: string)
      modifies this`terminal, this`logFile
      ensures var (toLog, toTerminal) := Routes(logging, hasLogFile, redirect);
        && logFile == old(logFile) + (if toLog then ["*** " + msg + "\n"] else [])
        && terminal == old(terminal) + (if toTerminal then ["*** " + msg + "\n"] else [])
    {
      MsgNocr("*** " + msg + "\n");
    }

    /** One pass of the alias loop's body: the placeholders of the alias
        body filled from the words of the line. */
    static method ExpandOnce(body: string, args: seq<string>) returns (line: string)
      requires |args| >= 1
      ensures line == Subst(body, args)
    {
      line := body;
      var ii := 1;
      while ii < |args|
        invariant 1 <= ii <= |args|
        invariant SubstFrom(line, args, ii) == SubstFrom(body, args, 1)
      {
        line := Replace(line, Placeholder(ii), args[ii]);
        ii := ii + 1;
      }
      line := Replace(line, "%*", JoinSpace(args[1..]));
    }

    /** `precmd`, allowed at most `fuel` alias expansions (`None` when it
        would need more). */
    method Precmd(line: string, fuel: nat) returns (r: Option<Result<string>>)
      modifies this`cmdqueue
      ensures r == PrecmdResult(aliases, line, fuel).result
      ensures cmdqueue == old(cmdqueue) + PrecmdResult(aliases, line, fuel).queued
    {
      if Strip(line) == [] {
        return Some(Ok(line));
      }
      var expanded := ExpandLoop(line, fuel);
      var queued;
      r, queued := SplitCommands(expanded);
      cmdqueue := cmdqueue + queued;
    }

    /** The tail of `precmd`: unless the command is `alias`, a `;;` ends
        the command and what follows it is queued. */
    static method SplitCommands(e: Option<Result<string>>) returns (r: Option<Result<string>>, queued: seq<string>)
      ensures r == AfterExpansion(e).result && queued == AfterExpansion(e).queued
    {
      r, queued := e, [];
      if e.Some? && e.value.Ok? {
        var cur := e.value.value;
        var words := Split(cur);
        if !(words != [] && words[0] == "alias") {
          var marker := Find(cur, ";;");
          if marker >= 0 {
            queued := [LStrip(cur[marker + 2..])];
            cur := RStrip(cur[..marker]);
          }
          assert (cur, if queued == [] then None else Some(queued[0])) == SplitAtMarker(e.value.value);
        }
        r := Some(Ok(cur));
      }
    }

    /** The alias loop of `precmd`, allowed at most `fuel` expansions. */
    method ExpandLoop(line: string, fuel: nat) returns (r: Option<Result<string>>)
      ensures r == ExpandAliases(aliases, line, fuel)
    {
      var cur := line;
      var args := Split(line);
      var f := fuel;
      while true
        invariant args == Split(cur)
        invariant ExpandAliases(aliases, cur, f) == ExpandAliases(aliases, line, fuel)
        decreases f
      {
        if args == [] {
          return Some(Err(IndexError));
        }
        if args[0] !in aliases {
          return Some(Ok(cur));
        }
        if f == 0 {
          return None;
        }
        var k: nat := f - 1;
        ExpandAliasesStep(aliases, cur, args, f, k);
        cur := ExpandOnce(aliases[args[0]], args);
        args := Split(cur);
        f := k;
      }
    }

    /** `execRcLines` with `onecmd` as an oracle for the command
        interpreter: `cont` is true when a command returned 1 (continue
        execution), and `ran` lists the commands handed to `onecmd`. */
    method ExecRcLines(onecmd: string -> int) returns (cont: bool, ran: seq<string>)
      modifies this`rcLines
      ensures var lines := old(rcLines); var k := RcStop(lines, onecmd, 0);
        && cont == (k < |lines|)
        && rcLines == (if k < |lines| then lines[k + 1..] else [])
        && ran == Runnables(lines[..if k < |lines| then k + 1 else k])
    {
      var lines := rcLines;
      ran := [];
      cont := false;
      if lines == [] {
        return;
      }
      var i := 0;
      while i < |lines|
        invariant 0 <= i <= |lines|
        invariant rcLines == lines[i..] && ran == Runnables(lines[..i])
        invariant RcStop(lines, onecmd, i) == RcStop(lines, onecmd, 0)
      {
        rcLines := rcLines[1..];
        assert lines[..i + 1][..i] == lines[..i];
        var c := DropLast(lines[i]);
        if |c| > 0 && c[0] != '#' {
          ran := ran + [c];
          if onecmd(c) == 1 {
            return true, ran;
          }
        }
        i := i + 1;
      }
      assert lines[..i] == lines;
    }

    /** `set_args`: a non-empty argument vector replaces the whole
        `_program_sys_argv`, program name included (`args[0:]`); with no
        arguments only the program name is kept. */
    method SetArgs(args: seq<string>)
      modifies this`programArgv
      ensures |args| > 0 ==> programArgv == args
      ensures |args| == 0 ==> programArgv == old(programArgv)[..if |old(programArgv)| > 0 then 1 else 0]
    {
      var argvStart := programArgv[..if |programArgv| > 0 then 1 else 0];
      if |args| > 0 {
        programArgv := args;
      } else {
        programArgv := argvStart;
      }
    }
  }
}
