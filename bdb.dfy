/** The stop-decision layer of the debugger (pydb/pydbbdb.py): the
    `breaks` map from canonical file name to lines with breakpoints, kept in
    step with the breakpoint registry; `break_here`, `clear_break` and
    `output_break_commands`; canonical file names with their cache; and the
    `user_call` / `user_line` / `user_return` / `user_exception` hooks that
    decide whether the debugger stops.

    `bdb.effective`, `bdb.Bdb.stop_here`, the file-system search behind
    `canonic` and `is_def_stmt` are not part of this model: they are
    parameters. */
module Bdb {
  import opened Wrappers
  import opened PyStr
  import opened Frames
  import opened Breakpoints
  import Cmd

  /** The values `stop_reason` takes. */
  datatype StopReason = NotStopped | CallEvent | LineEvent | ReturnEvent | ExceptionEvent

  // ---------------------------------------------------------------------
  // File names
  // ---------------------------------------------------------------------

  /** Python's `f[1:-1]`. */
  function Inner(f: string): string {
    if |f| >= 2 then f[1..|f| - 1] else ""
  }

  /** Names such as `<string>` or `<stdin>` that name no file. */
  predicate IsPseudoName(f: string) {
    |f| >= 2 && f[0] == '<' && f[|f| - 1] == '>'
  }

  /** The test `filename == "<" + filename[1:-1] + ">"` holds exactly for
      names of at least two characters that start with `<` and end with
      `>`. */
  lemma PseudoNameTest(f: string)
    ensures ("<" + Inner(f) + ">" == f) <==> IsPseudoName(f)
  {
    var g := "<" + Inner(f) + ">";
    assert |g| == |Inner(f)| + 2 && g[0] == '<' && g[|g| - 1] == '>';
    if IsPseudoName(f) {
      assert f == [f[0]] + f[1..|f| - 1] + [f[|f| - 1]];
    }
  }

  /** `os.path.basename`: what follows the last `/`. */
  function Basename(p: string): string {
    if p == [] || p[|p| - 1] == '/' then [] else Basename(p[..|p| - 1]) + [p[|p| - 1]]
  }

  /** The basename is the part of the path after its last `/`. */
  lemma {:induction false} BasenameSuffix(p: string)
    ensures var b := Basename(p);
      && |b| <= |p| && b == p[|p| - |b|..]
      && (forall i :: 0 <= i < |b| ==> b[i] != '/')
      && (|b| < |p| ==> p[|p| - |b| - 1] == '/')
  {
    if p != [] && p[|p| - 1] != '/' {
      var q := p[..|p| - 1];
      BasenameSuffix(q);
      var b := Basename(p);
      assert b == Basename(q) + [p[|p| - 1]];
      assert q[|q| - |Basename(q)|..] + [p[|p| - 1]] == p[|p| - |b|..];
    }
  }

  /** A file name as the debugger shows it under the `basename` setting. */
  function FileLabel(file: string, basename: bool): string {
    if basename then Basename(file) else file
  }

  /** `filename(f)`: `None` stands for the main program file, and when there
      is none either the result is `None`. */
  function DisplayName(f: Option<string>, mainpyfile: string, basename: bool): (r: Option<string>)
    ensures r.None? <==> f.None? && mainpyfile == ""
    ensures r.Some? && !basename ==> r.value == (if f.Some? then f.value else mainpyfile)
    ensures r.Some? && basename ==> forall i :: 0 <= i < |r.value| ==> r.value[i] != '/'
  {
    BasenameSuffix(mainpyfile);
    BasenameSuffix(if f.Some? then f.value else "");
    if f.None? then
      if mainpyfile != "" then Some(FileLabel(mainpyfile, basename)) else None
    else Some(FileLabel(f.value, basename))
  }

  /** `canonic` on the name cache, with `resolve` standing for the search
      of the file system: a pseudo name is returned as it is; a name with a
      non-empty cached value gets that value; any other is resolved and the
      result is cached. No other cache entry changes. */
  function CanonicStep(cache: map<string, string>, f: string, resolve: string -> string): (r: (string, map<string, string>))
    ensures IsPseudoName(f) ==> r == (f, cache)
    ensures !IsPseudoName(f) ==> f in r.1 && r.1[f] == r.0
    ensures !IsPseudoName(f) && f in cache && cache[f] != "" ==> r == (cache[f], cache)
    ensures forall g :: g != f ==> (g in r.1 <==> g in cache)
    ensures forall g :: g != f && g in cache ==> r.1[g] == cache[g]
  {
    PseudoNameTest(f);
    if "<" + Inner(f) + ">" == f then (f, cache)
    else if f in cache && cache[f] != "" then (cache[f], cache)
    else
      var c := resolve(f);
      (c, cache[f := c])
  }

  /** A name is resolved at most once: asking again gives the same answer,
      and when the answer is a non-empty name it comes from the cache
      whatever the file system now says. */
  lemma CanonicStable(cache: map<string, string>, f: string, resolve: string -> string, later: string -> string)
    ensures var (c, cache1) := CanonicStep(cache, f, resolve);
      CanonicStep(cache1, f, resolve) == (c, cache1) &&
      (c != "" ==> CanonicStep(cache1, f, later) == (c, cache1))
  {
    var (c, cache1) := CanonicStep(cache, f, resolve);
    if !IsPseudoName(f) && c == "" {
      assert cache1[f := c] == cache1;
    }
  }

  // ---------------------------------------------------------------------
  // The `breaks` map and the registry
  // ---------------------------------------------------------------------

  /** `breaks` lists, per file, the lines that have breakpoints: no empty
      list, no repeated line, and a (file, line) pair is listed exactly when
      the registry has a breakpoint there. */
  ghost predicate BreaksMatch(breaks: map<string, seq<int>>, byLocation: map<Location, seq<nat>>) {
    && (forall f :: f in breaks ==> breaks[f] != [] && NoDup(breaks[f]))
    && (forall f, l :: f in breaks && l in breaks[f] ==> (f, l) in byLocation)
    && (forall loc :: loc in byLocation ==> loc.0 in breaks && loc.1 in breaks[loc.0])
  }

  /** `breaks[f].remove(l)`, then `del breaks[f]` when that empties it. */
  function RemoveLine(breaks: map<string, seq<int>>, f: string, l: int): map<string, seq<int>>
    requires f in breaks && l in breaks[f]
  {
    var rest := RemoveFirst(breaks[f], l);
    if rest == [] then breaks - {f} else breaks[f := rest]
  }

  /** The match only depends on which locations the registry holds. */
  lemma MatchSameKeys(breaks: map<string, seq<int>>, a: map<Location, seq<nat>>, b: map<Location, seq<nat>>)
    requires BreaksMatch(breaks, a)
    requires forall loc :: loc in a <==> loc in b
    ensures BreaksMatch(breaks, b)
  {
  }

  /** Dropping a location from the registry and its line from `breaks`
      keeps them matched. */
  lemma RemoveLineMatch(breaks: map<string, seq<int>>, a: map<Location, seq<nat>>, b: map<Location, seq<nat>>, f: string, l: int)
    requires BreaksMatch(breaks, a) && (f, l) in a
    requires forall loc :: loc in b <==> loc in a && loc != (f, l)
    ensures f in breaks && l in breaks[f]
    ensures BreaksMatch(RemoveLine(breaks, f, l), b)
  {
    RemoveFirstNoDup(breaks[f], l);
    var r := RemoveLine(breaks, f, l);
    forall g, m | g in r && m in r[g] ensures (g, m) in b {
      if g == f {
        assert m in RemoveFirst(breaks[f], l);
      }
    }
    forall loc | loc in b ensures loc.0 in r && loc.1 in r[loc.0] {
      if loc.0 == f {
        assert loc.1 != l;
        assert loc.1 in RemoveFirst(breaks[f], l);
      }
    }
  }

  /** Deleting breakpoint `n` (one number of the `delete` command) and
      pruning its line from `breaks` once no breakpoint is left there. An
      unknown or deleted number changes nothing. */
  ghost function DeleteNumber(s: RegistryState, breaks: map<string, seq<int>>, n: nat): (RegistryState, map<string, seq<int>>)
    requires WellFormed(s) && BreaksMatch(breaks, s.byLocation)
  {
    if !Live(s, n) then (s, breaks)
    else
      var r := Delete(s, n).value;
      var loc := s.byNumber[n].value.Loc();
      if loc in r.byLocation then (r, breaks) else (r, RemoveLine(breaks, loc.0, loc.1))
  }

  lemma DeleteNumberValid(s: RegistryState, breaks: map<string, seq<int>>, n: nat)
    requires WellFormed(s) && BreaksMatch(breaks, s.byLocation)
    ensures var (r, b) := DeleteNumber(s, breaks, n);
      WellFormed(r) && BreaksMatch(b, r.byLocation) && !Live(r, n)
  {
    if Live(s, n) {
      DeleteWellFormed(s, n);
      var r := Delete(s, n).value;
      var loc := s.byNumber[n].value.Loc();
      if loc in r.byLocation {
        MatchSameKeys(breaks, s.byLocation, r.byLocation);
      } else {
        RemoveLineMatch(breaks, s.byLocation, r.byLocation, loc.0, loc.1);
      }
    }
  }

  /** One turn of `clear_break`'s loop: deleting the first number still
      listed at `loc` leaves the rest of the list there (or drops `loc`
      after the last one) and nulls exactly that number's slot. */
  lemma ClearStep(s0: RegistryState, s: RegistryState, loc: Location, list: seq<nat>, i: nat)
    requires WellFormed(s0) && WellFormed(s) && loc in s0.byLocation && list == s0.byLocation[loc]
    requires i < |list|
    requires s.byLocation == s0.byLocation[loc := list[i..]]
    ensures Live(s, list[i]) && Delete(s, list[i]).Ok?
    ensures var r := Delete(s, list[i]).value;
      && r.next == s.next && r.byNumber == s.byNumber[list[i] := None]
      && (i + 1 < |list| ==> r.byLocation == s0.byLocation[loc := list[i + 1..]])
      && (i + 1 == |list| ==> r.byLocation == s0.byLocation - {loc})
  {
    assert s.byLocation[loc] == list[i..];
    assert list[i..][0] == list[i];
    assert Live(s, list[i]) && s.byNumber[list[i]].value.Loc() == loc;
    var r := Delete(s, list[i]).value;
    assert RemoveFirst(list[i..], list[i]) == list[i + 1..];
    if i + 1 == |list| {
      assert r.byLocation == s.byLocation - {loc};
      assert s.byLocation - {loc} == s0.byLocation - {loc};
    } else {
      assert r.byLocation == s.byLocation[loc := list[i + 1..]];
    }
  }

  // ---------------------------------------------------------------------
  // break_here
  // ---------------------------------------------------------------------

  /** The line `break_here` settles on: the frame's current line if it has
      a breakpoint in the file, otherwise the first line of the frame's code
      (a breakpoint set by function name) if that has one. */
  function SelectedLine(breaks: map<string, seq<int>>, file: string, frame: Frame): (r: Option<int>)
    ensures r.None? <==> file !in breaks || (frame.lineno !in breaks[file] && frame.coFirstlineno !in breaks[file])
    ensures r.Some? ==> file in breaks && r.value in breaks[file]
    ensures r.Some? ==> r.value == (if frame.lineno in breaks[file] then frame.lineno else frame.coFirstlineno)
  {
    if file !in breaks then None
    else if frame.lineno in breaks[file] then Some(frame.lineno)
    else if frame.coFirstlineno in breaks[file] then Some(frame.coFirstlineno)
    else None
  }

  /** The breakpoint carries a thread name other than the debugger's. */
  predicate ThreadMismatch(bp: Bp, threadName: Option<string>) {
    bp.threadName.Some? && threadName.Some? && bp.threadName != threadName
  }

  /** Whether `break_here` answers True for the frame in canonical file
      `file`. */
  function BreakHit(breaks: map<string, seq<int>>, file: string, frame: Frame,
                    effective: (string, int) -> (Option<Bp>, bool), threadName: Option<string>): (hit: bool)
    ensures hit ==> SelectedLine(breaks, file, frame).Some?
  {
    var sel := SelectedLine(breaks, file, frame);
    sel.Some? &&
    var (bp, _) := effective(file, sel.value);
    bp.Some? && !ThreadMismatch(bp.value, threadName)
  }

  /** What `break_here` reads and writes besides the name cache: the
      registry, `breaks` and `currentbp`. */
  datatype HereState = HereState(reg: RegistryState, breaks: map<string, seq<int>>, currentbp: int)

  /** `break_here` for a frame whose canonical file name is `file`: its
      answer and the state it leaves. The breakpoint `effective` chooses
      becomes `currentbp` even when the thread check refuses it; it is
      deleted only when it passed that check, is temporary and `effective`
      asked for the deletion. */
  ghost function BreakHereSpec(s: HereState, file: string, frame: Frame, effective: (string, int) -> (Option<Bp>, bool),
                               threadName: Option<string>): (bool, HereState)
    requires WellFormed(s.reg) && BreaksMatch(s.breaks, s.reg.byLocation)
  {
    var sel := SelectedLine(s.breaks, file, frame);
    if sel.None? then (false, s)
    else
      var (bp, flag) := effective(file, sel.value);
      if bp.None? then (false, s)
      else if ThreadMismatch(bp.value, threadName) then (false, s.(currentbp := bp.value.number))
      else if flag && bp.value.temporary then
        var (reg, breaks) := DeleteNumber(s.reg, s.breaks, bp.value.number);
        (true, HereState(reg, breaks, bp.value.number))
      else (true, s.(currentbp := bp.value.number))
  }

  /** `break_here` answers `BreakHit`, keeps `breaks` in step with the
      registry, and changes the registry only by deleting the live
      breakpoint it hit. */
  lemma BreakHereSpecHit(s: HereState, file: string, frame: Frame, effective: (string, int) -> (Option<Bp>, bool),
                         threadName: Option<string>)
    requires WellFormed(s.reg) && BreaksMatch(s.breaks, s.reg.byLocation)
    ensures var (hit, r) := BreakHereSpec(s, file, frame, effective, threadName);
      && hit == BreakHit(s.breaks, file, frame, effective, threadName)
      && WellFormed(r.reg) && BreaksMatch(r.breaks, r.reg.byLocation)
      && (r.reg != s.reg ==> hit && Live(s.reg, r.currentbp) && !Live(r.reg, r.currentbp))
  {
    var sel := SelectedLine(s.breaks, file, frame);
    if sel.Some? {
      var (bp, flag) := effective(file, sel.value);
      if bp.Some? && !ThreadMismatch(bp.value, threadName) && flag && bp.value.temporary {
        var n := bp.value.number;
        DeleteNumberValid(s.reg, s.breaks, n);
        var (reg, breaks) := DeleteNumber(s.reg, s.breaks, n);
        assert BreakHereSpec(s, file, frame, effective, threadName) == (true, HereState(reg, breaks, n));
        assert BreakHit(s.breaks, file, frame, effective, threadName);
      }
    }
  }

  /** `bp_commands` on `currentbp`: whether an interaction follows, and
      `currentbp` afterwards. */
  function BpCommandsSpec(currentbp: int, commands: map<int, seq<string>>): (bool, int) {
    if currentbp != 0 && currentbp in commands then (false, 0) else (true, currentbp)
  }

  // ---------------------------------------------------------------------
  // user_line
  // ---------------------------------------------------------------------

  /** What a line event leaves: whether the debugger stops, `step_ignore`
      and the state `break_here` reads and writes. */
  datatype LineOutcome = LineOutcome(interact: bool, stepIgnore: int, here: HereState)

  /** The part of `user_line` taken when `stop_here` holds or tracing is
      on, for a frame whose canonical file name is `file`: a non-zero
      `step_ignore` ends the event (a positive one counted down);
      otherwise `break_here` runs, a `def` line without a breakpoint is
      skipped unless `deftrace` is on, function tracing alone is skipped
      too, and what is left goes to `bp_commands`. */
  ghost function TracedLineSpec(s: HereState, file: string, stepIgnore: int, frame: Frame, isDefStmt: bool,
                                deftrace: bool, fntrace: bool, commands: map<int, seq<string>>,
                                effective: (string, int) -> (Option<Bp>, bool), threadName: Option<string>): LineOutcome
    requires WellFormed(s.reg) && BreaksMatch(s.breaks, s.reg.byLocation)
  {
    if stepIgnore > 0 then LineOutcome(false, stepIgnore - 1, s)
    else if stepIgnore < 0 then LineOutcome(false, stepIgnore, s)
    else
      var (hit, h) := BreakHereSpec(s, file, frame, effective, threadName);
      if !hit && ((isDefStmt && !deftrace) || fntrace) then LineOutcome(false, 0, h)
      else
        var (interact, bp) := BpCommandsSpec(h.currentbp, commands);
        LineOutcome(interact, 0, h.(currentbp := bp))
  }

  /** The part of `user_line` taken otherwise: `break_here` runs; a step
      still being ignored is counted down when no breakpoint is hit, and
      what is left goes to `bp_commands`. */
  ghost function UntracedLineSpec(s: HereState, file: string, stepIgnore: int, frame: Frame,
                                  commands: map<int, seq<string>>, effective: (string, int) -> (Option<Bp>, bool),
                                  threadName: Option<string>): LineOutcome
    requires WellFormed(s.reg) && BreaksMatch(s.breaks, s.reg.byLocation)
  {
    var (hit, h) := BreakHereSpec(s, file, frame, effective, threadName);
    if !hit && stepIgnore > 0 then LineOutcome(false, stepIgnore - 1, h)
    else
      var (interact, bp) := BpCommandsSpec(h.currentbp, commands);
      LineOutcome(interact, stepIgnore, h.(currentbp := bp))
  }

  /** Under tracing: a non-zero `step_ignore` never stops and changes
      nothing else; at zero the debugger stops exactly when a breakpoint
      is hit or the line is not skipped, and the breakpoint `break_here`
      leaves current has no attached commands. */
  lemma TracedLineDecision(s: HereState, file: string, stepIgnore: int, frame: Frame, isDefStmt: bool,
                           deftrace: bool, fntrace: bool, commands: map<int, seq<string>>,
                           effective: (string, int) -> (Option<Bp>, bool), threadName: Option<string>)
    requires WellFormed(s.reg) && BreaksMatch(s.breaks, s.reg.byLocation)
    ensures var o := TracedLineSpec(s, file, stepIgnore, frame, isDefStmt, deftrace, fntrace, commands, effective, threadName);
      var hit := BreakHit(s.breaks, file, frame, effective, threadName);
      var h := BreakHereSpec(s, file, frame, effective, threadName).1;
      && WellFormed(o.here.reg) && BreaksMatch(o.here.breaks, o.here.reg.byLocation)
      && (stepIgnore != 0 ==>
            !o.interact && o.here == s && o.stepIgnore == (if stepIgnore > 0 then stepIgnore - 1 else stepIgnore))
      && (stepIgnore == 0 ==>
            && o.stepIgnore == 0 && o.here == h.(currentbp := o.here.currentbp)
            && (o.interact <==>
                  (hit || !((isDefStmt && !deftrace) || fntrace)) && !(h.currentbp != 0 && h.currentbp in commands)))
      && (o.interact ==> o.here.currentbp == 0 || o.here.currentbp !in commands)
  {
    BreakHereSpecHit(s, file, frame, effective, threadName);
  }

  /** Without tracing: the debugger stops exactly when a breakpoint is hit
      or no step is being ignored, and the breakpoint `break_here` leaves
      current has no attached commands; `step_ignore` is counted down only
      for a line without a breakpoint hit. */
  lemma UntracedLineDecision(s: HereState, file: string, stepIgnore: int, frame: Frame,
                             commands: map<int, seq<string>>, effective: (string, int) -> (Option<Bp>, bool),
                             threadName: Option<string>)
    requires WellFormed(s.reg) && BreaksMatch(s.breaks, s.reg.byLocation)
    ensures var o := UntracedLineSpec(s, file, stepIgnore, frame, commands, effective, threadName);
      var hit := BreakHit(s.breaks, file, frame, effective, threadName);
      var h := BreakHereSpec(s, file, frame, effective, threadName).1;
      && WellFormed(o.here.reg) && BreaksMatch(o.here.breaks, o.here.reg.byLocation)
      && o.here == h.(currentbp := o.here.currentbp)
      && o.stepIgnore == (if !hit && stepIgnore > 0 then stepIgnore - 1 else stepIgnore)
      && (o.interact <==> (hit || stepIgnore <= 0) && !(h.currentbp != 0 && h.currentbp in commands))
      && (o.interact ==> o.here.currentbp == 0 || o.here.currentbp !in commands)
  {
    BreakHereSpecHit(s, file, frame, effective, threadName);
  }

  /** `user_line` for a frame whose canonical file name is `file`: while
      waiting for the main program file nothing changes until a frame of
      that file with a positive line number arrives; then the traced or
      untraced part applies, and the wait is over. The second component is
      whether the debugger still waits. */
  ghost function UserLineSpec(s: HereState, file: string, stepIgnore: int, waiting: bool, mainpyfile: string,
                              frame: Frame, stopHere: bool, isDefStmt: bool, linetrace: bool, deftrace: bool,
                              fntrace: bool, commands: map<int, seq<string>>,
                              effective: (string, int) -> (Option<Bp>, bool), threadName: Option<string>): (LineOutcome, bool)
    requires WellFormed(s.reg) && BreaksMatch(s.breaks, s.reg.byLocation)
  {
    if waiting && (mainpyfile != file || frame.lineno <= 0) then (LineOutcome(false, stepIgnore, s), true)
    else if stopHere || linetrace || fntrace then
      (TracedLineSpec(s, file, stepIgnore, frame, isDefStmt, deftrace, fntrace, commands, effective, threadName), false)
    else (UntracedLineSpec(s, file, stepIgnore, frame, commands, effective, threadName), false)
  }

  /** While waiting for the main program file, a line of another file (or
      a non-positive line) never stops and changes nothing; the first line
      of the main file ends the wait and is handled exactly as if the
      debugger had not been waiting. */
  lemma UserLineWaiting(s: HereState, file: string, stepIgnore: int, mainpyfile: string, frame: Frame,
                        stopHere: bool, isDefStmt: bool, linetrace: bool, deftrace: bool, fntrace: bool,
                        commands: map<int, seq<string>>, effective: (string, int) -> (Option<Bp>, bool),
                        threadName: Option<string>)
    requires WellFormed(s.reg) && BreaksMatch(s.breaks, s.reg.byLocation)
    ensures var (o, waiting) := UserLineSpec(s, file, stepIgnore, true, mainpyfile, frame, stopHere, isDefStmt,
                                             linetrace, deftrace, fntrace, commands, effective, threadName);
      var unwaited := UserLineSpec(s, file, stepIgnore, false, mainpyfile, frame, stopHere, isDefStmt,
                                   linetrace, deftrace, fntrace, commands, effective, threadName);
      && (mainpyfile != file || frame.lineno <= 0 <==> waiting)
      && (waiting ==> !o.interact && o.stepIgnore == stepIgnore && o.here == s)
      && (!waiting ==> o == unwaited.0 && !unwaited.1)
  {
  }

  // ---------------------------------------------------------------------
  // output_break_commands
  // ---------------------------------------------------------------------

  function CondText(cond: Option<string>): string {
    if cond.Some? then cond.value else ""
  }

  /** `"break %s:%s%s" % (filename(bp.file), bp.line, condition)` */
  function BreakLine(bp: Bp, basename: bool): string {
    "break " + FileLabel(bp.file, basename) + ":" + IntToString(bp.line) + CondText(bp.cond)
  }

  function DisableLine(k: int): string {
    "disable " + IntToString(k)
  }

  /** The commands `output_break_commands` emits for by-number slots `i`
      onward when `bpNo` live breakpoints came before. */
  function BreakCommandsFrom(entries: seq<Option<Bp>>, i: nat, bpNo: nat, basename: bool): seq<string>
    requires i <= |entries|
    decreases |entries| - i
  {
    if i == |entries| then []
    else if entries[i].None? then BreakCommandsFrom(entries, i + 1, bpNo, basename)
    else
      var bp := entries[i].value;
      [BreakLine(bp, basename)] + (if !bp.enabled then [DisableLine(bpNo + 1)] else [])
        + BreakCommandsFrom(entries, i + 1, bpNo + 1, basename)
  }

  /** One slot of `output_break_commands`. */
  lemma BreakCommandsStep(entries: seq<Option<Bp>>, i: nat, bpNo: nat, basename: bool)
    requires i < |entries|
    ensures BreakCommandsFrom(entries, i, bpNo, basename) ==
      if entries[i].None? then BreakCommandsFrom(entries, i + 1, bpNo, basename)
      else ([BreakLine(entries[i].value, basename)]
        + (if !entries[i].value.enabled then [DisableLine(bpNo + 1)] else [])
        + BreakCommandsFrom(entries, i + 1, bpNo + 1, basename))
  {
  }

  lemma AppendLines(out: seq<string>, lines: seq<string>, rest: seq<string>)
    ensures (out + lines) + rest == out + (lines + rest)
    ensures out + [] == out
  {
  }

  /** The live breakpoints in slots `i` onward, in number order. */
  function LiveFrom(entries: seq<Option<Bp>>, i: nat): seq<Bp>
    requires i <= |entries|
    decreases |entries| - i
  {
    if i == |entries| then []
    else (if entries[i].Some? then [entries[i].value] else []) + LiveFrom(entries, i + 1)
  }

  /** Reference rendering of a list of live breakpoints, the first being at
      1-based position `k`: a `break` line each, followed by `disable k` for
      a disabled one. */
  function Render(bps: seq<Bp>, k: nat, basename: bool): seq<string> {
    if bps == [] then [] else RenderOne(bps[0], k, basename) + Render(bps[1..], k + 1, basename)
  }

  /** The lines for one breakpoint at position `k`. */
  function RenderOne(bp: Bp, k: nat, basename: bool): seq<string> {
    [BreakLine(bp, basename)] + (if !bp.enabled then [DisableLine(k)] else [])
  }

  /** `output_break_commands` renders exactly the live breakpoints, in
      number order, each disabled one followed by `disable` with its
      position among the live ones. */
  lemma {:induction false} BreakCommandsRender(entries: seq<Option<Bp>>, i: nat, bpNo: nat, basename: bool)
    requires i <= |entries|
    ensures BreakCommandsFrom(entries, i, bpNo, basename) == Render(LiveFrom(entries, i), bpNo + 1, basename)
    decreases |entries| - i
  {
    if i < |entries| {
      if entries[i].None? {
        BreakCommandsRender(entries, i + 1, bpNo, basename);
        assert LiveFrom(entries, i) == LiveFrom(entries, i + 1);
      } else {
        BreakCommandsRender(entries, i + 1, bpNo + 1, basename);
        var live := LiveFrom(entries, i);
        assert live == [entries[i].value] + LiveFrom(entries, i + 1);
        assert live[1..] == LiveFrom(entries, i + 1);
      }
    }
  }

  lemma IntToStringInjective(a: int, b: int)
    requires IntToString(a) == IntToString(b)
    ensures a == b
  {
    ParseIntOfIntToString(a);
    ParseIntOfIntToString(b);
  }

  /** A `disable` line names one position and never reads as a `break`
      line. */
  lemma DisableLineOf(bp: Bp, basename: bool, k: int, j: int)
    ensures DisableLine(k) != BreakLine(bp, basename)
    ensures DisableLine(k) == DisableLine(j) ==> k == j
  {
    assert BreakLine(bp, basename)[0] == 'b' && DisableLine(k)[0] == 'd';
    if DisableLine(k) == DisableLine(j) {
      assert IntToString(k) == DisableLine(k)[8..] == DisableLine(j)[8..] == IntToString(j);
      IntToStringInjective(k, j);
    }
  }

  /** A `disable` line names position `k` exactly when the breakpoint at that
      position (counting from `first`) is disabled. */
  lemma {:induction false} RenderDisable(bps: seq<Bp>, first: nat, basename: bool, k: int)
    ensures DisableLine(k) in Render(bps, first, basename) <==>
      first <= k < first + |bps| && !bps[k - first].enabled
    decreases |bps|
  {
    if bps != [] {
      RenderDisable(bps[1..], first + 1, basename, k);
      DisableLineOf(bps[0], basename, k, first);
      var one := RenderOne(bps[0], first, basename);
      assert DisableLine(k) in one <==> k == first && !bps[0].enabled;
      if first + 1 <= k < first + |bps| {
        assert bps[1..][k - (first + 1)] == bps[k - first];
      }
    }
  }

  /** The registry after every breakpoint at `loc` in `s0` was deleted:
      `numbers` is the list that was there, the location is gone, exactly
      those slots are emptied and no number is handed out. */
  ghost predicate ClearedAt(s0: RegistryState, s: RegistryState, loc: Location, numbers: seq<nat>) {
    && loc in s0.byLocation
    && numbers == s0.byLocation[loc]
    && s.byLocation == s0.byLocation - {loc}
    && s.next == s0.next && |s.byNumber| == |s0.byNumber|
    && (forall m :: 0 <= m < |s.byNumber| ==>
          s.byNumber[m] == if m in numbers then None else s0.byNumber[m])
  }

  /** `clear_break`'s complaint about a location without breakpoints. */
  function NoBreakpointText(file: string, basename: bool, lineno: int): string {
    "No breakpoint at " + FileLabel(file, basename) + ":" + IntToString(lineno) + "."
  }

  /** The debugger object: the `Bdb` attributes the stop decisions use, the
      breakpoint registry, and the command-line object whose `rcLines`
      `user_exception` clears (in Python all three are the same object or
      class attributes of it). */
  class Debugger {
    const bps: Registry
    const cli: Cmd.CommandLine
    var breaks: map<string, seq<int>>
    var fncache: map<string, string>
    var stepIgnore: int
    var stopReason: StopReason
    var currentbp: int
    var waitForMainpyfile: bool
    var mainpyfile: string
    var linetrace: bool
    var fntrace: bool
    var deftrace: bool
    var basename: bool
    var threadName: Option<string>
    var hasReturnframe: bool
    var commands: map<int, seq<string>>

    ghost predicate Valid()
      reads this, bps
    {
      bps.Valid() && BreaksMatch(breaks, bps.byLocation)
    }

    /** `Bdb.__init__` (with `bdb.Bdb.__init__`): no breakpoints, an empty
        name cache, `step_ignore` 0 and `deftrace` off. */
    constructor (argv: seq<string>)
      ensures Valid() && fresh(bps) && fresh(cli)
      ensures bps.State() == Empty() && breaks == map[] && fncache == map[]
      ensures stepIgnore == 0 && !deftrace && currentbp == 0 && commands == map[]
    {
      bps := new Registry();
      cli := new Cmd.CommandLine(argv);
      breaks := map[];
      fncache := map[];
      stepIgnore := 0;
      stopReason := NotStopped;
      currentbp := 0;
      waitForMainpyfile := false;
      mainpyfile := "";
      linetrace := false;
      fntrace := false;
      deftrace := false;
      basename := false;
      threadName := None;
      hasReturnframe := false;
      commands := map[];
    }

    /** The state `break_here` reads and writes besides the name cache. */
    function Here(): HereState
      reads this, bps
    {
      HereState(bps.State(), breaks, currentbp)
    }

    /** `filename(f)` under the current settings. */
    function Filename(f: Option<string>): Option<string>
      reads this
    {
      DisplayName(f, mainpyfile, basename)
    }

    /** `canonic`, `resolve` standing for the path search. */
    method Canonic(filename: string, resolve: string -> string) returns (c: string)
      modifies this`fncache
      ensures (c, fncache) == CanonicStep(old(fncache), filename, resolve)
    {
      if "<" + Inner(filename) + ">" == filename {
        return filename;
      }
      if filename in fncache && fncache[filename] != "" {
        return fncache[filename];
      }
      c := resolve(filename);
      fncache := fncache[filename := c];
    }

    /** `set_break` of the standard debugger base class (a canonical file
        name and an existing line assumed): the line joins `breaks[file]`
        unless already there and a new breakpoint with condition `cond` is
        made. */
    method SetBreak(file: string, line: int, temporary: bool, cond: Option<string>) returns (n: nat)
      requires Valid()
      modifies this`breaks, bps
      ensures Valid()
      ensures n == old(bps.next) && Live(bps.State(), n)
      ensures bps.State() == SetCondition(Add(old(bps.State()), file, line, temporary), n, cond)
      ensures file in breaks && line in breaks[file]
      ensures forall f :: f != file ==> (f in breaks <==> f in old(breaks)) && (f in breaks ==> breaks[f] == old(breaks)[f])
    {
      var lines := if file in breaks then breaks[file] else [];
      if line !in lines {
        lines := lines + [line];
      }
      breaks := breaks[file := lines];
      n := bps.Create(file, line, temporary);
      bps.SetCond(n, cond);
      assert NoDup(lines);
      assert forall loc :: loc in bps.byLocation ==> loc in old(bps.byLocation) || loc == (file, line);
    }

    /** One number of the `delete` command: the breakpoint is deleted and
        its line leaves `breaks` once no breakpoint is left there. */
    method DeleteBreakpoint(n: nat) returns (ok: bool)
      requires Valid()
      modifies this`breaks, bps
      ensures Valid()
      ensures ok == Live(old(bps.State()), n)
      ensures (bps.State(), breaks) == DeleteNumber(old(bps.State()), old(breaks), n)
    {
      DeleteNumberValid(bps.State(), breaks, n);
      if !Live(bps.State(), n) {
        return false;
      }
      var loc := bps.byNumber[n].value.Loc();
      ok := bps.DeleteMe(n);
      if loc !in bps.byLocation {
        breaks := RemoveLine(breaks, loc.0, loc.1);
      }
    }

    /** `break_here`: settle on a line with a breakpoint, ask `effective`
        (the standard library's choice among the breakpoints there, with
        its "delete a temporary breakpoint" flag), record the breakpoint's
        number, refuse it on a thread-name mismatch, and delete it only when
        it was chosen, passed the thread check, is temporary and the flag
        is set. */
    method BreakHere(frame: Frame, effective: (string, int) -> (Option<Bp>, bool), resolve: string -> string)
      returns (hit: bool)
      requires Valid()
      modifies this`fncache, this`currentbp, this`breaks, bps
      ensures Valid()
      ensures (hit, Here()) ==
        BreakHereSpec(old(Here()), CanonicStep(old(fncache), frame.coFilename, resolve).0, frame, effective, threadName)
      ensures var (file, cache) := CanonicStep(old(fncache), frame.coFilename, resolve);
        var sel := SelectedLine(old(breaks), file, frame);
        && fncache == cache
        && hit == BreakHit(old(breaks), file, frame, effective, threadName)
        && (sel.None? || effective(file, sel.value).0.None? ==>
              currentbp == old(currentbp) && breaks == old(breaks) && bps.State() == old(bps.State()))
        && (sel.Some? && effective(file, sel.value).0.Some? ==>
              var (bp, flag) := effective(file, sel.value);
              && currentbp == bp.value.number
              && (hit && flag && bp.value.temporary ==>
                    (bps.State(), breaks) == DeleteNumber(old(bps.State()), old(breaks), bp.value.number))
              && (!(hit && flag && bp.value.temporary) ==>
                    breaks == old(breaks) && bps.State() == old(bps.State())))
    {
      var file := Canonic(frame.coFilename, resolve);
      if file !in breaks {
        return false;
      }
      var lineno := frame.lineno;
      if lineno !in breaks[file] {
        lineno := frame.coFirstlineno;
        if lineno !in breaks[file] {
          return false;
        }
      }
      var eff := effective(file, lineno);
      var bp := eff.0;
      var flag := eff.1;
      if bp.None? {
        return false;
      }
      currentbp := bp.value.number;
      if ThreadMismatch(bp.value, threadName) {
        return false;
      }
      if flag && bp.value.temporary {
        var _ := DeleteBreakpoint(bp.value.number);
      }
      return true;
    }

    /** `clear_break`'s loop: every breakpoint listed at `loc` is deleted,
        in list order, and the list is returned. */
    method DeleteAllAt(loc: Location) returns (numbers: seq<nat>)
      requires bps.Valid() && loc in bps.byLocation
      modifies bps
      ensures bps.Valid() && ClearedAt(old(bps.State()), bps.State(), loc, numbers)
    {
      var list := bps.byLocation[loc];
      ghost var s0 := bps.State();
      numbers := [];
      var i := 0;
      while i < |list|
        invariant 0 <= i <= |list|
        invariant bps.Valid()
        invariant numbers == list[..i]
        invariant bps.next == s0.next && |bps.byNumber| == |s0.byNumber|
        invariant i < |list| ==> bps.byLocation == s0.byLocation[loc := list[i..]]
        invariant i == |list| ==> bps.byLocation == s0.byLocation - {loc}
        invariant forall m :: 0 <= m < |bps.byNumber| ==>
          bps.byNumber[m] == if m in list[..i] then None else s0.byNumber[m]
      {
        if i == 0 {
          assert s0.byLocation[loc := list[0..]] == s0.byLocation;
        }
        ClearStep(s0, bps.State(), loc, list, i);
        ghost var before := bps.byNumber;
        var _ := bps.DeleteMe(list[i]);
        assert bps.byNumber == before[list[i] := None];
        assert list[..i + 1] == list[..i] + [list[i]];
        numbers := numbers + [list[i]];
        i := i + 1;
      }
      assert list[..i] == list;
    }

    /** `clear_break`: every breakpoint at the location is deleted, in list
        order, and its numbers are returned; the line leaves `breaks[file]`
        and an emptied file leaves `breaks`. With no breakpoint there an
        error is reported and nothing else changes. */
    method ClearBreak(filename: string, lineno: int, resolve: string -> string) returns (numbers: seq<nat>)
      requires Valid()
      modifies this`fncache, this`breaks, bps, cli`terminal, cli`logFile
      ensures Valid()
      ensures var (file, cache) := CanonicStep(old(fncache), filename, resolve);
        && fncache == cache
        && (!(file in old(breaks) && lineno in old(breaks)[file]) ==>
              && numbers == [] && breaks == old(breaks) && bps.State() == old(bps.State())
              && var msg := "*** " + NoBreakpointText(file, basename, lineno) + "\n";
              var (toLog, toTerminal) := Cmd.Routes(cli.logging, cli.hasLogFile, cli.redirect);
              && cli.logFile == old(cli.logFile) + (if toLog then [msg] else [])
              && cli.terminal == old(cli.terminal) + (if toTerminal then [msg] else []))
        && (file in old(breaks) && lineno in old(breaks)[file] ==>
              && ClearedAt(old(bps.State()), bps.State(), (file, lineno), numbers)
              && breaks == RemoveLine(old(breaks), file, lineno)
              && cli.terminal == old(cli.terminal) && cli.logFile == old(cli.logFile))
    {
      var file := Canonic(filename, resolve);
      if !(file in breaks && lineno in breaks[file]) {
        cli.Errmsg(NoBreakpointText(file, basename, lineno));
        return [];
      }
      ghost var s0 := bps.State();
      numbers := DeleteAllAt((file, lineno));
      RemoveLineMatch(breaks, s0.byLocation, bps.byLocation, file, lineno);
      breaks := RemoveLine(breaks, file, lineno);
    }

    /** `output_break_commands` */
    method OutputBreakCommands() returns (out: seq<string>)
      ensures out == BreakCommandsFrom(bps.byNumber, 0, 0, basename)
      ensures out == Render(LiveFrom(bps.byNumber, 0), 1, basename)
    {
      var entries := bps.byNumber;
      var bpNo := 0;
      out := [];
      var i := 0;
      while i < |entries|
        invariant 0 <= i <= |entries|
        invariant out + BreakCommandsFrom(entries, i, bpNo, basename) == BreakCommandsFrom(entries, 0, 0, basename)
      {
        BreakCommandsStep(entries, i, bpNo, basename);
        if entries[i].Some? {
          var bp := entries[i].value;
          var lines := [BreakLine(bp, basename)] + if !bp.enabled then [DisableLine(bpNo + 1)] else [];
          AppendLines(out, lines, BreakCommandsFrom(entries, i + 1, bpNo + 1, basename));
          bpNo := bpNo + 1;
          out := out + lines;
        }
        i := i + 1;
      }
      AppendLines(out, [], []);
      BreakCommandsRender(entries, 0, 0, basename);
    }

    /** `bp_commands`: when the breakpoint just hit has commands attached,
        `currentbp` is reset and no interaction follows (the attached
        commands themselves are not part of this model). */
    method BpCommands() returns (interact: bool)
      modifies this`currentbp
      ensures interact <==> !(old(currentbp) != 0 && old(currentbp) in commands)
      ensures currentbp == if interact then old(currentbp) else 0
      ensures (interact, currentbp) == BpCommandsSpec(old(currentbp), commands)
    {
      if currentbp != 0 && currentbp in commands {
        currentbp := 0;
        return false;
      }
      return true;
    }

    /** `user_call`: never stops while waiting for the main program file;
        otherwise stops when `stop_here` says so, and under line or function
        tracing only at a breakpoint. */
    method UserCall(frame: Frame, stopHere: bool, effective: (string, int) -> (Option<Bp>, bool), resolve: string -> string)
      returns (interact: bool)
      requires Valid()
      modifies this`stopReason, this`fncache, this`currentbp, this`breaks, bps
      ensures Valid() && stopReason == CallEvent
      ensures old(waitForMainpyfile) || !stopHere || !(linetrace || fntrace) ==>
        && interact == (!old(waitForMainpyfile) && stopHere)
        && fncache == old(fncache) && currentbp == old(currentbp)
        && breaks == old(breaks) && bps.State() == old(bps.State())
      ensures !old(waitForMainpyfile) && stopHere && (linetrace || fntrace) ==>
        interact == BreakHit(old(breaks), CanonicStep(old(fncache), frame.coFilename, resolve).0, frame, effective, threadName)
      ensures !old(waitForMainpyfile) && stopHere && (linetrace || fntrace) ==>
        && fncache == CanonicStep(old(fncache), frame.coFilename, resolve).1
        && (interact, Here()) ==
             BreakHereSpec(old(Here()), CanonicStep(old(fncache), frame.coFilename, resolve).0, frame, effective, threadName)
    {
      stopReason := CallEvent;
      if waitForMainpyfile {
        return false;
      }
      if stopHere {
        if linetrace || fntrace {
          var hit := BreakHere(frame, effective, resolve);
          if !hit {
            return false;
          }
        }
        return true;
      }
      return false;
    }

    /** The part of `user_line` taken when `stop_here` holds or tracing is
        on: a positive `step_ignore` is counted down and a negative one is
        left alone, without stopping; otherwise a `def` line without a
        breakpoint is skipped unless `deftrace` is on, and function tracing
        alone never stops. */
    method TracedLine(frame: Frame, isDefStmt: bool,
                      effective: (string, int) -> (Option<Bp>, bool), resolve: string -> string)
      returns (interact: bool)
      requires Valid()
      modifies this`stepIgnore, this`fncache, this`currentbp, this`breaks, bps
      ensures Valid()
      ensures var (file, cache) := CanonicStep(old(fncache), frame.coFilename, resolve);
        && fncache == cache
        && LineOutcome(interact, stepIgnore, Here()) ==
             TracedLineSpec(old(Here()), file, old(stepIgnore), frame, isDefStmt, deftrace, fntrace, commands, effective, threadName)
    {
      CanonicStable(fncache, frame.coFilename, resolve, resolve);
      var shown := Canonic(frame.coFilename, resolve);
      if stepIgnore > 0 {
        stepIgnore := stepIgnore - 1;
        return false;
      } else if stepIgnore < 0 {
        return false;
      }
      var hit := BreakHere(frame, effective, resolve);
      if !hit {
        if isDefStmt && !deftrace {
          return false;
        } else if fntrace {
          return false;
        }
      }
      interact := BpCommands();
    }

    /** The part of `user_line` taken otherwise: a step still being ignored
        is counted down when no breakpoint is hit. */
    method UntracedLine(frame: Frame, effective: (string, int) -> (Option<Bp>, bool), resolve: string -> string)
      returns (interact: bool)
      requires Valid()
      modifies this`stepIgnore, this`fncache, this`currentbp, this`breaks, bps
      ensures Valid()
      ensures var (file, cache) := CanonicStep(old(fncache), frame.coFilename, resolve);
        && fncache == cache
        && LineOutcome(interact, stepIgnore, Here()) ==
             UntracedLineSpec(old(Here()), file, old(stepIgnore), frame, commands, effective, threadName)
    {
      var hit := BreakHere(frame, effective, resolve);
      if !hit && stepIgnore > 0 {
        stepIgnore := stepIgnore - 1;
        return false;
      }
      interact := BpCommands();
    }

    /** `user_line`. While waiting for the main program file nothing
        happens until a frame of that file with a positive line number
        arrives; then the traced or untraced rules apply. */
    method UserLine(frame: Frame, stopHere: bool, isDefStmt: bool,
                    effective: (string, int) -> (Option<Bp>, bool), resolve: string -> string)
      returns (interact: bool)
      requires Valid()
      modifies this`stopReason, this`waitForMainpyfile, this`stepIgnore, this`fncache, this`currentbp, this`breaks, bps
      ensures Valid() && stopReason == LineEvent
      ensures var (file, cache) := CanonicStep(old(fncache), frame.coFilename, resolve);
        && fncache == cache
        && (LineOutcome(interact, stepIgnore, Here()), waitForMainpyfile) ==
             UserLineSpec(old(Here()), file, old(stepIgnore), old(waitForMainpyfile), mainpyfile, frame, stopHere,
                          isDefStmt, linetrace, deftrace, fntrace, commands, effective, threadName)
    {
      stopReason := LineEvent;
      ghost var s := Here();
      ghost var file := CanonicStep(fncache, frame.coFilename, resolve).0;
      CanonicStable(fncache, frame.coFilename, resolve, resolve);
      if waitForMainpyfile {
        var c0 := Canonic(frame.coFilename, resolve);
        if mainpyfile != c0 || frame.lineno <= 0 {
          return false;
        }
        waitForMainpyfile := false;
      }
      assert Here() == s;
      if stopHere || linetrace || fntrace {
        interact := TracedLine(frame, isDefStmt, effective, resolve);
      } else {
        interact := UntracedLine(frame, effective, resolve);
      }
    }

    /** `user_return`: stops exactly when a return frame is set. */
    method UserReturn(frame: Frame) returns (interact: bool)
      modifies this`stopReason
      ensures stopReason == ReturnEvent && interact == hasReturnframe
    {
      stopReason := ReturnEvent;
      interact := hasReturnframe;
    }

    /** `user_exception`: always stops, after dropping pending start-up
        commands. */
    method UserException(frame: Frame) returns (interact: bool)
      modifies this`stopReason, cli`rcLines
      ensures stopReason == ExceptionEvent && cli.rcLines == [] && interact
    {
      stopReason := ExceptionEvent;
      cli.rcLines := [];
      interact := true;
    }
  }
}
