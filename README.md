# pydb bookkeeping and command-line core in Dafny

A model of the core of pydb, the extended Python debugger. The model covers:

- **Breakpoint registry** (`Breakpoints`). This is the `Breakpoint` class of `pydb/pydbsupt.py`. It keeps a monotone counter and a by-number list whose deleted slots become `None`. It also keeps a `(file, line)` multimap of the live breakpoints. All three are maintained under a two-index invariant (`WellFormed`).
- **Stop-decision layer** (`Bdb`). This covers `break_here`, `clear_break`, `canonic`, `filename`, `output_break_commands`, `bp_commands` and the `user_call`/`user_line`/`user_return`/`user_exception` hooks of `pydb/pydbbdb.py`, including the `step_ignore` counter and the `breaks` map. The standard debugger base class is not part of this model. Its `effective` and `stop_here` are parameters: a function and a boolean.
- **Signal table** (`Signals`). This is `pydb/sighandler.py`. The name/number lookups run over a finite attribute table. The `[stop, print, pass]` flags of every signal keep the invariant "stop implies print". The `handle` command's modifier parser and the handler for an arriving signal are modelled too.
- **Display registries** (`Displays`). `pydb/display.py`, `pydb/pydbdisp.py` and the `Display`/`DisplayNode` part of `pydb/pydbsupt.py` are three near copies of one registry. They share one model, and each member cites the copy whose lines it follows. The registry holds numbered watch expressions keyed by a call-site signature. Its counter is rolled back when a new display fails.
- **Command line** (`Cmd`). From `pydb/pydbcmd.py`: alias expansion and `;;` splitting in `precmd`, the on/off and integer parsers, the start-up `rcLines` consumer, message routing to the log and the terminal, and `set_args`.
- **Subcommands** (`Subcmds`). This is `pydb/subcmd.py`: prefix lookup with a minimum abbreviation, `add`, `do`, `list` and `help`.
- **Completion** (`Complete`). This is `pydb/complete.py`: `list_completions` accumulating into a shared `seen` set and `completions` list, and `complete_subcommand`.
- **Helpers** (`Fns`). From `pydb/fns.py`: `checkline`, `printf` with its nibble-aligned binary conversion, `show_onoff`, `get_exec_string`, `get_confirmation` and the count of `print_stack_trace`.
- **Bytecode walker** (`Disassemble`). This is the decoding loop of `disassemble_string` in `pydb/disassemble.py`. It covers operands, `EXTENDED_ARG`, line-range filtering and the `-->`/`>>` markers. Output is a sequence of `msg_nocr`/`msg` calls.

Supporting modules:

- `Wrappers` holds `Option`, `Result` and the Python exceptions the core raises.
- `PyStr` models the Python string operations the core uses: `strip`, `split`, `find`, `replace`, `startswith`, `%d`, `int()`, `rjust`/`ljust` and string order.
- `Frames` models the four frame attributes the core reads: the code object's name, file name and first line, and the current line.

Python's in-place objects become Dafny classes:

- `Breakpoints.Registry`
- `Bdb.Debugger`
- `Signals.SigHandler`
- `Displays.Display`
- `Cmd.CommandLine`
- `Subcmds.Subcmd`
- `Complete.Completions`

Each method states its new state through a value-level function of the old state (for example `Breakpoints.Add` and `Breakpoints.Delete`). The properties are proved about those functions.

Outside effects are modelled as parameters or sequences:

- Output is a sequence of strings or calls.
- The user's replies are a sequence.
- `eval` of a display expression, the `printf` conversions other than `t`, `onecmd`, the file search behind `canonic`, and `is_def_stmt` are function parameters.

## Model

| member | source | states |
|---|---|---|
| Breakpoints.RemoveFirst | pydb/pydbsupt.py:43 | `list.remove(x)` on a list that holds x leaves it one element shorter |
| Breakpoints.RemoveFirstNoDup | pydb/pydbsupt.py:43-45 | removing from a list without repeats leaves a list without repeats that lacks exactly that element |
| Breakpoints.EmptyWellFormed | pydb/pydbsupt.py:16-20 | the initial class state (`next` 1, slot 0 a placeholder, no locations) satisfies the two-index invariant |
| Breakpoints.AddWellFormed | pydb/pydbsupt.py:22-37 | construction keeps the invariant, numbers the breakpoint `next`, bumps `next` by one, appends it at the end of its location's list and leaves every other location and live breakpoint unchanged |
| Breakpoints.DeleteWellFormed | pydb/pydbsupt.py:40-46 | `deleteMe` keeps the invariant, nulls exactly its by-number slot without changing the list length, removes exactly its number from its location and drops the location once empty |
| Breakpoints.DeleteTwiceFails | pydb/pydbsupt.py:40-46 | deleting the same breakpoint a second time fails |
| Breakpoints.NumbersNeverReused | pydb/pydbsupt.py:30-31 | numbers strictly increase: a later breakpoint gets a larger number even after deletions |
| Breakpoints.SetEnabledWellFormed | pydb/pydbsupt.py:48-52 | `enable`/`disable` keep the invariant and set the flag of that breakpoint only: every other slot, the counter and the list length are unchanged, and a number that is not live changes nothing |
| Breakpoints.Registry.constructor | pydb/pydbsupt.py:16-20 | the class attributes start as the empty registry |
| Breakpoints.Registry.Create | pydb/pydbsupt.py:22-37 | the new state is `Add` of the old state, and the number returned is the old `next` and live |
| Breakpoints.Registry.DeleteMe | pydb/pydbsupt.py:40-46 | a live breakpoint is deleted as `Delete` says; otherwise the call fails and nothing changes |
| Breakpoints.Registry.SetEnabledFlag | pydb/pydbsupt.py:48-52 | the new state is `SetEnabled` of the old one and stays valid |
| Bdb.PseudoNameTest | pydb/pydbbdb.py:196-197 | the test `f == "<" + f[1:-1] + ">"` holds exactly for names that start with `<` and end with `>` |
| Bdb.BasenameSuffix | pydb/pydbbdb.py:269-270 | the basename is the suffix of the path after its last `/` and holds no `/` |
| Bdb.DisplayName | pydb/pydbbdb.py:261-271 | `None` stands for the main file; the result is `None` only when there is no main file; it is the name itself without the basename setting and slash-free with it |
| Bdb.CanonicStep | pydb/pydbbdb.py:196-217 | a `<...>` name comes back unchanged with the cache untouched; any other name is served from the cache when it is cached, and otherwise resolved and stored under that name alone |
| Bdb.CanonicStable | pydb/pydbbdb.py:198-216 | a name whose cached answer is non-empty is resolved at most once: asking again returns the same answer whatever the file system says later (an empty cached answer is recomputed, as `if not canonic` does) |
| Bdb.MatchSameKeys | pydb/pydbbdb.py:238-241 | whether `breaks` matches the location index depends only on which locations are present |
| Bdb.RemoveLineMatch | pydb/pydbbdb.py:238-241 | removing the line from `breaks[file]` and dropping an emptied file keeps `breaks` in step with the registry |
| Bdb.DeleteNumberValid | pydb/pydbbdb.py:186 | deleting one number (for a temporary breakpoint hit) keeps the registry invariant and the `breaks` match |
| Bdb.ClearStep | pydb/pydbbdb.py:235-237 | each turn of `clear_break`'s loop deletes the next breakpoint of the location's snapshot, which is still live, and leaves the rest of the list in place |
| Bdb.SelectedLine | pydb/pydbbdb.py:165-174 | no line is chosen exactly when the file has no `breaks` entry or neither `f_lineno` nor `co_firstlineno` is listed; `f_lineno` is preferred |
| Bdb.BreakHit | pydb/pydbbdb.py:177-189 | `break_here` answers True only when a line was selected, `effective` returned a breakpoint and the thread names do not differ |
| Bdb.BreakCommandsRender | pydb/pydbbdb.py:144-157 | `output_break_commands` renders exactly the live breakpoints in number order, each `disable` line following its breakpoint and naming its position among the live ones |
| Bdb.IntToStringInjective | pydb/pydbbdb.py:156 | different positions give different `disable` numbers |
| Bdb.DisableLineOf | pydb/pydbbdb.py:153-156 | a `disable` line is never a `break` line, and it determines its position |
| Bdb.RenderDisable | pydb/pydbbdb.py:155-156 | `disable k` appears exactly when the k-th live breakpoint is disabled |
| Bdb.BreakHereSpecHit | pydb/pydbbdb.py:159-189 | `break_here`'s answer is `BreakHit`; the registry and `breaks` stay in step; the registry changes only by deleting the live breakpoint that was hit |
| Bdb.TracedLineDecision | pydb/pydbbdb.py:412-436 | with `stop_here` or tracing on: a non-zero `step_ignore` never stops, changes nothing else, and counts a positive value down by one; at zero the debugger interacts exactly when a breakpoint is hit or the line is not skipped (a `def` without `deftrace`, or function tracing), and the current breakpoint has no attached commands |
| Bdb.UntracedLineDecision | pydb/pydbbdb.py:437-443 | otherwise the debugger interacts exactly when a breakpoint is hit or no step is being ignored, and the current breakpoint has no attached commands; `step_ignore` is counted down only for a line with no hit |
| Bdb.UserLineWaiting | pydb/pydbbdb.py:400-411 | while waiting for the main file, a line of another file or a non-positive line changes nothing; the first line of the main file ends the wait and is handled as if there had been no wait |
| Bdb.Debugger.constructor | pydb/pydbbdb.py:17-39 | no breakpoints, an empty name cache, `step_ignore` 0 and `deftrace` off |
| Bdb.Debugger.Canonic | pydb/pydbbdb.py:191-217 | the result and the new cache are `CanonicStep` of the old cache |
| Bdb.Debugger.DeleteBreakpoint | pydb/pydbbdb.py:186 | deleting a number succeeds exactly for a live breakpoint and prunes `breaks` as `DeleteNumber` says |
| Bdb.Debugger.BreakHere | pydb/pydbbdb.py:159-189 | the answer and the new registry, `breaks` and `currentbp` are `BreakHereSpec` of the old state, with the file name `CanonicStep` gives: the answer is `BreakHit`; `currentbp` is set as soon as `effective` returns a breakpoint, even on a thread mismatch; the breakpoint is deleted only when the answer is True, the flag is set and it is temporary |
| Bdb.Debugger.DeleteAllAt | pydb/pydbbdb.py:234-237 | every breakpoint listed at the location is deleted, in list order, and their numbers are returned |
| Bdb.Debugger.ClearBreak | pydb/pydbbdb.py:222-242 | a location without breakpoints gives an error message, `[]` and no change; otherwise every breakpoint there is deleted in order, the line leaves `breaks[file]` and an emptied file key is dropped |
| Bdb.Debugger.OutputBreakCommands | pydb/pydbbdb.py:140-157 | the output is the rendering of the live breakpoints, numbered by position |
| Bdb.Debugger.BpCommands | pydb/pydbbdb.py:62-86 | the normal interaction is skipped exactly when the current breakpoint is non-zero and has commands, and then `currentbp` is reset to 0 (`BpCommandsSpec`) |
| Bdb.Debugger.UserCall | pydb/pydbbdb.py:364-382 | the reason is 'call'; the hook never stops while waiting for the main file; without tracing it stops exactly when `stop_here` holds; when it consults `break_here`, the cache, the answer and the new state are `CanonicStep` and `BreakHereSpec` of the old state |
| Bdb.Debugger.TracedLine | pydb/pydbbdb.py:412-436 | the cache is `CanonicStep` of the old one, and the stop decision, `step_ignore` and the new breakpoint state are `TracedLineSpec` of the old state (properties in `Bdb.TracedLineDecision`) |
| Bdb.Debugger.UntracedLine | pydb/pydbbdb.py:437-443 | the cache is `CanonicStep` of the old one, and the stop decision, `step_ignore` and the new breakpoint state are `UntracedLineSpec` of the old state (properties in `Bdb.UntracedLineDecision`) |
| Bdb.Debugger.UserLine | pydb/pydbbdb.py:400-443 | the reason is 'line'; the stop decision, `step_ignore`, the new breakpoint state and whether the debugger still waits for the main file are `UserLineSpec` of the old state (properties in `Bdb.UserLineWaiting` and the two decision lemmas) |
| Bdb.Debugger.UserReturn | pydb/pydbbdb.py:445-460 | the reason is 'return', and the hook stops exactly when a return frame is set |
| Bdb.Debugger.UserException | pydb/pydbbdb.py:384-398 | the reason is 'exception', pending start-up lines are dropped and the hook always stops |
| Signals.Attr | pydb/sighandler.py:24-25 | `getattr(signal, name)` is a value the table lists for that name, and is absent exactly when no attribute has that name |
| Signals.AttrOfEntry | pydb/sighandler.py:25 | with unique attribute names, an attribute reads back its own value |
| Signals.LookupSigname | pydb/sighandler.py:12-19 | the name returned has that number, and `None` comes back exactly when no attribute has it |
| Signals.LookupSignum | pydb/sighandler.py:21-30 | the number returned belongs to the name or to `SIG` + the name; `None` means `SIG` + the name is not an attribute |
| Signals.SignameRoundTrip | pydb/sighandler.py:200-206 | as written, the self-test's round trip holds when the first attribute found for the number is a `SIG` name: `lookup_signum` finds the number from that name, and from the name without `SIG` unless that shorter name is itself a `SIG...` attribute |
| Signals.LookupSignalName | pydb/sighandler.py:12-19 | as intended: the name returned is a signal name (`SIG`, no `_`) with that number, and `None` comes back exactly when no signal name has it |
| Signals.SignalNameRoundTrip | pydb/sighandler.py:200-206 | for every number with a signal name, `lookup_signum` finds the number again from the name, and from the name without `SIG` unless that shorter name is itself a `SIG...` attribute |
| Signals.SignameNotASignal | pydb/sighandler.py:12-19 | as written, a non-signal attribute listed first with the same value (`ITIMER_VIRTUAL` before `SIGHUP`, both 1) is returned; `lookup_signum` does not find it again and it has no flag entry, while the signal-name lookup gives `SIGHUP` |
| Signals.SettersKeepStopPrints | pydb/sighandler.py:138-176 | each setter keeps "stop implies print"; `handle_stop(True)` sets print and `handle_stop(False)` leaves print and pass alone; `handle_print(False)` clears stop and `handle_print(True)` leaves it alone; pass changes only pass |
| Signals.StopAndPrintRestore | pydb/sighandler.py:138-176 | setting stop or print, on or off, always leaves "stop implies print" holding, whatever the flags were before |
| Signals.InitialEntry | pydb/sighandler.py:57-71 | only `SIG...` names without `_` get an entry; every entry passes and keeps "stop implies print", and it stops exactly for a non-fatal signal outside the ignore list |
| Signals.InitialSigsStopPrints | pydb/sighandler.py:57-71 | every initial entry is `[False, False, True]` or `[True, True, True]` |
| Signals.IgnoreListMissesProf | pydb/sighandler.py:53-54 | with the list as written, SIGPROF stops and prints; with the intended list it is ignored |
| Signals.ParseModifier | pydb/sighandler.py:123-136 | a `no` prefix negates; a prefix of `stop` selects stop; else a prefix of `print` of length at least 2 selects print; else a prefix of `pass` selects pass; anything else is invalid |
| Signals.ModifierAbbreviations | pydb/sighandler.py:129-133 | `s` means stop, `p` means pass, `pr` means print, and `nos`/`nop`/`nopr` negate them; `x` and `stops` are invalid |
| Signals.Rejected | pydb/sighandler.py:135-136 | exactly the invalid modifiers draw 'Invalid arguments' |
| Signals.ApplyAllStopPrints | pydb/sighandler.py:123-136 | any sequence of modifiers keeps "stop implies print" |
| Signals.SigHandler.constructor | pydb/sighandler.py:46-71 | the table is the initial one built from the corrected ignore list, it satisfies the invariant, and the replaced handlers are recorded for the stopping signals as `InitialOld` says: a number installed a second time under another name records the debugger's own handler |
| Signals.SigHandler.HandleStop | pydb/sighandler.py:138-148 | a non-bool changes nothing and returns `None`; an unknown name raises KeyError; otherwise only that entry changes, as `WithStop` says |
| Signals.SigHandler.HandlePass | pydb/sighandler.py:150-158 | only the pass flag of that entry changes, and the invariant is kept |
| Signals.SigHandler.HandleIgnore | pydb/sighandler.py:160-166 | ignoring is not passing: only the pass flag changes, set to the negation |
| Signals.SigHandler.HandlePrint | pydb/sighandler.py:168-176 | only that entry changes, as `WithPrint` says, and the invariant is kept |
| Signals.SigHandler.Resolve | pydb/sighandler.py:109-113 | the name is the word itself or `SIG` + the word, and it is absent exactly when neither is in the table |
| Signals.SigHandler.ApplyOne | pydb/sighandler.py:129-134 | one modifier changes exactly that signal's entry, as `Apply` says |
| Signals.SigHandler.ApplyModifiers | pydb/sighandler.py:123-136 | the entry becomes `ApplyAll` of the modifiers, and the rejected ones are reported in order |
| Signals.SigHandler.Action | pydb/sighandler.py:101-136 | the table is unchanged for an empty argument, an unknown name, a name alone or a fatal signal; otherwise the modifiers are applied in order |
| Signals.PassOn | pydb/sighandler.py:193-197 | a saved `SIG_DFL` or a handler not installed from Python is not called; a saved `SIG_IGN` is the integer 1, and calling it raises TypeError; the debugger's own handler calls itself without end, which ends in RuntimeError; a Python callable is called |
| Signals.SigHandler.Handle | pydb/sighandler.py:178-197 | the signal's name comes from the signal-name lookup; the message is shown iff print is set; stopping sets `step_ignore` to 1; with pass set the saved handler is passed on as `PassOn` says, so a saved `SIG_IGN` raises TypeError and a saved own handler RuntimeError; an unknown number, or a passed signal without a recorded handler, raises KeyError |
| Signals.InitialOldOnce | pydb/sighandler.py:57-67 | as intended, every recorded handler is the one the number had before the debugger started, for the same set of numbers as written |
| Signals.SharedNumberSavesOwn | pydb/sighandler.py:57-67 | as written, `SIGABRT` and `SIGIOT` (both 6) leave the debugger's own handler recorded for 6, so passing signal 6 on ends in RuntimeError; the intended table keeps the earlier handler |
| Displays.DisplayIndex | pydb/display.py:13-18 | no signature for a missing frame; otherwise the code's name, file and first line |
| Displays.DisplayMeFails | pydb/pydbdisp.py:72-84 | `displayMe`'s first word is "No" exactly when the frame is missing or evaluation fails, and then the text is `No symbol "<arg>" in current context.` |
| Displays.FirstWordOfNumbered | pydb/pydbdisp.py:82-84 | a shown display starts with its number and a colon, never "No" |
| Displays.CreateValid | pydb/pydbsupt.py:131-138 | construction numbers the node `displayNext`, appends it after every older one and keeps numbers ascending and below the counter |
| Displays.CreateThenCheck | pydb/pydbsupt.py:182-190 | a node that has just been created and fails leaves the list and the counter exactly as before; one that passes keeps them as created |
| Displays.CheckValidKeepsValid | pydb/pydbdisp.py:114-122 | rolling back a just-created node keeps the numbering invariant |
| Displays.ShownSelects | pydb/display.py:20-27 | a node is shown exactly when it is enabled and its signature matches the frame's, in list order |
| Displays.ShownAppend | pydb/pydbdisp.py:19-26 | selection distributes over list concatenation, so list order is kept |
| Displays.OutputsShape | pydb/pydbsupt.py:87-94 | each line is `displayMe` of its node, in order; output stops early only after a failure |
| Displays.OutputsStopped | pydb/pydbdisp.py:24-26 | after a failed display nothing more is shown |
| Displays.FirstNumbered | pydb/display.py:40-45 | the position of the first entry numbered i, absent exactly when no entry has that number |
| Displays.DeleteOneSpec | pydb/pydbsupt.py:107-112 | only the first entry numbered i is removed; all others keep their order |
| Displays.EnableSpec | pydb/pydbsupt.py:120-127 | only the first entry numbered i gets the flag; every other entry is unchanged |
| Displays.DeleteOneValid | pydb/pydbdisp.py:39-44 | deleting one entry keeps the numbering invariant |
| Displays.EnableValid | pydb/pydbdisp.py:52-59 | enabling or disabling keeps the numbering invariant |
| Displays.ParamsColumns | pydb/pydbsupt.py:192-202 | a listing line starts with the number, has the y/n flag in column 5 (for numbers up to three digits) and ends with the expression |
| Displays.Display.constructor | pydb/display.py:10-11 | `displayNext` starts at 1 with an empty list |
| Displays.Display.NewNode | pydb/display.py:64-71 | the node and the new registry are `Create` of the old one: numbered `displayNext`, counter bumped, appended at the end, enabled |
| Displays.Display.DeleteMe | pydb/display.py:106-107 | the node's first occurrence leaves the list and the counter is unchanged |
| Displays.Display.CheckValid | pydb/display.py:84-92 | a failing node is removed and the counter decremented; a failure for a node not in the list raises ValueError; a blank message raises IndexError |
| Displays.Display.DisplayAny | pydb/pydbdisp.py:19-26 | nothing for a missing frame; otherwise the outputs of exactly the selected nodes, in order |
| Displays.Display.DisplayAll | pydb/display.py:29-38 | returns 0 iff the list is empty; otherwise a header and one listing line per entry, in order |
| Displays.Display.DeleteOne | pydb/display.py:40-45 | the list becomes `DeleteOneSpec` of the old one |
| Displays.Display.Enable | pydb/display.py:53-60 | the list becomes `EnableSpec` of the old one |
| Displays.Display.DeleteAllAsWritten | pydb/display.py:47-51 | as written, only the first entry is removed, so a list of two or more stays nonempty |
| Displays.Display.DeleteAll | pydb/pydbdisp.py:46-50 | as documented, every entry is removed |
| Cmd.GetOnOff | pydb/pydbcmd.py:179-193 | '1'/'on' give True and '0'/'off' give False; an empty argument gives the default; anything else, or empty with no default, raises ValueError |
| Cmd.GetInt | pydb/pydbcmd.py:165-177 | the default for an empty argument, otherwise `int(arg)`, with ValueError when that fails |
| Cmd.GetIntOfIntToString | pydb/pydbcmd.py:171-172 | any integer printed with `%d` reads back through `get_int` |
| PyStr.SpaceAfterSign | pydb/pydbcmd.py:169-169 | `int(arg)` accepts whitespace between the sign and the digits but not inside the digits, and rejects a lone sign |
| Cmd.GetPosIntAsWritten | pydb/pydbcmd.py:195-224 | as written, a value is at least `min`, and every error without a command name is a TypeError from the mismatched format tuples |
| Cmd.GetPosInt | pydb/pydbcmd.py:195-224 | as intended: the default for an empty argument; otherwise an integer at least `min`, else ValueError |
| Cmd.GetPosIntDiscrepancy | pydb/pydbcmd.py:205-222 | with a command name the two agree; without one they succeed on the same inputs and differ only in the exception |
| Cmd.GetPosIntBelowMinRaisesTypeError | pydb/pydbcmd.py:217-219 | `get_pos_int("0", 1)` raises TypeError instead of ValueError |
| Cmd.ExpandAliases | pydb/pydbcmd.py:270-279 | a line whose first word is not an alias is returned as it is; an expansion that empties the line raises IndexError |
| Cmd.PrecmdResult | pydb/pydbcmd.py:262-289 | a blank line comes back unchanged with nothing queued; at most one command is queued, and only with a result |
| Cmd.SplitAtMarkerParts | pydb/pydbcmd.py:282-288 | with a `;;`, the result is the text before the first marker right-stripped, the queued part is the remainder left-stripped, and together they rebuild the line up to that whitespace |
| Cmd.NoMarkerInPrefix | pydb/pydbcmd.py:283-288 | the returned part holds no `;;` |
| Cmd.PrecmdPlainLine | pydb/pydbcmd.py:282-289 | a line with no alias and no `;;` comes back unchanged and queues nothing |
| Cmd.SubstNoPercent | pydb/pydbcmd.py:274-278 | a body without `%` is its own expansion |
| Cmd.ExpandedNotAlias | pydb/pydbcmd.py:270-279 | a line that comes out of the alias loop is not blank and its first word is not an alias |
| Cmd.SelfAliasDiverges | pydb/pydbcmd.py:271-279 | an alias whose body starts with itself expands forever |
| Cmd.Runnables | pydb/pydbcmd.py:153-155 | at most one command per start-up line reaches `onecmd`, and none is empty or a comment |
| Cmd.RcStop | pydb/pydbcmd.py:151-163 | the first line whose command asks to continue; no earlier line does |
| Cmd.Routes | pydb/pydbcmd.py:250-260 | a message goes to the log iff logging is on and a log file exists, and to the terminal unless logging and redirection are both on |
| Cmd.MessageLostIff | pydb/pydbcmd.py:254-260 | a message is lost exactly when logging and redirection are on and no log file exists |
| Cmd.CommandLine.constructor | pydb/pydbcmd.py:21-33 | no aliases, an empty command queue and no start-up lines; logging off |
| Cmd.CommandLine.MsgNocr | pydb/pydbcmd.py:250-260 | the message is appended to the log and the terminal as `Routes` says |
| Cmd.CommandLine.Msg | pydb/pydbcmd.py:244-248 | the message and a newline, routed as `msg_nocr` |
| Cmd.CommandLine.Errmsg | pydb/pydbcmd.py:238-242 | the message after `*** ` with a newline, routed as `msg_nocr` |
| Cmd.CommandLine.Precmd | pydb/pydbcmd.py:262-289 | the result and the queued command are `PrecmdResult`, appended to `cmdqueue` |
| Cmd.CommandLine.ExpandLoop | pydb/pydbcmd.py:271-279 | the loop computes `ExpandAliases` |
| Cmd.CommandLine.ExecRcLines | pydb/pydbcmd.py:147-163 | lines are consumed in order up to and including the first whose command continues, which returns 1 with the unprocessed tail left in `rcLines`; otherwise `rcLines` ends empty |
| Cmd.CommandLine.SetArgs | pydb/pydbcmd.py:317-323 | new arguments replace the argument vector; no arguments keep only the program name |
| Subcmds.Insert | pydb/subcmd.py:77-78 | inserting a new name keeps the list strictly sorted with one more element |
| Subcmds.SortStrings | pydb/subcmd.py:76-79 | `l.sort()` on distinct keys gives a strictly ascending list of the same names |
| Subcmds.NoDupCard | pydb/subcmd.py:77 | a list of distinct keys is as long as the dictionary |
| Subcmds.Subcmd.constructor | pydb/subcmd.py:7-10 | name and doc are stored and the dictionary is empty |
| Subcmds.Subcmd.Lookup | pydb/subcmd.py:12-18 | a result is an entry whose name starts with the prefix and whose `min` the prefix meets; `None` exactly when no entry does |
| Subcmds.Subcmd.Add | pydb/subcmd.py:31-45 | exactly the named entry is created or overwritten with the given callback, doc, `min` and `in_list` |
| Subcmds.Subcmd.Do | pydb/subcmd.py:47-53 | the callback of a matching entry runs with the argument iff `lookup` succeeds; otherwise an undefined command is reported |
| Subcmds.Subcmd.Names | pydb/subcmd.py:76-79 | the sorted key list holds every key exactly once, in ascending order |
| Subcmds.Subcmd.List | pydb/subcmd.py:76-79 | every key exactly once, in ascending order: the list `Names` describes |
| Subcmds.Subcmd.SubcmdHelper | pydb/subcmd.py:20-29 | an optional label, then the doc of an entry the name matches, or an undefined `help` command exactly when no entry matches |
| Subcmds.Subcmd.FullHelp | pydb/subcmd.py:60-67 | the doc, the heading, then for each name in sorted order its label followed by the doc of an entry the name matches (or an undefined `help` command when none does) |
| Subcmds.Subcmd.Help | pydb/subcmd.py:56-74 | an empty prefix gives the full listing of `FullHelp`; an unmatched prefix gives the error; a matched one gives one line: the help of the name of an entry the prefix matches, looked up again by that name |
| Complete.NewNames | pydb/complete.py:83-87 | the names taken are those in `l` that start with the prefix and are not yet seen, without repeats; `seen` grows by exactly the matching names |
| Complete.NewNamesAppend | pydb/complete.py:83-88 | names are taken in the order of `l`: a split list gives the names of its front part, then those of its back part against the updated `seen` |
| Complete.Prefixed | pydb/complete.py:86 | each appended item is the left context followed by the name |
| Complete.PrefixedNoDup | pydb/complete.py:69-75 | the same context in front keeps names distinct |
| Complete.SharedCallsTidy | pydb/complete.py:108-112 | calls that share `seen` and `completions` accumulate without duplicates, and every completion is recorded as seen |
| Complete.NoMatchAddsNothing | pydb/complete.py:121 | a prefix no name starts with adds nothing and records nothing |
| Complete.ContextNotMatched | pydb/complete.py:123 | matching uses the bare name: prefix "o" with context "foo" yields nothing |
| Complete.Completions.ListCompletions | pydb/complete.py:78-88 | `completions` only grows: the old list followed by the new matching names with the context, in order; `seen` is updated as `NewNames` says |
| Complete.CompleteSubcommand | pydb/complete.py:59-76 | `[]` without a `<cmd>cmds` attribute or a `cmdlist`; otherwise the matching subcommands after `cmd ` without repeats |
| Fns.CheckLine | pydb/fns.py:10-26 | 0 with 'End of file' for an empty line; 0 with 'Blank or comment' for a blank, `#`, `"""` or `'''` line after stripping; otherwise `lineno` unchanged |
| Fns.Nibble | pydb/fns.py:172-177 | each nibble is four binary digits |
| Fns.BinaryValueAppend | pydb/fns.py:176 | prepending bits shifts the value read back |
| Fns.NibbleValue | pydb/pydbsupt.py:176 | a nibble reads back as its value |
| Fns.TwosProperties | pydb/pydbsupt.py:171-178 | the binary text is a multiple of 4 long, empty exactly for 0, has no leading zero nibble and reads back as the value |
| Fns.PrintfSpec | pydb/fns.py:158-181 | an empty format gives `str(val)`; a lone `/` raises IndexError; `t` on a non-negative integer gives its nibble binary, on a negative one never ends, and on `True`/`False` gives `0001`/empty; an unknown letter gives `str(val)` |
| Fns.PrintfSlash | pydb/pydbdisp.py:91-97 | a leading `/` is ignored |
| Fns.Printf | pydb/pydbdisp.py:90-112 | the result is `PrintfSpec` of the value and format |
| Fns.TwosLoop | pydb/fns.py:172-178 | the `while val` loop builds `Twos` of the value, whose shape and value `Fns.TwosProperties` proves |
| Fns.ShowOnOff | pydb/fns.py:352-357 | True or 1 gives "on", False or 0 gives "off", and anything else "??" |
| Fns.FindExec | pydb/fns.py:76-77 | the first place the `exec` pattern matches, with no match before it |
| Fns.ExecArg | pydb/fns.py:76-79 | there is an exec argument exactly when the pattern matches somewhere |
| Fns.PyPrefix | pydb/fns.py:86 | `s[0:max]` is a prefix of length `min(max, len(s))` |
| Fns.GetExecString | pydb/fns.py:67-89 | as intended: no answer without a frame or an exec; an argument of at most `max` characters is returned whole; a longer one is cut to `max` characters followed by `...` and its quote |
| Fns.GetExecStringDiscrepancy | pydb/fns.py:80-86 | the code as written differs from the intended result exactly for a long quoted argument |
| Fns.GetExecStringQuotedExample | pydb/fns.py:81-86 | `exec "abc"` with `max` 2 gives `None` as written instead of `"a..."` |
| Fns.ReplyWords | pydb/fns.py:52-63 | an end of input answers no; 'y'/'yes' answer yes and 'n'/'no' answer no, after stripping and lowering |
| Fns.StripPlainWord | pydb/fns.py:57-61 | the four accepted words are unchanged by stripping and lowering |
| Fns.ReplyDiscrepancy | pydb/fns.py:54-61 | whenever the code as written decides, the intended reading agrees; a typed `Y` is rejected as written |
| Fns.ConfirmationFirstDecisive | pydb/fns.py:52-63 | the first decisive reply decides, and every earlier reply drew "Please answer y or n." |
| Fns.ConfirmationSkip | pydb/fns.py:52-63 | undecided replies can be skipped without changing the answer |
| Fns.GetConfirmation | pydb/fns.py:49-64 | as intended (replies read by `Fns.Reply`): non-interactive gives False at once; otherwise the loop computes `Confirmation` |
| Fns.StackCount | pydb/fns.py:204-207 | `min(len(stack), count)` entries, or all of them without a count |
| Fns.PrintStackTrace | pydb/fns.py:202-212 | entries 0 to n-1 are printed in order, with n given by `StackCount` |
| Disassemble.Annotation | pydb/disassemble.py:104-117 | an annotation of an argument instruction is a text that opens with `(` |
| Disassemble.Operand | pydb/disassemble.py:96-117 | the walk never ends inside an instruction; the offset advances by 3 for an argument opcode and by 1 otherwise |
| Disassemble.Step | pydb/disassemble.py:72-118 | one loop turn: the offset advances by 1 or 3; the walk stops exactly at a line start beyond `end_line`; the current line and the suppression follow the line start; output is the old output plus what this turn emits |
| Disassemble.Run | pydb/disassemble.py:72-119 | the walk only appends output |
| Disassemble.LineColumnNotMarker | pydb/disassemble.py:86-90 | a line number column never reads as a marker |
| Disassemble.MarkersExact | pydb/disassemble.py:90-93 | `-->` is emitted exactly at offset `lasti` and `>>` exactly at label offsets, both only while output is not suppressed |
| Disassemble.ArgumentInstruction | pydb/disassemble.py:97-103 | the operand is `code[i+1] + 256*code[i+2] + extended_arg`; `extended_arg` becomes `oparg*65536` after EXTENDED_ARG and 0 after any other argument instruction; the operand is printed |
| Disassemble.RelativeJumpTarget | pydb/disassemble.py:108-109 | a relative jump is annotated with the offset after its operand plus `oparg` |
| Disassemble.SilentStep | pydb/disassemble.py:66-85 | while `start_line` is beyond the current line a turn emits nothing |
| Disassemble.RunStopsAtEnd | pydb/disassemble.py:72 | at the end of the code the walk stops with no error |
| Disassemble.DisassembleString | pydb/disassemble.py:55-119 | the loop's output and error are `Run` from the initial walk |

## Left out

- I/O is modelled as sequences of strings, calls or replies. This covers the terminal, the log file, `raw_input`, `linecache` and `traceback.extract_stack`.
- `threaddbg.py`, `threadinfo.py`, `connection.py`, `remote.py`, `server.py`, `set.py`, `show.py` and `info.py` are not part of this model. They handle threads, sockets and option printing.
- From `pydbbdb.py`, these are not part of this model:
  - `run`, `set_trace`, `reset`, `lookupmodule`, `complete` and `format_stack_entry`;
  - `bpprint` and the printing of call parameters and of the location.
- The standard debugger base class is not part of this model:
  - `effective` and `stop_here` are parameters.
  - `set_break` is written as the base class's usual construction plus the line recorded in `breaks` (`Bdb.Debugger.SetBreak`).
  - `do_delete`, which `break_here` calls for a temporary breakpoint, is modelled as deleting that one number and pruning `breaks` (`Bdb.Debugger.DeleteBreakpoint`).
- Bdb.Debugger.BpCommands: the attached commands themselves are not run. `onecmd` on each line, `print_location` and the nested `cmdloop` when `commands_doprompt` is set (pydb/pydbbdb.py:76-84) are not modelled. So a hook whose outcome says "no interaction" may still have prompted the user through those commands.
- Bdb.Debugger.UserCall: the frame count and the printing of call parameters are not modelled. Neither is the hook's dependence on `count_frames`. Printing the call parameters goes through `canonic`, which can add to the file-name cache, so the unchanged cache the model ensures on the non-tracing path is not promised by the source.
- Bdb.Debugger.UserException: the exception is only reported as a stop. The message text and `__exception__` are not modelled.
- Bdb.Debugger.UserReturn: `__return__` and the printed return value are not modelled.
- Breakpoints.Registry.DeleteMe: a second deletion is reported as one failure. Python raises KeyError when no breakpoint is left at the location, and ValueError from `list.remove` when others remain. The model does not tell these apart.
- Breakpoints.Delete: the failure is reported as KeyError in every case, for the same reason.
- Breakpoints.SetCondition: the `condition` command that sets `cond` is not part of this model's source files. `Breakpoints.SetConditionWellFormed` and `Breakpoints.Registry.SetCond` give `Bdb.Debugger.SetBreak` its condition, and `Bdb.Debugger.SetBreak` stands for the base class's `set_break`.
- Signals: `signal.signal` installation and `info_signal` printing are not part of this model. `sig_received`, `use_rawinput` and the interaction call in `handle` are recorded as the outcome of `Signals.SigHandler.Handle`. The IOError caught around the interaction is not modelled.
- Signals.LookupSigname: dictionary order is modelled as the order of the attribute table.
- Signals.SignameRoundTrip: the self-test's round trip is proved as written only when the first attribute with the number is a `SIG` name. `Signals.SignameNotASignal` shows it can fail otherwise, and `Signals.SigHandler.Handle` uses the corrected `Signals.LookupSignalName`.
- Signals.SigHandler.constructor: the handlers are recorded as the code does (`Signals.InitialOld`), own handler included, so that `Handle` shows the consequence. The intended table `Signals.InitialOldOnce` is stated beside it and is not what the constructor records.
- Signals.SigHandler.Handle: a saved own handler is modelled by its final RuntimeError. The message and stop of each nested call of `handle` before the recursion limit are not modelled.
- Cmd.GetOnOff, Cmd.GetInt, Cmd.GetPosIntAsWritten, Cmd.GetPosInt: the error message written with `errmsg` before the exception is not modelled, nor is `get_onoff`'s `print_error` argument, which only controls that message. The results and exceptions are modelled.
- Signals.SigHandler.Handle: when passing the signal on raises, the result is only the error. The message shown and the stop that came before it are not part of the result, though `step_ignore` is still set.
- Displays: `print_obj`, which `display.py`'s `displayMe` calls, is not part of this model. The display lines follow the `pydbdisp.py`/`pydbsupt.py` version with `eval` and the conversions as parameters.
- Displays: nodes are values. A display is identified by its number, so aliasing between node objects is not modelled.
- Displays.Display.DisplayAll: the padding `' ' * (3 - len(number))` is modelled as `Spaces(3 - |num|)`, which is empty for longer numbers. The line shape is stated by `Displays.ParamsColumns` only for numbers of up to three digits.
- Cmd: `default`, `do_help`, `print_location`, `set_logging`, the log file opening and the `cmdtrace` echo of `execRcLines` are not part of this model.
- Cmd.CommandLine.ExecRcLines: `onecmd` is a function parameter, so a command cannot change `rcLines` while it runs. The source iterates over a local copy because a command may call `execRcLines` again and consume lines itself (pydb/pydbcmd.py:148-152). That re-entry is not modelled, and the claim that the unprocessed tail is left in `rcLines` holds only without it.
- Cmd.ExpandAliases: the alias loop is given a fuel bound. Running out of fuel is the model's `None`, which stands for the loop never ending. `Cmd.SelfAliasDiverges` proves that outcome for self aliases.
- Subcmds.Subcmd.Lookup: which of several matching entries is returned depends on dictionary order. The model fixes an insertion order, and nothing proved depends on it.
- Complete: `all_completions` and `rl_complete` wrap readline and are not part of this model.
- Fns: `process_options`, `op_at_frame`, `is_def_stmt`, `search_file`, `find_function` and `print_obj` are not part of this model. The `c`, `x`, `o` and `f` conversions of `printf` are a parameter.
- Fns.GetConfirmation: the loop reads replies as intended (`Fns.Reply`), not as written (`Fns.ReplyAsWritten`). The two differ only for a typed reply that needs stripping or lowering; `Fns.ReplyDiscrepancy` states the difference.
- Fns.ShowOnOff: a value other than an integer or a bool that equals 1 or 0, such as the float `1.0`, gives "??" in the model. Python compares it equal to True or False.
- Fns.PrintStackTrace: printing the entries and the KeyboardInterrupt that stops it are not modelled. Only which entries are printed is modelled.
- Fns.ExecArg: the regular expression `(^|\s+)exec\s+(.*)` is written out as a direct search. Python's `\s` is modelled by `PyStr.IsSpace`.
- Disassemble: `dis`, `findlabels` and the `opcode` module's tables are not part of this model. The tables and the labels are inputs. `repr` of a constant is looked up from a given list of texts.

## Findings

| source | as written | input that shows it | evidently intended | confidence | as-written member | corrected member |
|---|---|---|---|---|---|---|
| pydb/pydbcmd.py:207-209, 218-219 | without a command name, the error messages format three values into two `%` fields (207-209) and two values into one (218-219), so every error raises TypeError | `get_pos_int("0", 1)` | report the error and raise ValueError | high, not executed | Cmd.GetPosIntBelowMinRaisesTypeError | Cmd.GetPosInt |
| pydb/sighandler.py:53-54 | a missing comma joins 'SIGVTALRM' and 'SIGPROF' into one string, so neither is in the ignore list | a system with SIGPROF: its initial entry stops and prints | both signals ignored (`[False, False, True]`) | high, not executed | Signals.IgnoreListMissesProf | Signals.InitialEntry |
| pydb/fns.py:80-86 | for a long quoted exec argument, `return` is indented under the unquoted branch, so the function falls through to `None` | `exec "abc"` with `max` 2 | the first `max` characters, `...` and the closing quote | high, not executed | Fns.GetExecStringQuotedExample | Fns.GetExecString |
| pydb/fns.py:54-57 | `strip().lower()` sits inside the `except EOFError` block, so a typed reply is not normalised | the reply `Y` | `Y` (or `yes ` with a trailing space) answers yes | high, not executed | Fns.ReplyDiscrepancy | Fns.ReplyWords |
| pydb/display.py:47-51 | `deleteAll` returns inside its loop, so only the first display is removed | a list of two displays | every display removed, as the docstring says | high, not executed | Displays.Display.DeleteAllAsWritten | Displays.Display.DeleteAll |
| pydb/sighandler.py:12-19, 178-181 | `lookup_signame` returns the first attribute of the `signal` module with the number, which need not be a signal name, and `handle` indexes the flag table with it | a module that lists `ITIMER_VIRTUAL` (1) before `SIGHUP` (1) | the signal's own name, `SIGHUP` | medium, not executed | Signals.SignameNotASignal | Signals.SignalNameRoundTrip |
| pydb/sighandler.py:57-67, 193-197 | every stopping name installs `handle` for its number, so a number with two names (`SIGABRT` and `SIGIOT`) is installed twice and the second install records the debugger's own `handle` as the old handler | signal 6 arriving with pass set | keep the handler the program had before the debugger started | medium, not executed | Signals.SharedNumberSavesOwn | Signals.InitialOldOnce |
