/** Signal handling (pydb/sighandler.py): the name/number lookups over the
    `signal` module, the table of per-signal `stop`/`print`/`pass` flags and
    its invariant "stop implies print", the `handle` command's modifier
    parser, and what the handler does when a signal arrives.

    The `signal` module is a parameter: its integer attributes, in
    dictionary order. Installing handlers and entering the command loop are
    not part of this model. */
module Signals {
  import opened Wrappers
  import opened PyStr
  import Bdb

  /** The integer attributes of the `signal` module, in dictionary order. */
  type SignalTable = seq<(string, int)>

  /** Attribute names are unique, as in any module. */
  predicate UniqueNames(t: SignalTable) {
    forall i, j :: 0 <= i < j < |t| ==> t[i].0 != t[j].0
  }

  /** `getattr(signal, name)` when `hasattr(signal, name)`. */
  function Attr(t: SignalTable, name: string): (r: Option<int>)
    ensures r.Some? ==> (name, r.value) in t
    ensures r.None? <==> forall p :: p in t ==> p.0 != name
  {
    if t == [] then None
    else if t[0].0 == name then Some(t[0].1)
    else Attr(t[1..], name)
  }

  /** With unique names, an attribute reads back its own value. */
  lemma {:induction false} AttrOfEntry(t: SignalTable, i: nat)
    requires UniqueNames(t) && i < |t|
    ensures Attr(t, t[i].0) == Some(t[i].1)
  {
    if i > 0 {
      assert UniqueNames(t[1..]) by {
        forall a, b | 0 <= a < b < |t[1..]| ensures t[1..][a].0 != t[1..][b].0 {
          assert t[1..][a] == t[a + 1] && t[1..][b] == t[b + 1];
        }
      }
      assert t[0].0 != t[i].0;
      AttrOfEntry(t[1..], i - 1);
      assert t[1..][i - 1] == t[i];
    }
  }

  /** `lookup_signame`: the first name whose value is `num`, or `None`. */
  function LookupSigname(t: SignalTable, num: int): (r: Option<string>)
    ensures r.Some? ==> (r.value, num) in t
    ensures r.None? <==> forall p :: p in t ==> p.1 != num
  {
    if t == [] then None
    else if t[0].1 == num then Some(t[0].0)
    else LookupSigname(t[1..], num)
  }

  /** `lookup_signum`: a name with the `SIG` prefix is looked up as it is;
      otherwise (or when there is no such attribute) `SIG` is put in front. */
  function LookupSignum(t: SignalTable, name: string): (r: Option<int>)
    ensures r.Some? ==> (name, r.value) in t || ("SIG" + name, r.value) in t
    ensures r.None? ==> forall p :: p in t ==> p.0 != "SIG" + name
  {
    if StartsWith(name, "SIG") && Attr(t, name).Some? then Attr(t, name)
    else Attr(t, "SIG" + name)
  }

  lemma AttrIndex(t: SignalTable, name: string, num: int) returns (i: nat)
    requires (name, num) in t
    ensures i < |t| && t[i] == (name, num)
  {
    i :| i < |t| && t[i] == (name, num);
  }

  /** The round trip checked by the module's self-test: a signal number
      found under a `SIG` name is found again from that name, and from the
      name without its prefix unless that shorter name is itself some other
      `SIG...` attribute. */
  lemma SignameRoundTrip(t: SignalTable, num: int)
    requires UniqueNames(t)
    requires LookupSigname(t, num).Some? && StartsWith(LookupSigname(t, num).value, "SIG")
    ensures LookupSignum(t, LookupSigname(t, num).value) == Some(num)
    ensures var short := LookupSigname(t, num).value[3..];
      !(StartsWith(short, "SIG") && Attr(t, short).Some?) ==> LookupSignum(t, short) == Some(num)
  {
    var name := LookupSigname(t, num).value;
    var i := AttrIndex(t, name, num);
    AttrOfEntry(t, i);
    assert "SIG" + name[3..] == name;
  }

  /** A signal's own name, by the test `__init__` applies to the
      attributes: the `SIG` prefix and no `_`. */
  predicate IsSignalName(name: string) {
    StartsWith(name, "SIG") && '_' !in name
  }

  /** `lookup_signame` as its documentation describes it: the first signal
      name whose value is `num`, or `None`. */
  function LookupSignalName(t: SignalTable, num: int): (r: Option<string>)
    ensures r.Some? ==> (r.value, num) in t && IsSignalName(r.value)
    ensures r.None? <==> forall p :: p in t ==> !(IsSignalName(p.0) && p.1 == num)
  {
    if t == [] then None
    else if IsSignalName(t[0].0) && t[0].1 == num then Some(t[0].0)
    else LookupSignalName(t[1..], num)
  }

  /** The self-test's round trip holds for every number that has a signal
      name: the number is found again from the name, and from the name
      without its prefix unless that shorter name is itself some other
      `SIG...` attribute. */
  lemma SignalNameRoundTrip(t: SignalTable, num: int)
    requires UniqueNames(t) && LookupSignalName(t, num).Some?
    ensures LookupSignum(t, LookupSignalName(t, num).value) == Some(num)
    ensures var short := LookupSignalName(t, num).value[3..];
      !(StartsWith(short, "SIG") && Attr(t, short).Some?) ==> LookupSignum(t, short) == Some(num)
  {
    var name := LookupSignalName(t, num).value;
    var i := AttrIndex(t, name, num);
    AttrOfEntry(t, i);
    assert "SIG" + name[3..] == name;
  }

  /** As written, the first attribute with a number need not be a signal
      name: with `ITIMER_VIRTUAL` listed before `SIGHUP`, both 1, the name
      found for 1 is not found again by `lookup_signum`, and it has no entry
      in the flag table, so `handle` would raise a key error for `SIGHUP`. */
  lemma SignameNotASignal()
    ensures var t := [("ITIMER_VIRTUAL", 1), ("SIGHUP", 1)];
      && LookupSigname(t, 1) == Some("ITIMER_VIRTUAL")
      && LookupSignum(t, "ITIMER_VIRTUAL") == None
      && InitialEntry(t, "ITIMER_VIRTUAL", Ignore) == None
      && LookupSignalName(t, 1) == Some("SIGHUP")
  {
    var t := [("ITIMER_VIRTUAL", 1), ("SIGHUP", 1)];
    assert "ITIMER_VIRTUAL"[0] != "SIG"[0];
    assert "SIGITIMER_VIRTUAL"[3] != "SIGHUP"[3];
    assert "SIGHUP"[..3] == "SIG";
    assert LookupSignalName(t[1..], 1) == Some("SIGHUP");
  }

  // ---------------------------------------------------------------------
  // The flags of one signal
  // ---------------------------------------------------------------------

  /** `[stop, print, pass]` for one signal. */
  datatype Flags = Flags(stop: bool, prints: bool, pass: bool)

  predicate StopPrints(f: Flags) {
    f.stop ==> f.prints
  }

  /** `handle_stop`'s change: stopping implies printing; turning stopping
      off leaves print and pass alone. */
  function WithStop(f: Flags, on: bool): Flags {
    Flags(on, if on then true else f.prints, f.pass)
  }

  /** `handle_print`'s change: not printing implies not stopping; turning
      printing on leaves stop alone. */
  function WithPrint(f: Flags, on: bool): Flags {
    Flags(if !on then false else f.stop, on, f.pass)
  }

  /** `handle_pass`'s change (and `handle_ignore`'s, negated). */
  function WithPass(f: Flags, on: bool): Flags {
    Flags(f.stop, f.prints, on)
  }

  /** Each setter keeps "stop implies print", whatever the flags were
      before for the field it sets, and the setters' side effects are
      exactly the documented ones. */
  lemma SettersKeepStopPrints(f: Flags, on: bool)
    requires StopPrints(f)
    ensures StopPrints(WithStop(f, on)) && StopPrints(WithPrint(f, on)) && StopPrints(WithPass(f, on))
    ensures on ==> WithStop(f, on).prints
    ensures !on ==> WithStop(f, on).prints == f.prints && WithStop(f, on).pass == f.pass
    ensures !on ==> !WithPrint(f, on).stop
    ensures on ==> WithPrint(f, on).stop == f.stop
    ensures WithPass(f, on).stop == f.stop && WithPass(f, on).prints == f.prints
  {
  }

  /** Setting stop, or setting print, leaves the invariant holding whatever
      the flags were before, even flags that broke it. */
  lemma StopAndPrintRestore(f: Flags, on: bool)
    ensures StopPrints(WithStop(f, on)) && StopPrints(WithPrint(f, on))
  {
  }

  // ---------------------------------------------------------------------
  // The initial table
  // ---------------------------------------------------------------------

  const FatalSignals: seq<string> := ["SIGKILL", "SIGSTOP"]

  /** The ignore list as the source spells it: a missing comma joins
      `'SIGVTALRM' 'SIGPROF'` into one string. */
  const IgnoreAsWritten: seq<string> :=
    ["SIGALRM", "SIGCHLD", "SIGURG", "SIGIO", "SIGVTALRMSIGPROF",
     "SIGWINCH", "SIGPOLL", "SIGWAITING", "SIGLWP",
     "SIGCANCEL", "SIGTRAP", "SIGTERM", "SIGQUIT", "SIGILL",
     "SIGINT"]

  /** The ignore list as evidently intended, with the two signals apart. */
  const Ignore: seq<string> :=
    ["SIGALRM", "SIGCHLD", "SIGURG", "SIGIO", "SIGVTALRM",
     "SIGPROF", "SIGWINCH", "SIGPOLL", "SIGWAITING", "SIGLWP",
     "SIGCANCEL", "SIGTRAP", "SIGTERM", "SIGQUIT", "SIGILL",
     "SIGINT"]

  /** The entry `__init__` makes for attribute `sig`, if any: only names
      starting with `SIG` and without `_`; the fatal signals and the ignored
      ones are neither stopped at nor printed, every other signal with a
      non-zero number is stopped at and printed; all are passed. */
  function InitialEntry(t: SignalTable, sig: string, ignore: seq<string>): (r: Option<Flags>)
    ensures r.Some? ==> StartsWith(sig, "SIG") && '_' !in sig && r.value.pass && StopPrints(r.value)
    ensures r.Some? && r.value.stop <==>
      StartsWith(sig, "SIG") && '_' !in sig && sig !in FatalSignals && sig !in ignore
      && LookupSignum(t, sig).Some? && LookupSignum(t, sig).value != 0
  {
    if !(StartsWith(sig, "SIG") && '_' !in sig) then None
    else if sig in FatalSignals then Some(Flags(false, false, true))
    else
      var num := LookupSignum(t, sig);
      if num.None? || num.value == 0 then None
      else if sig in ignore then Some(Flags(false, false, true))
      else Some(Flags(true, true, true))
  }

  /** The table after the first `k` attributes were visited. */
  function InitialSigs(t: SignalTable, k: nat, ignore: seq<string>): map<string, Flags>
    requires k <= |t|
  {
    if k == 0 then map[]
    else
      var prev := InitialSigs(t, k - 1, ignore);
      var e := InitialEntry(t, t[k - 1].0, ignore);
      if e.Some? then prev[t[k - 1].0 := e.value] else prev
  }

  /** What `signal.signal` returns as the handler it replaced: `SIG_DFL`
      (the integer 0), `SIG_IGN` (the integer 1), `None` for a handler not
      installed from Python, a Python callable of the program, or the
      debugger's own `handle`, which a second install for the same number
      gets back. */
  datatype SavedHandler = Default | Ignored | NotFromPython | Callable | OwnHandler

  /** `if old_handler: old_handler(signum, frame)`: `SIG_DFL` and `None` are
      false and nothing is called; `SIG_IGN` is the true integer 1, and
      calling it raises `TypeError`; a callable of the program is called.
      The debugger's own `handle` calls itself again for the same number
      with nothing to end the recursion, until Python's recursion limit
      raises `RuntimeError`. The result says whether a handler was called. */
  function PassOn(h: SavedHandler): (r: Result<bool>)
    ensures r.Err? <==> h == Ignored || h == OwnHandler
    ensures h == Ignored ==> r == Err(TypeError)
    ensures h == OwnHandler ==> r == Err(RuntimeError)
    ensures r.Ok? ==> (r.value <==> h == Callable)
  {
    match h
    case Default => Ok(false)
    case NotFromPython => Ok(false)
    case Ignored => Err(TypeError)
    case OwnHandler => Err(RuntimeError)
    case Callable => Ok(true)
  }

  /** The handlers `__init__` replaced, by signal number, as written: one
      install per stopping name. `previous` stands for the handler a number
      had before the debugger started; a number installed a second time,
      under another name, gets the debugger's own handler back. */
  function InitialOld(t: SignalTable, k: nat, ignore: seq<string>, previous: int -> SavedHandler): map<int, SavedHandler>
    requires k <= |t|
  {
    if k == 0 then map[]
    else
      var prev := InitialOld(t, k - 1, ignore, previous);
      var e := InitialEntry(t, t[k - 1].0, ignore);
      if e.Some? && e.value.stop then
        var num := LookupSignum(t, t[k - 1].0).value;
        prev[num := if num in prev then OwnHandler else previous(num)]
      else prev
  }

  /** The saved handlers as intended: one install per number, so each
      number keeps the handler it had before the debugger started. */
  function InitialOldOnce(t: SignalTable, k: nat, ignore: seq<string>, previous: int -> SavedHandler): (r: map<int, SavedHandler>)
    requires k <= |t|
    ensures forall n :: n in r ==> r[n] == previous(n)
    ensures r.Keys == InitialOld(t, k, ignore, previous).Keys
  {
    if k == 0 then map[]
    else
      var prev := InitialOldOnce(t, k - 1, ignore, previous);
      var e := InitialEntry(t, t[k - 1].0, ignore);
      if e.Some? && e.value.stop then
        var num := LookupSignum(t, t[k - 1].0).value;
        if num in prev then prev else prev[num := previous(num)]
      else prev
  }

  /** As written, two stopping names with one number (SIGABRT and SIGIOT,
      both 6) leave the debugger's own handler saved for that number, so
      passing the signal on recurses; the intended table keeps the
      handler the program had. */
  lemma SharedNumberSavesOwn(previous: int -> SavedHandler)
    ensures var t := [("SIGABRT", 6), ("SIGIOT", 6)];
      && InitialOld(t, 2, Ignore, previous)[6] == OwnHandler
      && PassOn(InitialOld(t, 2, Ignore, previous)[6]) == Err(RuntimeError)
      && InitialOldOnce(t, 2, Ignore, previous)[6] == previous(6)
  {
    var t := [("SIGABRT", 6), ("SIGIOT", 6)];
    assert StartsWith("SIGABRT", "SIG") && StartsWith("SIGIOT", "SIG");
    assert "SIGABRT" !in Ignore && "SIGIOT" !in Ignore;
    assert "SIGABRT" !in FatalSignals && "SIGIOT" !in FatalSignals;
    assert LookupSignum(t, "SIGABRT") == Some(6);
    assert LookupSignum(t, "SIGIOT") == Some(6);
  }

  /** Every initial entry is `[False, False, True]` or `[True, True, True]`,
      so the invariant holds from the start. */
  lemma {:induction false} InitialSigsStopPrints(t: SignalTable, k: nat, ignore: seq<string>)
    requires k <= |t|
    ensures forall s :: s in InitialSigs(t, k, ignore) ==>
      InitialSigs(t, k, ignore)[s] in {Flags(false, false, true), Flags(true, true, true)}
  {
    if k > 0 {
      InitialSigsStopPrints(t, k - 1, ignore);
    }
  }

  /** Because of the missing comma, a system with SIGPROF (or SIGVTALRM)
      gets a stopping, printing entry for it, while the intended list makes
      it a silent one. */
  lemma IgnoreListMissesProf(t: SignalTable)
    requires LookupSignum(t, "SIGPROF").Some? && LookupSignum(t, "SIGPROF").value != 0
    ensures InitialEntry(t, "SIGPROF", IgnoreAsWritten) == Some(Flags(true, true, true))
    ensures InitialEntry(t, "SIGPROF", Ignore) == Some(Flags(false, false, true))
  {
    assert StartsWith("SIGPROF", "SIG");
    assert "SIGPROF" != "SIGKILL" && "SIGPROF" != "SIGSTOP";
    assert "SIGPROF" !in IgnoreAsWritten;
    assert "SIGPROF" == Ignore[5];
  }

  // ---------------------------------------------------------------------
  // The `handle` command
  // ---------------------------------------------------------------------

  /** What one modifier word of `handle` asks for. */
  datatype Modifier = SetStop(on: bool) | SetPrint(on: bool) | SetPass(on: bool) | Invalid

  /** The modifier without its `no` prefix. */
  function Body(attr: string): string {
    if StartsWith(attr, "no") then attr[2..] else attr
  }

  /** One modifier: a `no` prefix negates it; then any prefix of `stop`
      (the empty one too) selects stop, a prefix of `print` of at least two
      letters selects print, and any other prefix of `pass` selects pass. */
  function ParseModifier(attr: string): (m: Modifier)
    ensures m.SetStop? <==> StartsWith("stop", Body(attr))
    ensures m.SetPrint? <==> !StartsWith("stop", Body(attr)) && StartsWith("print", Body(attr)) && |Body(attr)| >= 2
    ensures m.SetPass? <==>
      (!StartsWith("stop", Body(attr)) && !(StartsWith("print", Body(attr)) && |Body(attr)| >= 2)
       && StartsWith("pass", Body(attr)))
    ensures !m.Invalid? ==> m.on == !StartsWith(attr, "no")
  {
    var on := !StartsWith(attr, "no");
    var a := Body(attr);
    if StartsWith("stop", a) then SetStop(on)
    else if StartsWith("print", a) && |a| >= 2 then SetPrint(on)
    else if StartsWith("pass", a) then SetPass(on)
    else Invalid
  }

  lemma Differ(s: string, p: string, i: nat)
    requires i < |s| && i < |p| && s[i] != p[i]
    ensures !StartsWith(s, p)
  {
    if |p| <= |s| {
      assert s[..|p|][i] == s[i];
    }
  }

  /** The abbreviations the command accepts. */
  lemma ModifierAbbreviations()
    ensures ParseModifier("s") == SetStop(true) && ParseModifier("nos") == SetStop(false)
    ensures ParseModifier("p") == SetPass(true) && ParseModifier("nop") == SetPass(false)
    ensures ParseModifier("pr") == SetPrint(true) && ParseModifier("nopr") == SetPrint(false)
    ensures ParseModifier("no") == SetStop(false)
    ensures ParseModifier("x") == Invalid && ParseModifier("stops") == Invalid
  {
    assert StartsWith("nos", "no") && Body("nos") == "s";
    assert StartsWith("nop", "no") && Body("nop") == "p";
    assert StartsWith("nopr", "no") && Body("nopr") == "pr";
    assert StartsWith("no", "no") && Body("no") == "";
    Differ("stop", "p", 0);
    Differ("stop", "pr", 0);
    Differ("stop", "x", 0);
    Differ("print", "x", 0);
    Differ("pass", "x", 0);
    Differ("pass", "pr", 1);
  }

  function Apply(f: Flags, m: Modifier): Flags {
    match m
    case SetStop(on) => WithStop(f, on)
    case SetPrint(on) => WithPrint(f, on)
    case SetPass(on) => WithPass(f, on)
    case Invalid => f
  }

  /** The flags after the modifiers `mods` were applied in order. */
  function ApplyAll(f: Flags, mods: seq<string>): Flags {
    if mods == [] then f else Apply(ApplyAll(f, mods[..|mods| - 1]), ParseModifier(mods[|mods| - 1]))
  }

  /** The modifiers among `mods` that were rejected, in order. */
  function Rejected(mods: seq<string>): (r: seq<string>)
    ensures forall w :: w in r ==> w in mods && ParseModifier(w).Invalid?
    ensures forall w :: w in mods && ParseModifier(w).Invalid? ==> w in r
  {
    if mods == [] then []
    else Rejected(mods[..|mods| - 1]) + (if ParseModifier(mods[|mods| - 1]).Invalid? then [mods[|mods| - 1]] else [])
  }

  /** Any sequence of modifiers keeps "stop implies print". */
  lemma {:induction false} ApplyAllStopPrints(f: Flags, mods: seq<string>)
    requires StopPrints(f)
    ensures StopPrints(ApplyAll(f, mods))
  {
    if mods != [] {
      ApplyAllStopPrints(f, mods[..|mods| - 1]);
      var m := ParseModifier(mods[|mods| - 1]);
      if !m.Invalid? {
        SettersKeepStopPrints(ApplyAll(f, mods[..|mods| - 1]), m.on);
      }
    }
  }

  /** Which way `action` ended. */
  datatype ActionOutcome =
    | ListedAll                          // no argument: the whole table is shown
    | UnknownSignal                      // neither the name nor SIG+name is known
    | Shown(signame: string)             // only a name: its entry is shown
    | FatalSignal(signame: string)       // SIGKILL and SIGSTOP cannot be changed
    | Applied(signame: string, rejected: seq<string>)  // each rejected word is reported

  /** What the handler did for one received signal. */
  datatype Received = Received(message: Option<string>, stopped: bool, chained: bool)

  /** `SigHandler`: the flag table, the replaced handlers and the debugger
      whose `step_ignore` a stopping signal sets. */
  class SigHandler {
    const table: SignalTable
    const dbg: Bdb.Debugger
    var sigs: map<string, Flags>
    var oldHandlers: map<int, SavedHandler>

    /** Every entry satisfies "stop implies print". */
    ghost predicate Valid()
      reads this
    {
      forall s :: s in sigs ==> StopPrints(sigs[s])
    }

    /** `__init__`: one entry per `SIG...` attribute, and the replaced
        handler of every signal that stops. */
    constructor (t: SignalTable, dbg: Bdb.Debugger, previous: int -> SavedHandler)
      ensures Valid() && table == t && this.dbg == dbg
      ensures sigs == InitialSigs(t, |t|, Ignore)
      ensures oldHandlers == InitialOld(t, |t|, Ignore, previous)
    {
      var s: map<string, Flags> := map[];
      var saved: map<int, SavedHandler> := map[];
      var i := 0;
      while i < |t|
        invariant 0 <= i <= |t|
        invariant s == InitialSigs(t, i, Ignore)
        invariant saved == InitialOld(t, i, Ignore, previous)
      {
        var sig := t[i].0;
        if StartsWith(sig, "SIG") && '_' !in sig {
          if sig !in FatalSignals {
            var num := LookupSignum(t, sig);
            if num.Some? && num.value != 0 {
              if sig in Ignore {
                s := s[sig := Flags(false, false, true)];
              } else {
                s := s[sig := Flags(true, true, true)];
                saved := saved[num.value := if num.value in saved then OwnHandler else previous(num.value)];
              }
            }
          } else {
            s := s[sig := Flags(false, false, true)];
          }
        }
        i := i + 1;
      }
      table := t;
      this.dbg := dbg;
      sigs := s;
      oldHandlers := saved;
      InitialSigsStopPrints(t, |t|, Ignore);
    }

    /** `handle_stop`; `None` stands for an argument that is not a bool. */
    method HandleStop(signame: string, setStop: Option<bool>) returns (r: Result<Option<bool>>)
      requires Valid()
      modifies this`sigs
      ensures Valid()
      ensures setStop.None? ==> r == Ok(None) && sigs == old(sigs)
      ensures setStop.Some? && signame !in old(sigs) ==> r == Err(KeyError) && sigs == old(sigs)
      ensures setStop.Some? && signame in old(sigs) ==>
        r == Ok(setStop) && sigs == old(sigs)[signame := WithStop(old(sigs)[signame], setStop.value)]
    {
      if setStop.None? {
        return Ok(None);
      }
      if signame !in sigs {
        return Err(KeyError);
      }
      SettersKeepStopPrints(sigs[signame], setStop.value);
      sigs := sigs[signame := WithStop(sigs[signame], setStop.value)];
      return Ok(setStop);
    }

    /** `handle_pass` */
    method HandlePass(signame: string, setPass: Option<bool>) returns (r: Result<Option<bool>>)
      requires Valid()
      modifies this`sigs
      ensures Valid()
      ensures setPass.None? ==> r == Ok(None) && sigs == old(sigs)
      ensures setPass.Some? && signame !in old(sigs) ==> r == Err(KeyError) && sigs == old(sigs)
      ensures setPass.Some? && signame in old(sigs) ==>
        r == Ok(setPass) && sigs == old(sigs)[signame := WithPass(old(sigs)[signame], setPass.value)]
    {
      if setPass.None? {
        return Ok(None);
      }
      if signame !in sigs {
        return Err(KeyError);
      }
      SettersKeepStopPrints(sigs[signame], setPass.value);
      sigs := sigs[signame := WithPass(sigs[signame], setPass.value)];
      return Ok(setPass);
    }

    /** `handle_ignore`: ignoring is not passing. */
    method HandleIgnore(signame: string, setIgnore: Option<bool>) returns (r: Result<Option<bool>>)
      requires Valid()
      modifies this`sigs
      ensures Valid()
      ensures setIgnore.None? ==> r == Ok(None) && sigs == old(sigs)
      ensures setIgnore.Some? && signame !in old(sigs) ==> r == Err(KeyError) && sigs == old(sigs)
      ensures setIgnore.Some? && signame in old(sigs) ==>
        r == Ok(setIgnore) && sigs == old(sigs)[signame := WithPass(old(sigs)[signame], !setIgnore.value)]
    {
      if setIgnore.None? {
        return Ok(None);
      }
      var passed := HandlePass(signame, Some(!setIgnore.value));
      if passed.Err? {
        return passed;
      }
      return Ok(setIgnore);
    }

    /** `handle_print` */
    method HandlePrint(signame: string, setPrint: Option<bool>) returns (r: Result<Option<bool>>)
      requires Valid()
      modifies this`sigs
      ensures Valid()
      ensures setPrint.None? ==> r == Ok(None) && sigs == old(sigs)
      ensures setPrint.Some? && signame !in old(sigs) ==> r == Err(KeyError) && sigs == old(sigs)
      ensures setPrint.Some? && signame in old(sigs) ==>
        r == Ok(setPrint) && sigs == old(sigs)[signame := WithPrint(old(sigs)[signame], setPrint.value)]
    {
      if setPrint.None? {
        return Ok(None);
      }
      if signame !in sigs {
        return Err(KeyError);
      }
      SettersKeepStopPrints(sigs[signame], setPrint.value);
      sigs := sigs[signame := WithPrint(sigs[signame], setPrint.value)];
      return Ok(setPrint);
    }

    /** The name `action` settles on: the word itself, else with `SIG` in
        front. */
    function Resolve(word: string): (r: Option<string>)
      reads this
      ensures r.Some? ==> r.value in sigs && (r.value == word || r.value == "SIG" + word)
      ensures r.None? <==> word !in sigs && "SIG" + word !in sigs
    {
      if word in sigs then Some(word) else if "SIG" + word in sigs then Some("SIG" + word) else None
    }

    /** One modifier of `action`, through the matching setter. */
    method ApplyOne(signame: string, m: Modifier)
      requires Valid() && signame in sigs
      modifies this`sigs
      ensures Valid()
      ensures sigs == old(sigs)[signame := Apply(old(sigs)[signame], m)]
    {
      match m {
        case SetStop(on) => var _ := HandleStop(signame, Some(on));
        case SetPrint(on) => var _ := HandlePrint(signame, Some(on));
        case SetPass(on) => var _ := HandlePass(signame, Some(on));
        case Invalid =>
          assert sigs == sigs[signame := Apply(sigs[signame], m)];
      }
    }

    /** `action`'s loop: each modifier word is applied in turn to the
        flags of `signame`, and the rejected words are returned. */
    method ApplyModifiers(signame: string, mods: seq<string>) returns (rejected: seq<string>)
      requires Valid() && signame in sigs
      modifies this`sigs
      ensures Valid()
      ensures sigs == old(sigs)[signame := ApplyAll(old(sigs)[signame], mods)]
      ensures rejected == Rejected(mods)
    {
      rejected := [];
      ghost var f0 := sigs[signame];
      var i := 0;
      while i < |mods|
        invariant 0 <= i <= |mods|
        invariant Valid()
        invariant sigs == old(sigs)[signame := ApplyAll(f0, mods[..i])]
        invariant rejected == Rejected(mods[..i])
      {
        ghost var prefix := mods[..i + 1];
        assert prefix[..i] == mods[..i] && prefix[i] == mods[i];
        assert ApplyAll(f0, prefix) == Apply(ApplyAll(f0, mods[..i]), ParseModifier(mods[i]));
        var m := ParseModifier(mods[i]);
        ApplyOne(signame, m);
        if m.Invalid? {
          rejected := rejected + [mods[i]];
        }
        i := i + 1;
      }
      assert mods[..i] == mods;
    }

    /** `action`: an argument of blanks only has no first word and fails
        with an index error; an unknown signal, a bare name or a fatal
        signal changes nothing; otherwise every modifier word is applied in
        turn to the signal's flags, and the rejected ones are returned. */
    method Action(arg: string) returns (r: Result<ActionOutcome>)
      requires Valid()
      modifies this`sigs
      ensures Valid()
      ensures var args := Split(arg);
        && (arg == "" ==> r == Ok(ListedAll))
        && (arg != "" && args == [] ==> r == Err(IndexError))
        && (arg != "" && args != [] ==>
              var name := old(Resolve(args[0]));
              && (name.None? ==> r == Ok(UnknownSignal))
              && (name.Some? && |args| == 1 ==> r == Ok(Shown(name.value)))
              && (name.Some? && |args| > 1 && name.value in FatalSignals ==> r == Ok(FatalSignal(name.value)))
              && (name.Some? && |args| > 1 && name.value !in FatalSignals ==>
                    && r == Ok(Applied(name.value, Rejected(args[1..])))
                    && sigs == old(sigs)[name.value := ApplyAll(old(sigs)[name.value], args[1..])]))
      ensures !(r.Ok? && r.value.Applied?) ==> sigs == old(sigs)
    {
      if arg == "" {
        return Ok(ListedAll);
      }
      var args := Split(arg);
      if args == [] {
        return Err(IndexError);
      }
      var name := Resolve(args[0]);
      if name.None? {
        return Ok(UnknownSignal);
      }
      if |args| == 1 {
        return Ok(Shown(name.value));
      }
      if name.value in FatalSignals {
        return Ok(FatalSignal(name.value));
      }
      var rejected := ApplyModifiers(name.value, args[1..]);
      return Ok(Applied(name.value, rejected));
    }

    /** `handle`, called when signal `signum` arrives: the message is shown
        when printing is on; stopping sets the debugger's `step_ignore` to 1
        (the command loop that follows is not part of this model); passing
        calls the replaced handler when it is a callable, raises a type
        error when it is `SIG_IGN` and ends in a runtime error when it is
        the debugger's own handler (see `PassOn`). An unknown number or a passed signal
        without a recorded handler fails with a key error. */
    method Handle(signum: int) returns (r: Result<Received>)
      modifies dbg`stepIgnore
      ensures var sig := LookupSignalName(table, signum);
        && (sig.None? || sig.value !in sigs ==> r == Err(KeyError) && dbg.stepIgnore == old(dbg.stepIgnore))
        && (sig.Some? && sig.value in sigs ==>
              var f := sigs[sig.value];
              && dbg.stepIgnore == (if f.stop then 1 else old(dbg.stepIgnore))
              && (f.pass && signum !in oldHandlers ==> r == Err(KeyError))
              && (f.pass && signum in oldHandlers && PassOn(oldHandlers[signum]).Err? ==> r == Err(PassOn(oldHandlers[signum]).error))
              && (!f.pass || (signum in oldHandlers && PassOn(oldHandlers[signum]).Ok?) ==>
                    r == Ok(Received(if f.prints then Some("Program received signal " + sig.value) else None,
                                     f.stop, f.pass && oldHandlers[signum] == Callable))))
    {
      var sig := LookupSignalName(table, signum);
      if sig.None? || sig.value !in sigs {
        return Err(KeyError);
      }
      var f := sigs[sig.value];
      var message := None;
      if f.prints {
        message := Some("Program received signal " + sig.value);
      }
      if f.stop {
        dbg.stepIgnore := 1;
      }
      var chained := false;
      if f.pass {
        if signum !in oldHandlers {
          return Err(KeyError);
        }
        match PassOn(oldHandlers[signum])
        case Err(e) => return Err(e);
        case Ok(called) => chained := called;
      }
      return Ok(Received(message, f.stop, chained));
    }
  }
}
