/** gdb-style subcommands (`info`, `set`, `show`) with abbreviations:
    pydb/subcmd.py. The `subcmds` dictionary is a map from name to entry;
    `order` is the order in which the dictionary hands out its keys, which
    Python leaves unspecified, so nothing proved here depends on it. */
module Subcmds {
  import opened Wrappers
  import opened PyStr
  import Breakpoints

  /** An entry of `subcmds`: the handler (an identifier standing for the
      callback), its docstring, whether it is listed, and the shortest
      abbreviation allowed. */
  datatype Entry = Entry(name: string, callback: nat, doc: string, inList: bool, minLen: int)

  /** The condition of `lookup`: the name starts with the prefix and the
      prefix is at least `min` long. */
  predicate Matches(e: Entry, prefix: string) {
    StartsWith(e.name, prefix) && |prefix| >= e.minLen
  }

  /** What the debugger object is asked to do: `msg_nocr`, `msg`,
      `errmsg` and `undefined_cmd` calls, and a run of a callback. */
  datatype Call =
    | MsgNocr(text: string)
    | Msg(text: string)
    | Errmsg(text: string)
    | UndefinedCmd(cmd: string, subcmd: string)
    | Run(callback: nat, arg: string)

  /** Insert into a strictly sorted list of strings. */
  function Insert(x: string, l: seq<string>): (r: seq<string>)
    requires SortedStrict(l) && x !in l
    ensures SortedStrict(r) && |r| == |l| + 1
    ensures forall y :: y in r <==> y in l || y == x
  {
    if l == [] then [x]
    else if StrLt(x, l[0]) then
      assert forall j :: 0 < j < |l| ==> StrLt(x, l[j]) by {
        forall j | 0 < j < |l| ensures StrLt(x, l[j]) { StrLtTransitive(x, l[0], l[j]); }
      }
      [x] + l
    else
      StrLtTotal(x, l[0]);
      var rest := Insert(x, l[1..]);
      assert SortedStrict(l[1..]) by {
        forall i, j | 0 <= i < j < |l| - 1 ensures StrLt(l[1..][i], l[1..][j]) {
          assert l[1..][i] == l[i + 1] && l[1..][j] == l[j + 1];
        }
      }
      assert forall y :: y in rest ==> StrLt(l[0], y) by {
        forall y | y in rest ensures StrLt(l[0], y) {
          if y != x {
            var j :| 0 <= j < |l| - 1 && l[1..][j] == y;
            assert y == l[j + 1];
          }
        }
      }
      assert forall y :: y in l <==> y == l[0] || y in l[1..] by {
        assert l == [l[0]] + l[1..];
      }
      var r := [l[0]] + rest;
      assert SortedStrict(r) by {
        forall i, j | 0 <= i < j < |r| ensures StrLt(r[i], r[j]) {
          if i == 0 {
            assert r[j] == rest[j - 1];
            assert rest[j - 1] in rest;
          } else {
            assert r[i] == rest[i - 1] && r[j] == rest[j - 1];
          }
        }
      }
      r
  }

  /** `l.sort()` for a list without repeats: sorted, and the same names. */
  function SortStrings(s: seq<string>): (r: seq<string>)
    requires Breakpoints.NoDup(s)
    ensures SortedStrict(r) && |r| == |s|
    ensures forall y :: y in r <==> y in s
    decreases |s|
  {
    if s == [] then []
    else
      var init := s[..|s| - 1];
      assert forall y :: y in s <==> y in init || y == s[|s| - 1] by {
        assert s == init + [s[|s| - 1]];
      }
      assert s[|s| - 1] !in init by {
        forall j | 0 <= j < |init| ensures init[j] != s[|s| - 1] {
          assert init[j] == s[j];
        }
      }
      Insert(s[|s| - 1], SortStrings(init))
  }

  /** The text `help` prints for an unknown prefix. */
  function UnknownHelp(name: string, prefix: string): string {
    "Unknown 'help " + name + "' subcommand " + prefix
  }

  /** The heading of the full help listing. */
  function ListHeading(name: string): string {
    "\nList of " + name + " subcommands:\n"
  }

  /** One `Subcmd` object: the command's name, its docstring and the
      subcommand dictionary. */
  class Subcmd {
    const name: string
    const doc: string
    var subcmds: map<string, Entry>
    var order: seq<string>

    /** Every key is listed once in `order`, and each entry is filed under
        its own name. */
    predicate Valid()
      reads this
    {
      Breakpoints.NoDup(order)
      && (forall k :: k in subcmds ==> k in order)
      && (forall k :: k in order ==> k in subcmds)
      && (forall k :: k in subcmds ==> subcmds[k].name == k)
    }

    constructor(name: string, doc: string)
      ensures this.name == name && this.doc == doc && subcmds == map[] && order == []
      ensures Valid()
    {
      this.name := name;
      this.doc := doc;
      subcmds := map[];
      order := [];
    }

    /** `lookup(prefix)`: some entry that matches, or `None` exactly when no
        entry matches. */
    method Lookup(prefix: string) returns (r: Option<Entry>)
      requires Valid()
      ensures r.Some? ==> r.value.name in subcmds && subcmds[r.value.name] == r.value && Matches(r.value, prefix)
      ensures r.None? <==> forall k :: k in subcmds ==> !Matches(subcmds[k], prefix)
    {
      var i := 0;
      while i < |order|
        invariant 0 <= i <= |order|
        invariant forall j :: 0 <= j < i ==> !Matches(subcmds[order[j]], prefix)
      {
        var e := subcmds[order[i]];
        if StartsWith(e.name, prefix) && |prefix| >= e.minLen {
          return Some(e);
        }
        i := i + 1;
      }
      forall k | k in subcmds ensures !Matches(subcmds[k], prefix) {
        var j :| 0 <= j < |order| && order[j] == k;
      }
      return None;
    }

    /** `add(name, callback, min_len, in_list)`: create or overwrite exactly
        that entry. */
    method Add(subName: string, callback: nat, cbDoc: string, minLen: int, inList: bool)
      requires Valid()
      modifies this
      ensures subcmds == old(subcmds)[subName := Entry(subName, callback, cbDoc, inList, minLen)]
      ensures order == if subName in old(order) then old(order) else old(order) + [subName]
      ensures Valid()
    {
      subcmds := subcmds[subName := Entry(subName, callback, cbDoc, inList, minLen)];
      if subName !in order {
        order := order + [subName];
      }
    }

    /** `do(obj, name, arg)`: run the callback of a matching entry, or
        report an undefined command when none matches. */
    method Do(subName: string, arg: string) returns (c: Call)
      requires Valid()
      ensures c.UndefinedCmd? <==> forall k :: k in subcmds ==> !Matches(subcmds[k], subName)
      ensures c.UndefinedCmd? ==> c == UndefinedCmd(name, subName)
      ensures c.Run? ==>
        (c.arg == arg && exists k :: k in subcmds && Matches(subcmds[k], subName) && subcmds[k].callback == c.callback)
      ensures c.UndefinedCmd? || c.Run?
    {
      var entry := Lookup(subName);
      if entry.Some? {
        c := Run(entry.value.callback, arg);
      } else {
        c := UndefinedCmd(name, subName);
      }
    }

    /** The names in the order `list()` gives them: every name once, in
        ascending order. */
    ghost function Names(): (r: seq<string>)
      requires Valid()
      reads this
      ensures SortedStrict(r)
      ensures forall k :: k in r <==> k in subcmds
      ensures |r| == |subcmds|
    {
      assert subcmds.Keys == set k | k in order;
      NoDupCard(order);
      SortStrings(order)
    }

    /** `list()`. */
    method List() returns (l: seq<string>)
      requires Valid()
      ensures l == Names()
      ensures SortedStrict(l)
      ensures forall k :: k in l <==> k in subcmds
      ensures |l| == |subcmds|
    {
      l := SortStrings(order);
    }

    /** The line `_subcmd_helper` prints for `subName` after its label: the
        docstring of an entry that `subName` matches, or an undefined-command
        report exactly when no entry matches. */
    ghost predicate HelpBody(c: Call, subName: string)
      reads this
    {
      (c.Msg? && exists k :: k in Matching(subName) && subcmds[k].doc == c.text)
      || (c == UndefinedCmd("help", subName) && Matching(subName) == {})
    }

    /** The keys of the entries that `subName` matches. */
    ghost function Matching(subName: string): set<string>
      reads this
    {
      set k | k in subcmds && Matches(subcmds[k], subName)
    }

    /** `_subcmd_helper(name, obj, label)`. */
    method SubcmdHelper(subName: string, labelled: bool) returns (out: seq<Call>)
      requires Valid()
      ensures |out| == (if labelled then 2 else 1)
      ensures labelled ==> out[0] == MsgNocr(name + " " + subName + " --")
      ensures HelpBody(out[|out| - 1], subName)
    {
      out := [];
      if labelled {
        out := out + [MsgNocr(name + " " + subName + " --")];
      }
      var entry := Lookup(subName);
      if entry.Some? {
        out := out + [Msg(entry.value.doc)];
        return;
      }
      out := out + [UndefinedCmd("help", subName)];
    }

    /** `help` with an empty prefix: the docstring, the heading, then a
        label and a help line for every subcommand in sorted order. */
    method FullHelp() returns (out: seq<Call>)
      requires Valid()
      ensures |out| == 2 + 2 * |subcmds| && out[0] == Msg(doc) && out[1] == Msg(ListHeading(name))
      ensures forall j :: 0 <= j < |subcmds| ==> out[2 + 2 * j] == MsgNocr(name + " " + Names()[j] + " --")
      ensures forall j :: 0 <= j < |subcmds| ==> HelpBody(out[3 + 2 * j], Names()[j])
    {
      out := [Msg(doc), Msg(ListHeading(name))];
      var l := List();
      var j := 0;
      while j < |l|
        invariant 0 <= j <= |l|
        invariant |out| == 2 + 2 * j && out[0] == Msg(doc) && out[1] == Msg(ListHeading(name))
        invariant Listed(out[2..], l[..j])
      {
        var lines := SubcmdHelper(l[j], true);
        ListedStep(out, lines, l, j);
        out := out + lines;
        j := j + 1;
      }
      assert l[..j] == l;
      ListedIndexed(out, l);
    }

    /** Appending the labelled help of the next name extends a listing. */
    lemma ListedStep(out: seq<Call>, lines: seq<Call>, l: seq<string>, j: int)
      requires 0 <= j < |l| && |out| >= 2 && Listed(out[2..], l[..j])
      requires |lines| == 2 && lines[0] == MsgNocr(name + " " + l[j] + " --") && HelpBody(lines[1], l[j])
      ensures Listed((out + lines)[2..], l[..j + 1])
    {
      assert (out + lines)[2..] == out[2..] + lines;
      assert l[..j + 1][..j] == l[..j];
      assert (out[2..] + lines)[..|out[2..] + lines| - 2] == out[2..];
    }

    /** A listing after a two-line header, read position by position. */
    lemma ListedIndexed(out: seq<Call>, l: seq<string>)
      requires |out| >= 2 && Listed(out[2..], l)
      ensures |out| == 2 + 2 * |l|
      ensures forall j :: 0 <= j < |l| ==> out[2 + 2 * j] == MsgNocr(name + " " + l[j] + " --")
      ensures forall j :: 0 <= j < |l| ==> HelpBody(out[3 + 2 * j], l[j])
    {
      if l == [] {
      } else {
        ListedAt(out[2..], l, 0);
      }
      forall j | 0 <= j < |l|
        ensures out[2 + 2 * j] == MsgNocr(name + " " + l[j] + " --") && HelpBody(out[3 + 2 * j], l[j])
      {
        ListedAt(out[2..], l, j);
      }
    }

    /** `out` is the labelled help of the names `l`, in order: a label and
        a help line for each. */
    ghost predicate Listed(out: seq<Call>, l: seq<string>)
      reads this
      decreases |l|
    {
      if l == [] then out == []
      else
        |out| >= 2
        && out[|out| - 2] == MsgNocr(name + " " + l[|l| - 1] + " --")
        && HelpBody(out[|out| - 1], l[|l| - 1])
        && Listed(out[..|out| - 2], l[..|l| - 1])
    }

    /** The `j`-th label and help line of a listing sit at `2 * j` and
        `2 * j + 1`. */
    lemma {:induction false} ListedAt(out: seq<Call>, l: seq<string>, j: int)
      requires Listed(out, l) && 0 <= j < |l|
      ensures |out| == 2 * |l|
      ensures out[2 * j] == MsgNocr(name + " " + l[j] + " --") && HelpBody(out[2 * j + 1], l[j])
      decreases |l|
    {
      if j < |l| - 1 {
        ListedAt(out[..|out| - 2], l[..|l| - 1], j);
      } else if |l| > 1 {
        ListedAt(out[..|out| - 2], l[..|l| - 1], 0);
      }
    }

    /** `help(obj, prefix)`. An empty prefix prints the docstring, a
        heading, and a labelled line for every subcommand in sorted order;
        otherwise the help of a matching entry, or an error when none
        matches. */
    method Help(prefix: string) returns (out: seq<Call>)
      requires Valid()
      ensures prefix == [] ==>
        (|out| == 2 + 2 * |subcmds| && out[0] == Msg(doc) && out[1] == Msg(ListHeading(name))
         && (forall j :: 0 <= j < |subcmds| ==> out[2 + 2 * j] == MsgNocr(name + " " + Names()[j] + " --"))
         && forall j :: 0 <= j < |subcmds| ==> HelpBody(out[3 + 2 * j], Names()[j]))
      ensures prefix != [] && (forall k :: k in subcmds ==> !Matches(subcmds[k], prefix)) ==>
        out == [Errmsg(UnknownHelp(name, prefix))]
      ensures prefix != [] && (exists k :: k in subcmds && Matches(subcmds[k], prefix)) ==>
        |out| == 1 && exists k :: k in subcmds && Matches(subcmds[k], prefix) && HelpBody(out[0], k)
    {
      if prefix == [] {
        out := FullHelp();
        return;
      }
      var entry := Lookup(prefix);
      if entry.Some? {
        out := SubcmdHelper(entry.value.name, false);
        assert HelpBody(out[0], entry.value.name);
      } else {
        out := [Errmsg(UnknownHelp(name, prefix))];
      }
    }
  }

  /** A list without repeats has as many elements as its set. */
  lemma {:induction false} NoDupCard(s: seq<string>)
    requires Breakpoints.NoDup(s)
    ensures |set k | k in s| == |s|
    decreases |s|
  {
    if s != [] {
      var init := s[..|s| - 1];
      assert Breakpoints.NoDup(init) by {
        forall i, j | 0 <= i < j < |init| ensures init[i] != init[j] {
          assert init[i] == s[i] && init[j] == s[j];
        }
      }
      NoDupCard(init);
      assert s[|s| - 1] !in init by {
        forall j | 0 <= j < |init| ensures init[j] != s[|s| - 1] {
          assert init[j] == s[j];
        }
      }
      assert s == init + [s[|s| - 1]];
      assert (set k | k in s) == (set k | k in init) + {s[|s| - 1]};
    }
  }
}
