/** Command completion: pydb/complete.py. `list_completions` appends to a
    caller's `completions` list and records names in a caller's `seen`
    dictionary; both live in a `Completions` object here, and `seen`
    (whose values are always `True`) is the set of its keys. */
module Complete {
  import opened PyStr
  import Breakpoints

  /** The names `list_completions` takes from `l` for `prefix`, in the
      order of `l`, and `seen` afterwards. */
  function NewNames(l: seq<string>, prefix: string, seen: set<string>): (r: (seq<string>, set<string>))
    ensures forall n :: n in r.1 <==> n in seen || (n in l && StartsWith(n, prefix))
    ensures forall n :: n in r.0 <==> n in l && StartsWith(n, prefix) && n !in seen
    ensures Breakpoints.NoDup(r.0)
    decreases |l|
  {
    if l == [] then ([], seen)
    else
      var init := l[..|l| - 1];
      var name := l[|l| - 1];
      assert forall n :: n in l <==> n in init || n == name by {
        assert l == init + [name];
      }
      var (names, s) := NewNames(init, prefix, seen);
      if StartsWith(name, prefix) && name !in s then (names + [name], s + {name})
      else (names, s)
  }

  /** Names are taken in the order of `l`: those from a front part come
      first, and the rest is what a second call sharing `seen` would take
      from the back part. */
  lemma {:induction false} NewNamesAppend(l1: seq<string>, l2: seq<string>, prefix: string, seen: set<string>)
    ensures var (n1, s1) := NewNames(l1, prefix, seen);
      var (n2, s2) := NewNames(l2, prefix, s1);
      NewNames(l1 + l2, prefix, seen) == (n1 + n2, s2)
    decreases |l2|
  {
    if l2 == [] {
      assert l1 + l2 == l1;
      var (n1, s1) := NewNames(l1, prefix, seen);
      assert NewNames(l2, prefix, s1) == ([], s1);
      assert n1 + [] == n1;
    } else {
      var l2' := l2[..|l2| - 1];
      assert (l1 + l2)[..|l1 + l2| - 1] == l1 + l2';
      assert (l1 + l2)[|l1 + l2| - 1] == l2[|l2| - 1];
      NewNamesAppend(l1, l2', prefix, seen);
      var (n1, s1) := NewNames(l1, prefix, seen);
      var (m, t) := NewNames(l2', prefix, s1);
      var name := l2[|l2| - 1];
      if StartsWith(name, prefix) && name !in t {
        assert NewNames(l2, prefix, s1) == (m + [name], t + {name});
        assert n1 + (m + [name]) == (n1 + m) + [name];
      } else {
        assert NewNames(l2, prefix, s1) == (m, t);
      }
    }
  }

  /** Each name with the left context in front of it. */
  function Prefixed(context: string, names: seq<string>): (r: seq<string>)
    ensures |r| == |names|
    ensures forall i :: 0 <= i < |names| ==> r[i] == context + names[i]
  {
    seq(|names|, i requires 0 <= i < |names| => context + names[i])
  }

  /** Different names stay different with the same context in front. */
  lemma PrefixedNoDup(context: string, names: seq<string>)
    requires Breakpoints.NoDup(names)
    ensures Breakpoints.NoDup(Prefixed(context, names))
  {
    var r := Prefixed(context, names);
    forall i, j | 0 <= i < j < |r| ensures r[i] != r[j] {
      assert r[i][|context|..] == names[i];
      assert r[j][|context|..] == names[j];
    }
  }

  /** The state a shared `seen`/`completions` pair keeps when no left
      context is used: no repeats, and every completion recorded as seen. */
  predicate Tidy(seen: set<string>, completions: seq<string>) {
    Breakpoints.NoDup(completions) && forall c :: c in completions ==> c in seen
  }

  /** Calls that share `seen` and `completions` accumulate without
      duplicates. */
  lemma SharedCallsTidy(l: seq<string>, prefix: string, seen: set<string>, completions: seq<string>)
    requires Tidy(seen, completions)
    ensures var (names, seen') := NewNames(l, prefix, seen);
      Tidy(seen', completions + Prefixed("", names))
  {
    var (names, seen') := NewNames(l, prefix, seen);
    var added := Prefixed("", names);
    forall i | 0 <= i < |names| ensures added[i] == names[i] {
      assert "" + names[i] == names[i];
    }
    assert added == names;
    var r := completions + added;
    forall i, j | 0 <= i < j < |r| ensures r[i] != r[j] {
      if j < |completions| {
      } else if i >= |completions| {
        assert r[i] == names[i - |completions|] && r[j] == names[j - |completions|];
      } else {
        assert r[i] in completions;
        assert r[j] == names[j - |completions|];
        assert r[j] in names;
      }
    }
  }

  /** A prefix no name in `l` starts with adds nothing and records
      nothing. */
  lemma {:induction false} NoMatchAddsNothing(l: seq<string>, prefix: string, seen: set<string>)
    requires forall n :: n in l ==> !StartsWith(n, prefix)
    ensures NewNames(l, prefix, seen) == ([], seen)
    decreases |l|
  {
    if l != [] {
      var init := l[..|l| - 1];
      assert forall n :: n in init ==> n in l;
      NoMatchAddsNothing(init, prefix, seen);
      assert l[|l| - 1] in l;
    }
  }

  /** The self-test's last example: matching uses the bare name, so prefix
      "o" under context "foo" finds nothing although "foo" holds an "o". */
  lemma ContextNotMatched()
    ensures Prefixed("foo", NewNames(["a", "an", "another", "also", "boy"], "o", {}).0) == []
  {
    var l := ["a", "an", "another", "also", "boy"];
    forall n | n in l ensures !StartsWith(n, "o") {
      assert n[0] != 'o';
    }
    NoMatchAddsNothing(l, "o", {});
  }

  /** `complete_subcommand`'s view of the debugger object: whether it has a
      `<cmd>cmds` attribute, and whether that has a `cmdlist`. */
  datatype SubcmdAttr = NoAttribute | NoCmdlist | Cmdlist(names: seq<string>)

  /** A `seen` dictionary and a `completions` list shared across calls. */
  class Completions {
    var seen: set<string>
    var completions: seq<string>

    constructor()
      ensures seen == {} && completions == []
    {
      seen := {};
      completions := [];
    }

    /** `list_completions(l, prefix, seen, completions, left_context)`:
        append the new matching names, in order, and record them as seen;
        what was there before stays in place. */
    method ListCompletions(l: seq<string>, prefix: string, leftContext: string) returns (r: seq<string>)
      modifies this
      ensures completions == old(completions) + Prefixed(leftContext, NewNames(l, prefix, old(seen)).0)
      ensures seen == NewNames(l, prefix, old(seen)).1
      ensures r == completions
    {
      var i := 0;
      while i < |l|
        invariant 0 <= i <= |l|
        invariant completions == old(completions) + Prefixed(leftContext, NewNames(l[..i], prefix, old(seen)).0)
        invariant seen == NewNames(l[..i], prefix, old(seen)).1
      {
        var name := l[i];
        assert l[..i + 1][..i] == l[..i];
        if StartsWith(name, prefix) {
          if name !in seen {
            completions := completions + [leftContext + name];
            seen := seen + {name};
          }
        }
        i := i + 1;
      }
      assert l[..i] == l;
      r := completions;
    }
  }

  /** `complete_subcommand(obj, [cmd, ...], prefix)`: the subcommand names
      that start with `prefix`, each after `cmd` and a space, or nothing
      when the object has no such list. */
  method CompleteSubcommand(attr: SubcmdAttr, cmd: string, prefix: string) returns (r: seq<string>)
    ensures !attr.Cmdlist? ==> r == []
    ensures attr.Cmdlist? ==> r == Prefixed(cmd + " ", NewNames(attr.names, prefix, {}).0)
    ensures Breakpoints.NoDup(r)
  {
    r := [];
    if attr.Cmdlist? {
      var c := new Completions();
      r := c.ListCompletions(attr.names, prefix, cmd + " ");
      PrefixedNoDup(cmd + " ", NewNames(attr.names, prefix, {}).0);
    }
  }
}
