/** The breakpoint registry of `Breakpoint` (pydb/pydbsupt.py): numbers
    handed out by a class-wide counter, a by-number list whose slot 0 is a
    placeholder and whose deleted slots become `None`, and a multimap from
    (file, line) to the breakpoints there.

    A Python breakpoint object is identified here by its number, which no
    two breakpoints share: the location index therefore lists numbers, and
    the by-number list holds the breakpoint records. */
module Breakpoints {
  import opened Wrappers

  type Location = (string, int)

  /** The attributes `Breakpoint.__init__` gives a breakpoint; `threadName`
      is the optional `thread_name` attribute the thread debugger adds. */
  datatype Bp = Bp(
    number: nat,
    file: string,
    line: int,
    temporary: bool,
    enabled: bool,
    cond: Option<string>,
    ignore: int,
    hits: int,
    threadName: Option<string>)
  {
    function Loc(): Location { (file, line) }
  }

  /** The three class attributes `next`, `bpbynumber` and `bplist`. */
  datatype RegistryState = RegistryState(
    next: nat,
    byNumber: seq<Option<Bp>>,
    byLocation: map<Location, seq<nat>>)

  predicate NoDup<T(==)>(s: seq<T>) {
    forall i, j :: 0 <= i < j < |s| ==> s[i] != s[j]
  }

  /** Breakpoint `n` exists and has not been deleted. */
  predicate Live(s: RegistryState, n: int) {
    0 < n < |s.byNumber| && s.byNumber[n].Some?
  }

  /** The two-index invariant: slot i of the by-number list holds breakpoint
      number i or None, slot 0 is the placeholder, the list is as long as the
      counter, and a breakpoint is live exactly when its number is listed,
      once, under its own location, where no list is empty. */
  ghost predicate WellFormed(s: RegistryState) {
    && s.next >= 1
    && |s.byNumber| == s.next
    && s.byNumber[0] == None
    && (forall n :: Live(s, n) ==> s.byNumber[n].value.number == n)
    && (forall n :: Live(s, n) ==>
          s.byNumber[n].value.Loc() in s.byLocation && n in s.byLocation[s.byNumber[n].value.Loc()])
    && (forall loc :: loc in s.byLocation ==>
          s.byLocation[loc] != [] && NoDup(s.byLocation[loc]))
    && (forall loc, k :: loc in s.byLocation && 0 <= k < |s.byLocation[loc]| ==>
          Live(s, s.byLocation[loc][k]) && s.byNumber[s.byLocation[loc][k]].value.Loc() == loc)
  }

  /** The class attributes before any breakpoint is made. */
  function Empty(): RegistryState {
    RegistryState(1, [None], map[])
  }

  function At(m: map<Location, seq<nat>>, loc: Location): seq<nat> {
    if loc in m then m[loc] else []
  }

  /** `Breakpoint(file, line, temporary)`: number `next`, counter bumped,
      appended to both indices. */
  function Add(s: RegistryState, file: string, line: int, temporary: bool): RegistryState {
    var n := s.next;
    var bp := Bp(n, file, line, temporary, true, None, 0, 0, None);
    RegistryState(n + 1, s.byNumber + [Some(bp)], s.byLocation[(file, line) := At(s.byLocation, (file, line)) + [n]])
  }

  /** `list.remove(x)`: drop the first element equal to `x`. */
  function RemoveFirst<T(==)>(l: seq<T>, x: T): (r: seq<T>)
    requires x in l
    ensures |r| == |l| - 1
  {
    if l[0] == x then l[1..] else [l[0]] + RemoveFirst(l[1..], x)
  }

  /** On a list without repeats, `remove(x)` keeps every other element and
      no repeats. */
  lemma {:induction false} RemoveFirstNoDup<T>(l: seq<T>, x: T)
    requires x in l && NoDup(l)
    ensures NoDup(RemoveFirst(l, x))
    ensures forall y :: y in RemoveFirst(l, x) ==> y in l && y != x
    ensures forall y :: y in l && y != x ==> y in RemoveFirst(l, x)
  {
    if l[0] != x {
      assert NoDup(l[1..]) by {
        forall i, j | 0 <= i < j < |l| - 1 ensures l[1..][i] != l[1..][j] {
          assert l[1..][i] == l[i + 1] && l[1..][j] == l[j + 1];
        }
      }
      RemoveFirstNoDup(l[1..], x);
      var r := RemoveFirst(l[1..], x);
      assert forall z :: z in r ==> z in l[1..];
      forall i, j | 0 <= i < j < |r| + 1 ensures ([l[0]] + r)[i] != ([l[0]] + r)[j] {
        if i == 0 {
          var y := ([l[0]] + r)[j];
          assert y == r[j - 1];
          assert y in r;
          assert y in l[1..];
          var k :| 0 <= k < |l[1..]| && l[1..][k] == y;
          assert l[k + 1] == l[1..][k];
        }
      }
    } else {
      forall y ensures y in l[1..] <==> y in l && y != x {
        if y in l[1..] {
          var k :| 0 <= k < |l[1..]| && l[1..][k] == y;
          assert l[k + 1] == y;
        }
        if y in l && y != x {
          var k :| 0 <= k < |l| && l[k] == y;
          assert k != 0;
          assert l[1..][k - 1] == y;
        }
      }
      assert NoDup(l[1..]) by {
        forall i, j | 0 <= i < j < |l| - 1 ensures l[1..][i] != l[1..][j] {
          assert l[1..][i] == l[i + 1] && l[1..][j] == l[j + 1];
        }
      }
    }
  }

  /** `deleteMe`: the by-number slot becomes None, the breakpoint leaves its
      location list and an emptied location is dropped. On a breakpoint that
      was already deleted the lookup in `bplist` or the `remove` raises, and
      nothing changes. */
  function Delete(s: RegistryState, n: nat): Result<RegistryState>
    requires WellFormed(s)
  {
    if !Live(s, n) then Err(KeyError)
    else
      var loc := s.byNumber[n].value.Loc();
      var rest := RemoveFirst(s.byLocation[loc], n);
      Ok(RegistryState(
        s.next,
        s.byNumber[n := None],
        if rest == [] then s.byLocation - {loc} else s.byLocation[loc := rest]))
  }

  /** `enable()` / `disable()` on the breakpoint object numbered `n`. A
      deleted breakpoint's object is no longer in either index, so setting
      its flag changes nothing the registry shows. */
  function SetEnabled(s: RegistryState, n: nat, flag: bool): RegistryState {
    if Live(s, n) then s.(byNumber := s.byNumber[n := Some(s.byNumber[n].value.(enabled := flag))]) else s
  }

  /** Setting the `cond` attribute of breakpoint `n` (what `set_break` and the
      condition command do). */
  function SetCondition(s: RegistryState, n: nat, cond: Option<string>): RegistryState {
    if Live(s, n) then s.(byNumber := s.byNumber[n := Some(s.byNumber[n].value.(cond := cond))]) else s
  }

  lemma EmptyWellFormed()
    ensures WellFormed(Empty())
  {
  }

  /** Construction keeps both indices consistent, gives the new breakpoint
      number `next`, appends it at the end of its location's list and leaves
      every other location alone. */
  lemma AddWellFormed(s: RegistryState, file: string, line: int, temporary: bool)
    requires WellFormed(s)
    ensures var r := Add(s, file, line, temporary);
      && WellFormed(r)
      && r.next == s.next + 1
      && Live(r, s.next) && r.byNumber[s.next].value.number == s.next
      && r.byNumber[s.next].value.enabled
      && r.byLocation[(file, line)] == At(s.byLocation, (file, line)) + [s.next]
      && (forall loc :: loc != (file, line) ==> (loc in r.byLocation <==> loc in s.byLocation))
      && (forall loc :: loc != (file, line) && loc in s.byLocation ==> r.byLocation[loc] == s.byLocation[loc])
      && (forall m :: Live(s, m) ==> Live(r, m) && r.byNumber[m] == s.byNumber[m])
  {
    var r := Add(s, file, line, temporary);
    var loc := (file, line);
    var n := s.next;
    forall m | Live(s, m) ensures m < n && m != n { }
    assert n !in At(s.byLocation, loc) by {
      if loc in s.byLocation {
        forall k | 0 <= k < |s.byLocation[loc]| ensures s.byLocation[loc][k] != n {
          assert Live(s, s.byLocation[loc][k]);
        }
      }
    }
    assert NoDup(r.byLocation[loc]);
    forall m | Live(r, m)
      ensures r.byNumber[m].value.Loc() in r.byLocation && m in r.byLocation[r.byNumber[m].value.Loc()]
    {
      if m < n {
        assert Live(s, m);
      }
    }
    forall l, k | l in r.byLocation && 0 <= k < |r.byLocation[l]|
      ensures Live(r, r.byLocation[l][k]) && r.byNumber[r.byLocation[l][k]].value.Loc() == l
    {
      if l == loc && k == |r.byLocation[l]| - 1 {
        assert r.byLocation[l][k] == n;
      } else if l == loc {
        assert r.byLocation[l][k] == s.byLocation[l][k];
      } else {
        assert r.byLocation[l][k] == s.byLocation[l][k];
      }
    }
  }

  /** `deleteMe` keeps both indices consistent, keeps the length of the
      by-number list and the counter, nulls exactly the deleted slot and
      removes exactly the deleted number from its location. */
  lemma DeleteWellFormed(s: RegistryState, n: nat)
    requires WellFormed(s) && Live(s, n)
    ensures Delete(s, n).Ok?
    ensures var r := Delete(s, n).value;
      && WellFormed(r)
      && r.next == s.next && |r.byNumber| == |s.byNumber|
      && !Live(r, n)
      && (forall m :: m != n ==> (Live(r, m) <==> Live(s, m)))
      && (forall m :: 0 <= m < |s.byNumber| && m != n ==> r.byNumber[m] == s.byNumber[m])
      && (forall loc :: loc in r.byLocation ==> forall m :: m in r.byLocation[loc] <==> m in s.byLocation[loc] && m != n)
  {
    var loc := s.byNumber[n].value.Loc();
    var l := s.byLocation[loc];
    RemoveFirstNoDup(l, n);
    var r := Delete(s, n).value;
    forall m | Live(r, m)
      ensures r.byNumber[m].value.Loc() in r.byLocation && m in r.byLocation[r.byNumber[m].value.Loc()]
    {
      assert Live(s, m);
      var lm := s.byNumber[m].value.Loc();
      if lm == loc {
        assert m in RemoveFirst(l, n);
      }
    }
    forall lc, k | lc in r.byLocation && 0 <= k < |r.byLocation[lc]|
      ensures Live(r, r.byLocation[lc][k]) && r.byNumber[r.byLocation[lc][k]].value.Loc() == lc
    {
      var m := r.byLocation[lc][k];
      if lc == loc {
        assert m in RemoveFirst(l, n);
        var j :| 0 <= j < |l| && l[j] == m;
        assert Live(s, l[j]);
      } else {
        assert m == s.byLocation[lc][k];
      }
    }
  }

  /** Deleting a breakpoint a second time fails and changes nothing. */
  lemma DeleteTwiceFails(s: RegistryState, n: nat)
    requires WellFormed(s) && Live(s, n)
    ensures Delete(s, n).Ok?
    ensures WellFormed(Delete(s, n).value) && Delete(Delete(s, n).value, n) == Err(KeyError)
  {
    DeleteWellFormed(s, n);
  }

  /** Numbers are never reused: a breakpoint made after another one was made
      and deleted gets the next number after it, and every live breakpoint's
      number is below the counter. */
  lemma NumbersNeverReused(s: RegistryState, file: string, line: int, t1: bool, file2: string, line2: int, t2: bool)
    requires WellFormed(s)
    ensures var a := Add(s, file, line, t1);
      WellFormed(a) && Delete(a, s.next).Ok? &&
      var d := Delete(a, s.next).value;
      var b := Add(d, file2, line2, t2);
      && b.byNumber[|b.byNumber| - 1].value.number == s.next + 1
      && (forall m :: Live(b, m) ==> m <= s.next + 1)
      && !Live(b, s.next)
  {
    var a := Add(s, file, line, t1);
    AddWellFormed(s, file, line, t1);
    DeleteWellFormed(a, s.next);
    var d := Delete(a, s.next).value;
    AddWellFormed(d, file2, line2, t2);
  }

  /** Enabling or disabling keeps both indices consistent and changes only
      the flag of breakpoint `n`: every other slot, the counter and the
      location index stay as they were. */
  lemma SetEnabledWellFormed(s: RegistryState, n: nat, flag: bool)
    requires WellFormed(s)
    ensures WellFormed(SetEnabled(s, n, flag)) && SetEnabled(s, n, flag).byLocation == s.byLocation
    ensures SetEnabled(s, n, flag).next == s.next && |SetEnabled(s, n, flag).byNumber| == |s.byNumber|
    ensures forall m :: 0 <= m < |s.byNumber| && m != n ==> SetEnabled(s, n, flag).byNumber[m] == s.byNumber[m]
    ensures Live(s, n) ==> SetEnabled(s, n, flag).byNumber[n] == Some(s.byNumber[n].value.(enabled := flag))
    ensures !Live(s, n) ==> SetEnabled(s, n, flag) == s
  {
    var r := SetEnabled(s, n, flag);
    forall m | Live(r, m) ensures r.byNumber[m].value.Loc() == s.byNumber[m].value.Loc() { }
  }

  /** Setting a condition keeps both indices consistent and changes only
      the condition of breakpoint `n`. */
  lemma SetConditionWellFormed(s: RegistryState, n: nat, cond: Option<string>)
    requires WellFormed(s)
    ensures WellFormed(SetCondition(s, n, cond)) && SetCondition(s, n, cond).byLocation == s.byLocation
    ensures SetCondition(s, n, cond).next == s.next && |SetCondition(s, n, cond).byNumber| == |s.byNumber|
    ensures forall m :: 0 <= m < |s.byNumber| && m != n ==> SetCondition(s, n, cond).byNumber[m] == s.byNumber[m]
    ensures Live(s, n) ==> SetCondition(s, n, cond).byNumber[n] == Some(s.byNumber[n].value.(cond := cond))
    ensures !Live(s, n) ==> SetCondition(s, n, cond) == s
  {
    var r := SetCondition(s, n, cond);
    forall m | Live(r, m) ensures r.byNumber[m].value.Loc() == s.byNumber[m].value.Loc() { }
  }

  /** The registry as a Python object with mutable class attributes. */
  class Registry {
    var next: nat
    var byNumber: seq<Option<Bp>>
    var byLocation: map<Location, seq<nat>>

    function State(): RegistryState
      reads this
    {
      RegistryState(next, byNumber, byLocation)
    }

    ghost predicate Valid()
      reads this
    {
      WellFormed(State())
    }

    constructor ()
      ensures Valid() && State() == Empty()
    {
      next, byNumber, byLocation := 1, [None], map[];
    }

    /** `Breakpoint.__init__` */
    method Create(file: string, line: int, temporary: bool) returns (n: nat)
      requires Valid()
      modifies this
      ensures Valid() && State() == Add(old(State()), file, line, temporary)
      ensures n == old(next) && Live(State(), n)
    {
      AddWellFormed(State(), file, line, temporary);
      n := next;
      next := next + 1;
      byNumber := byNumber + [Some(Bp(n, file, line, temporary, true, None, 0, 0, None))];
      var loc := (file, line);
      var here := if loc in byLocation then byLocation[loc] else [];
      byLocation := byLocation[loc := here + [n]];
    }

    /** `deleteMe` on the breakpoint numbered `n`; `ok` is false when Python
        would raise because it was deleted before. */
    method DeleteMe(n: nat) returns (ok: bool)
      requires Valid()
      modifies this
      ensures Valid()
      ensures ok == Live(old(State()), n)
      ensures ok ==> Delete(old(State()), n) == Ok(State())
      ensures !ok ==> State() == old(State())
    {
      ok := Live(State(), n);
      if ok {
        DeleteWellFormed(State(), n);
        var loc := byNumber[n].value.Loc();
        var rest := RemoveFirst(byLocation[loc], n);
        byNumber := byNumber[n := None];
        if rest == [] {
          byLocation := byLocation - {loc};
        } else {
          byLocation := byLocation[loc := rest];
        }
      }
    }

    /** `enable()` when `flag`, `disable()` otherwise. */
    method SetEnabledFlag(n: nat, flag: bool)
      requires Valid()
      modifies this
      ensures Valid() && State() == SetEnabled(old(State()), n, flag)
    {
      SetEnabledWellFormed(State(), n, flag);
      if Live(State(), n) {
        byNumber := byNumber[n := Some(byNumber[n].value.(enabled := flag))];
      }
    }

    method SetCond(n: nat, cond: Option<string>)
      requires Valid()
      modifies this
      ensures Valid() && State() == SetCondition(old(State()), n, cond)
    {
      SetConditionWellFormed(State(), n, cond);
      if Live(State(), n) {
        byNumber := byNumber[n := Some(byNumber[n].value.(cond := cond))];
      }
    }
  }
}
