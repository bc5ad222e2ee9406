/** The auto-display registry: `Display` and `DisplayNode`, of which the
    repository keeps three near-identical copies (pydb/display.py,
    pydb/pydbdisp.py and the one in pydb/pydbsupt.py). The class-level
    `displayNext` counter and `displayList` become the fields of one
    `Display` object; the nodes in the list are values. */
module Displays {
  import opened Wrappers
  import opened PyStr
  import opened Frames
  import opened Fns
  import Breakpoints

  /** The call-site signature `(co_name, co_filename, co_firstlineno)`. */
  datatype Code = Code(name: string, filename: string, firstlineno: int)

  /** `displayIndex(frame)`: the signature of the frame's code, or `None`
      for a missing frame. */
  function DisplayIndex(frame: Option<Frame>): (c: Option<Code>)
    ensures c.None? <==> frame.None?
    ensures frame.Some? ==>
      (c.value.name == frame.value.coName && c.value.filename == frame.value.coFilename
       && c.value.firstlineno == frame.value.coFirstlineno)
  {
    match frame
    case None => None
    case Some(f) => Some(Code(f.coName, f.coFilename, f.coFirstlineno))
  }

  /** A `DisplayNode`: its number, the signature it was created under, the
      `printf` format, the expression text and the enabled flag. */
  datatype Node = Node(number: int, code: Option<Code>, format: string, arg: string, enabled: bool)

  /** The class-level state: `displayNext` and `displayList`. */
  datatype Table = Table(next: int, list: seq<Node>)

  /** Numbers in the list strictly increase and all lie below the counter. */
  predicate ValidTable(t: Table) {
    (forall i, j :: 0 <= i < j < |t.list| ==> t.list[i].number < t.list[j].number)
    && (forall i :: 0 <= i < |t.list| ==> t.list[i].number < t.next)
  }

  /** The message `displayMe` gives for an expression it cannot show. */
  function NoSymbol(arg: string): string {
    "No symbol \"" + arg + "\" in current context."
  }

  /** `displayMe(frame)` of pydb/pydbdisp.py and pydb/pydbsupt.py: `eval`
      is an oracle that answers `None` when evaluation raises. With a
      format the value goes through `printf`, whose exception or endless
      loop propagates. */
  function DisplayMe(node: Node, frame: Option<Frame>, eval: (string, Frame) -> Option<Value>,
                     convert: (char, Value) -> Option<string>): Printed
  {
    if frame.None? then Text(NoSymbol(node.arg))
    else
      var v := eval(node.arg, frame.value);
      if v.None? then Text(NoSymbol(node.arg))
      else if node.format == "" then
        Text(IntToString(node.number) + ": " + node.arg + " = " + Str(v.value))
      else
        match PrintfSpec(v.value, node.format, convert)
        case Text(s) => Text(IntToString(node.number) + ": " + node.format + " " + node.arg + " = " + s)
        case other => other
  }

  /** `res.split()[0] == 'No'`, the test `checkValid` applies. */
  predicate Fails(p: Printed) {
    p.Text? && Split(p.s) != [] && Split(p.s)[0] == "No"
  }

  /** The first word of a numbered display line is the number and its colon. */
  lemma FirstWordOfNumbered(n: int, rest: string)
    ensures Strip(IntToString(n) + ": " + rest) != []
    ensures FirstWord(IntToString(n) + ": " + rest) == IntToString(n) + ":"
  {
    var s := IntToString(n) + ": " + rest;
    var k := |IntToString(n)| + 1;
    assert s[..k] == IntToString(n) + ":";
    IntToStringNoSpace(n);
    forall j | 0 <= j < k ensures !IsSpace(s[..k][j]) {
      if j < k - 1 { assert s[..k][j] == IntToString(n)[j]; }
    }
    assert s[k] == ' ';
    FirstWordOfWordStart(s, k);
  }

  /** The first word of the "No symbol" message is "No". */
  lemma FirstWordOfNoSymbol(arg: string)
    ensures Strip(NoSymbol(arg)) != [] && FirstWord(NoSymbol(arg)) == "No"
  {
    var s := NoSymbol(arg);
    assert s[..2] == "No";
    assert s[2] == ' ';
    FirstWordOfWordStart(s, 2);
  }

  /** `displayMe` fails (in `checkValid`'s sense) exactly when the frame is
      missing or the expression cannot be evaluated, and the message is
      then the "No symbol" one; a text it returns always has a first word. */
  lemma DisplayMeFails(node: Node, frame: Option<Frame>, eval: (string, Frame) -> Option<Value>,
                       convert: (char, Value) -> Option<string>)
    ensures var p := DisplayMe(node, frame, eval, convert);
      p.Text? ==> Split(p.s) != []
    ensures var p := DisplayMe(node, frame, eval, convert);
      Fails(p) <==> (frame.None? || eval(node.arg, frame.value).None?)
    ensures var p := DisplayMe(node, frame, eval, convert);
      Fails(p) ==> p == Text(NoSymbol(node.arg))
  {
    var p := DisplayMe(node, frame, eval, convert);
    if frame.None? || eval(node.arg, frame.value).None? {
      FirstWordOfNoSymbol(node.arg);
      SplitEmptyIffStripEmpty(p.s);
    } else if p.Text? {
      var v := eval(node.arg, frame.value).value;
      var rest := if node.format == "" then node.arg + " = " + Str(v)
        else node.format + " " + node.arg + " = " + PrintfSpec(v, node.format, convert).s;
      assert p.s == IntToString(node.number) + ": " + rest;
      FirstWordOfNumbered(node.number, rest);
      SplitEmptyIffStripEmpty(p.s);
      var w := IntToString(node.number) + ":";
      assert w[|w| - 1] == ':';
    }
  }

  /** The node `DisplayNode(frame, arg, format)` builds and the new state. */
  function Create(t: Table, frame: Option<Frame>, arg: string, format: string): (Table, Node) {
    var node := Node(t.next, DisplayIndex(frame), format, arg, true);
    (Table(t.next + 1, t.list + [node]), node)
  }

  /** Construction keeps the numbering invariant. */
  lemma CreateValid(t: Table, frame: Option<Frame>, arg: string, format: string)
    requires ValidTable(t)
    ensures ValidTable(Create(t, frame, arg, format).0)
    ensures Create(t, frame, arg, format).1.number == t.next
    ensures forall m :: m in t.list ==> m.number < Create(t, frame, arg, format).1.number
  {
  }

  /** `checkValid(frame)` given the text `displayMe` produced: a "No ..."
      message removes the node (`ValueError` if it is not listed) and takes
      the counter back by one; a text with no word at all makes `split()[0]`
      raise. */
  function CheckValidSpec(t: Table, node: Node, p: Printed): (Table, Printed) {
    if p.Text? && Split(p.s) == [] then (t, Raises(IndexError))
    else if Fails(p) then
      if node in t.list then (Table(t.next - 1, Breakpoints.RemoveFirst(t.list, node)), p)
      else (t, Raises(ValueError))
    else (t, p)
  }

  /** The node was the last one created. */
  predicate JustCreated(t: Table, node: Node) {
    t.list != [] && t.list[|t.list| - 1] == node && node.number == t.next - 1
  }

  /** On a list of increasing numbers, the first element equal to the last
      one is the last one. */
  lemma RemoveLast(l: seq<Node>)
    requires l != []
    requires forall i, j :: 0 <= i < j < |l| ==> l[i].number < l[j].number
    ensures l[|l| - 1] in l && Breakpoints.RemoveFirst(l, l[|l| - 1]) == l[..|l| - 1]
  {
    RemoveAt(l, |l| - 1);
  }

  /** `list.remove(list[k])` when no earlier element equals it. */
  lemma {:induction false} RemoveAt<T>(l: seq<T>, k: nat)
    requires k < |l|
    requires forall j :: 0 <= j < k ==> l[j] != l[k]
    ensures l[k] in l && Breakpoints.RemoveFirst(l, l[k]) == l[..k] + l[k + 1..]
  {
    if k > 0 {
      assert l[1..][k - 1] == l[k];
      RemoveAt(l[1..], k - 1);
      assert l[1..][..k - 1] == l[1..k];
      assert l[1..][k..] == l[k + 1..];
      assert [l[0]] + l[1..k] == l[..k];
    }
  }

  /** A node that has just been created and then fails its check leaves
      the list and the counter exactly as they were before it was created;
      one that passes leaves the new state in place. */
  lemma CreateThenCheck(t: Table, frame: Option<Frame>, arg: string, format: string,
                        eval: (string, Frame) -> Option<Value>, convert: (char, Value) -> Option<string>)
    requires ValidTable(t)
    ensures var (t1, node) := Create(t, frame, arg, format);
      var p := DisplayMe(node, frame, eval, convert);
      Fails(p) ==> CheckValidSpec(t1, node, p) == (t, p)
    ensures var (t1, node) := Create(t, frame, arg, format);
      var p := DisplayMe(node, frame, eval, convert);
      !Fails(p) ==> CheckValidSpec(t1, node, p) == (t1, p)
  {
    var (t1, node) := Create(t, frame, arg, format);
    DisplayMeFails(node, frame, eval, convert);
    CreateValid(t, frame, arg, format);
    RemoveAppended(t.list, node);
  }

  /** Removing an element just appended to a list that did not hold it. */
  lemma RemoveAppended(l: seq<Node>, x: Node)
    requires x !in l
    ensures x in l + [x] && Breakpoints.RemoveFirst(l + [x], x) == l
  {
    var l' := l + [x];
    forall j | 0 <= j < |l| ensures l'[j] != l'[|l|] {
      assert l'[j] == l[j];
    }
    RemoveAt(l', |l|);
    assert l'[..|l|] == l;
  }

  /** Used as its source comment prescribes, right after creation,
      `checkValid` keeps the numbering invariant. */
  lemma CheckValidKeepsValid(t: Table, node: Node, p: Printed)
    requires ValidTable(t) && JustCreated(t, node)
    ensures ValidTable(CheckValidSpec(t, node, p).0)
  {
    if p.Text? && Split(p.s) != [] && Fails(p) {
      RemoveLast(t.list);
      var l := t.list[..|t.list| - 1];
      forall i | 0 <= i < |l| ensures l[i].number < t.next - 1 {
        assert l[i] == t.list[i];
      }
    }
  }

  /** The entry `displayAny` shows for signature `c`. */
  predicate Selected(n: Node, c: Code) {
    n.code == Some(c) && n.enabled
  }

  /** The enabled entries created under signature `c`, in list order. */
  function Shown(list: seq<Node>, c: Code): (r: seq<Node>)
    decreases |list|
  {
    if list == [] then []
    else Shown(list[..|list| - 1], c) + (if Selected(list[|list| - 1], c) then [list[|list| - 1]] else [])
  }

  /** A node is shown exactly when it is in the list and selected, and no
      more nodes are shown than the list holds. */
  lemma {:induction false} ShownSelects(list: seq<Node>, c: Code)
    ensures |Shown(list, c)| <= |list|
    ensures forall n :: n in Shown(list, c) <==> n in list && Selected(n, c)
    decreases |list|
  {
    if list != [] {
      var init := list[..|list| - 1];
      var last := list[|list| - 1];
      ShownSelects(init, c);
      assert list == init + [last];
      assert forall n :: n in list <==> n in init || n == last;
    }
  }

  lemma {:induction false} ShownAppend(a: seq<Node>, b: seq<Node>, c: Code)
    ensures Shown(a + b, c) == Shown(a, c) + Shown(b, c)
    decreases |b|
  {
    if b == [] {
      assert a + b == a;
    } else {
      var b' := b[..|b| - 1];
      assert (a + b)[..|a + b| - 1] == a + b';
      assert (a + b)[|a + b| - 1] == b[|b| - 1];
      ShownAppend(a, b', c);
    }
  }

  /** One more element of the list. */
  lemma ShownStep(list: seq<Node>, k: nat, c: Code)
    requires k < |list|
    ensures Shown(list[..k + 1], c) == Shown(list[..k], c) + (if Selected(list[k], c) then [list[k]] else [])
  {
    assert list[..k + 1][..k] == list[..k];
  }

  /** The last output is an exception or an endless loop. */
  predicate Stopped(o: seq<Printed>) {
    o != [] && !o[|o| - 1].Text?
  }

  /** What `displayAny` prints for the nodes it shows: each node's
      `displayMe`, in order, up to and including the first one that does
      not give a text. */
  function Outputs(nodes: seq<Node>, frame: Frame, eval: (string, Frame) -> Option<Value>,
                   convert: (char, Value) -> Option<string>): (r: seq<Printed>)
    decreases |nodes|
  {
    if nodes == [] then []
    else
      var o := Outputs(nodes[..|nodes| - 1], frame, eval, convert);
      if Stopped(o) then o else o + [DisplayMe(nodes[|nodes| - 1], Some(frame), eval, convert)]
  }

  /** Each output is the `displayMe` of its node, in order; every output
      but the last is a text, and the outputs fall short of the nodes only
      when they have stopped. */
  lemma {:induction false} OutputsShape(nodes: seq<Node>, frame: Frame, eval: (string, Frame) -> Option<Value>,
                                        convert: (char, Value) -> Option<string>)
    ensures var r := Outputs(nodes, frame, eval, convert);
      |r| <= |nodes|
      && (forall j :: 0 <= j < |r| ==> r[j] == DisplayMe(nodes[j], Some(frame), eval, convert))
      && (forall j :: 0 <= j < |r| - 1 ==> r[j].Text?)
      && (|r| < |nodes| ==> Stopped(r))
    decreases |nodes|
  {
    if nodes != [] {
      var init := nodes[..|nodes| - 1];
      OutputsShape(init, frame, eval, convert);
      var o := Outputs(init, frame, eval, convert);
      if !Stopped(o) {
        assert forall j :: 0 <= j < |o| ==> nodes[j] == init[j];
      }
    }
  }

  lemma {:induction false} OutputsStopped(a: seq<Node>, b: seq<Node>, frame: Frame,
                                          eval: (string, Frame) -> Option<Value>, convert: (char, Value) -> Option<string>)
    requires Stopped(Outputs(a, frame, eval, convert))
    ensures Outputs(a + b, frame, eval, convert) == Outputs(a, frame, eval, convert)
    decreases |b|
  {
    if b == [] {
      assert a + b == a;
    } else {
      var b' := b[..|b| - 1];
      assert (a + b)[..|a + b| - 1] == a + b';
      OutputsStopped(a, b', frame, eval, convert);
    }
  }

  /** Once the outputs of a prefix of the list have stopped, the rest of
      the list adds nothing. */
  lemma StopsEarly(list: seq<Node>, k: nat, c: Code, frame: Frame,
                   eval: (string, Frame) -> Option<Value>, convert: (char, Value) -> Option<string>)
    requires k <= |list|
    requires Stopped(Outputs(Shown(list[..k], c), frame, eval, convert))
    ensures Outputs(Shown(list, c), frame, eval, convert) == Outputs(Shown(list[..k], c), frame, eval, convert)
  {
    assert list == list[..k] + list[k..];
    ShownAppend(list[..k], list[k..], c);
    OutputsStopped(Shown(list[..k], c), Shown(list[k..], c), frame, eval, convert);
  }

  /** One more entry of the list: while the outputs have not stopped, a
      selected entry adds its `displayMe` and any other adds nothing. */
  lemma OutputsStep(list: seq<Node>, k: nat, c: Code, frame: Frame,
                    eval: (string, Frame) -> Option<Value>, convert: (char, Value) -> Option<string>)
    requires k < |list|
    requires !Stopped(Outputs(Shown(list[..k], c), frame, eval, convert))
    ensures Outputs(Shown(list[..k + 1], c), frame, eval, convert) ==
      Outputs(Shown(list[..k], c), frame, eval, convert)
      + (if Selected(list[k], c) then [DisplayMe(list[k], Some(frame), eval, convert)] else [])
  {
    ShownStep(list, k, c);
    var ns := Shown(list[..k], c);
    if Selected(list[k], c) {
      assert (ns + [list[k]])[..|ns + [list[k]]| - 1] == ns;
    } else {
      assert ns + [] == ns;
    }
  }

  /** The first index holding display number `i`. */
  function FirstNumbered(list: seq<Node>, i: int): (r: Option<nat>)
    ensures r.None? <==> forall j :: 0 <= j < |list| ==> list[j].number != i
    ensures r.Some? ==>
      (r.value < |list| && list[r.value].number == i && forall j :: 0 <= j < r.value ==> list[j].number != i)
    decreases |list|
  {
    if list == [] then None
    else if list[0].number == i then Some(0)
    else
      match FirstNumbered(list[1..], i)
      case None => None
      case Some(k) => Some(k + 1)
  }

  /** `deleteOne(i)`'s effect: only the first entry numbered `i` goes. */
  function DeleteOneSpec(list: seq<Node>, i: int): (r: seq<Node>)
    ensures FirstNumbered(list, i).None? ==> r == list
    ensures FirstNumbered(list, i).Some? ==>
      (|r| == |list| - 1
       && (forall j :: 0 <= j < FirstNumbered(list, i).value ==> r[j] == list[j])
       && (forall j :: FirstNumbered(list, i).value <= j < |r| ==> r[j] == list[j + 1]))
  {
    match FirstNumbered(list, i)
    case None => list
    case Some(k) => list[..k] + list[k + 1..]
  }

  /** `enable(i, flag)`'s effect: only the first entry numbered `i` changes,
      and only in its enabled flag. */
  function EnableSpec(list: seq<Node>, i: int, flag: bool): (r: seq<Node>)
    ensures |r| == |list|
    ensures forall j :: 0 <= j < |list| && Some(j) != FirstNumbered(list, i) ==> r[j] == list[j]
    ensures FirstNumbered(list, i).Some? ==>
      r[FirstNumbered(list, i).value] == list[FirstNumbered(list, i).value].(enabled := flag)
  {
    match FirstNumbered(list, i)
    case None => list
    case Some(k) => list[k := list[k].(enabled := flag)]
  }

  lemma DeleteOneValid(t: Table, i: int)
    requires ValidTable(t)
    ensures ValidTable(Table(t.next, DeleteOneSpec(t.list, i)))
  {
    var r := DeleteOneSpec(t.list, i);
    if FirstNumbered(t.list, i).Some? {
      var k := FirstNumbered(t.list, i).value;
      forall a, b | 0 <= a < b < |r| ensures r[a].number < r[b].number {
        var a' := if a < k then a else a + 1;
        var b' := if b < k then b else b + 1;
        assert r[a] == t.list[a'] && r[b] == t.list[b'];
      }
      forall a | 0 <= a < |r| ensures r[a].number < t.next {
        assert r[a] == t.list[if a < k then a else a + 1];
      }
    }
  }

  lemma EnableValid(t: Table, i: int, flag: bool)
    requires ValidTable(t)
    ensures ValidTable(Table(t.next, EnableSpec(t.list, i, flag)))
  {
    var r := EnableSpec(t.list, i, flag);
    assert forall j :: 0 <= j < |r| ==> r[j].number == t.list[j].number;
  }

  /** The heading `displayAll` prints before the first entry. */
  function Header(): string {
    "Auto-display expressions now in effect:\nNum Enb Expression"
  }

  /** The line `params()` prints for a node. */
  function Params(n: Node): string {
    var num := IntToString(n.number);
    var what := (if n.enabled then " y  " else " n  ") + (if n.format != "" then n.format + " " else "");
    num + ":" + Spaces(3 - |num|) + what + n.arg
  }

  /** For numbers of up to three characters the `Enb` column lines up: the
      flag is always the sixth character, the number sits right after the
      line start, and the expression ends the line. */
  lemma ParamsColumns(n: Node)
    requires |IntToString(n.number)| <= 3
    ensures |Params(n)| >= 8
    ensures Params(n)[5] == (if n.enabled then 'y' else 'n')
    ensures Params(n)[..|IntToString(n.number)|] == IntToString(n.number)
    ensures Params(n)[|Params(n)| - |n.arg|..] == n.arg
  {
    var num := IntToString(n.number);
    var pad := Spaces(3 - |num|);
    var flag := if n.enabled then " y  " else " n  ";
    var fmt := if n.format != "" then n.format + " " else "";
    assert Params(n) == num + ":" + pad + flag + fmt + n.arg;
    assert |num + ":" + pad| == 4;
    assert (num + ":" + pad + flag + fmt + n.arg)[5] == flag[1];
  }

  /** The shared registry: `Display.displayNext` and `Display.displayList`. */
  class Display {
    var next: int
    var list: seq<Node>

    function State(): Table
      reads this
    {
      Table(next, list)
    }

    predicate Valid()
      reads this
    {
      ValidTable(State())
    }

    /** The class attributes as the module defines them. */
    constructor()
      ensures next == 1 && list == []
      ensures Valid()
    {
      next := 1;
      list := [];
    }

    /** `DisplayNode(frame, arg, format)`. */
    method NewNode(frame: Option<Frame>, arg: string, format: string) returns (node: Node)
      requires Valid()
      modifies this
      ensures (State(), node) == Create(old(State()), frame, arg, format)
      ensures Valid()
    {
      CreateValid(State(), frame, arg, format);
      node := Node(next, DisplayIndex(frame), format, arg, true);
      next := next + 1;
      list := list + [node];
    }

    /** `deleteMe()`: `displayList.remove(self)`. */
    method DeleteMe(node: Node)
      requires node in list
      modifies this
      ensures list == Breakpoints.RemoveFirst(old(list), node)
      ensures next == old(next)
    {
      list := Breakpoints.RemoveFirst(list, node);
    }

    /** `checkValid(frame)`. */
    method CheckValid(node: Node, frame: Option<Frame>, eval: (string, Frame) -> Option<Value>,
                      convert: (char, Value) -> Option<string>) returns (res: Printed)
      requires Valid()
      modifies this
      ensures (State(), res) == CheckValidSpec(old(State()), node, DisplayMe(node, frame, eval, convert))
      ensures JustCreated(old(State()), node) ==> Valid()
    {
      if JustCreated(State(), node) {
        CheckValidKeepsValid(State(), node, DisplayMe(node, frame, eval, convert));
      }
      res := DisplayMe(node, frame, eval, convert);
      if res.Text? {
        var words := Split(res.s);
        if words == [] {
          res := Raises(IndexError);
        } else if words[0] == "No" {
          if node in list {
            DeleteMe(node);
            next := next - 1;
          } else {
            res := Raises(ValueError);
          }
        }
      }
    }

    /** `displayAny(frame)`: the outputs printed, in order. */
    method DisplayAny(frame: Option<Frame>, eval: (string, Frame) -> Option<Value>,
                      convert: (char, Value) -> Option<string>) returns (out: seq<Printed>)
      ensures frame.None? ==> out == []
      ensures frame.Some? ==> out == Outputs(Shown(list, DisplayIndex(frame).value), frame.value, eval, convert)
    {
      out := [];
      if frame.None? {
        return;
      }
      var index := DisplayIndex(frame).value;
      var k := 0;
      while k < |list|
        invariant 0 <= k <= |list|
        invariant out == Outputs(Shown(list[..k], index), frame.value, eval, convert)
        invariant !Stopped(out)
      {
        var dp := list[k];
        OutputsStep(list, k, index, frame.value, eval, convert);
        if dp.code == Some(index) && dp.enabled {
          var p := DisplayMe(dp, frame, eval, convert);
          out := out + [p];
          if !p.Text? {
            StopsEarly(list, k + 1, index, frame.value, eval, convert);
            return;
          }
        }
        k := k + 1;
      }
      assert list[..k] == list;
    }

    /** `displayAll()`: whether any entry exists, and the lines printed. */
    method DisplayAll() returns (any: bool, out: seq<string>)
      ensures any <==> list != []
      ensures !any ==> out == []
      ensures any ==>
        (|out| == |list| + 1 && out[0] == Header() && forall k :: 0 <= k < |list| ==> out[k + 1] == Params(list[k]))
    {
      any := false;
      out := [];
      var k := 0;
      while k < |list|
        invariant 0 <= k <= |list|
        invariant any <==> k > 0
        invariant !any ==> out == []
        invariant any ==>
          (|out| == k + 1 && out[0] == Header() && forall j :: 0 <= j < k ==> out[j + 1] == Params(list[j]))
      {
        if !any {
          out := out + [Header()];
          any := true;
        }
        out := out + [Params(list[k])];
        k := k + 1;
      }
    }

    /** `deleteOne(i)`: remove the first entry numbered `i`, if any. */
    method DeleteOne(i: int)
      requires Valid()
      modifies this
      ensures list == DeleteOneSpec(old(list), i) && next == old(next)
      ensures Valid()
    {
      DeleteOneValid(State(), i);
      var k := 0;
      while k < |list|
        invariant 0 <= k <= |list|
        invariant forall j :: 0 <= j < k ==> list[j].number != i
      {
        if list[k].number == i {
          forall j | 0 <= j < k ensures list[j] != list[k] {
            assert list[j].number != i;
          }
          RemoveAt(list, k);
          DeleteMe(list[k]);
          return;
        }
        k := k + 1;
      }
    }

    /** `enable(i, flag)`: set the flag of the first entry numbered `i`. */
    method Enable(i: int, flag: bool)
      requires Valid()
      modifies this
      ensures list == EnableSpec(old(list), i, flag) && next == old(next)
      ensures Valid()
    {
      EnableValid(State(), i, flag);
      var k := 0;
      while k < |list|
        invariant 0 <= k <= |list|
        invariant forall j :: 0 <= j < k ==> list[j].number != i
      {
        if list[k].number == i {
          list := list[k := list[k].(enabled := flag)];
          return;
        }
        k := k + 1;
      }
    }

    /** `deleteAll()` as written: the `return` inside the loop stops it
        after the first entry, so a list of two or more is never emptied. */
    method DeleteAllAsWritten()
      modifies this
      ensures old(list) == [] ==> list == []
      ensures old(list) != [] ==> list == old(list)[1..]
      ensures |old(list)| >= 2 ==> list != []
      ensures next == old(next)
    {
      if list != [] {
        RemoveAt(list, 0);
        DeleteMe(list[0]);
      }
    }

    /** `deleteAll()` as its docstring describes it: every entry goes. */
    method DeleteAll()
      requires Valid()
      modifies this
      ensures list == [] && next == old(next)
      ensures Valid()
    {
      while list != []
        invariant next == old(next)
        decreases |list|
      {
        RemoveAt(list, 0);
        DeleteMe(list[0]);
      }
    }
  }
}
