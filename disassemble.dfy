/** The bytecode walker `disassemble_string` of pydb/disassemble.py.

    The opcode tables of Python's `opcode` module (`opname`,
    `HAVE_ARGUMENT`, `EXTENDED_ARG`, `hasconst`, ...) are a `Tables`
    value; what `findlabels` and `findlinestarts` compute is passed in.
    Output is the sequence of `msg_nocr`/`msg` calls that reach the
    debugger object: while output is switched off they go to a function
    that drops them and do not appear. */
module Disassemble {
  import opened Wrappers
  import opened PyStr

  type Byte = x: int | 0 <= x < 256

  /** The opcode tables. */
  datatype Tables = Tables(
    haveArgument: int,
    extendedArg: int,
    opname: Byte -> string,
    hasconst: set<int>,
    hasname: set<int>,
    hasjrel: set<int>,
    haslocal: set<int>,
    hascompare: set<int>,
    hasfree: set<int>,
    cmpOp: seq<string>)

  /** The arguments of `disassemble_string`: the code string, `lasti`,
      `start_line`, `end_line` (`None` or 0 means no end), the `repr`s of
      the constants, the name tuples, the line starts and the jump
      targets. */
  datatype CodeInfo = CodeInfo(
    code: seq<Byte>,
    lasti: int,
    startLine: int,
    endLine: Option<int>,
    varnames: seq<string>,
    names: seq<string>,
    constReprs: seq<string>,
    cellvars: seq<string>,
    freevars: seq<string>,
    linestarts: map<int, int>,
    labels: set<int>)

  /** A call reaching the debugger object. */
  datatype Emit = Nocr(text: string) | Msg(text: string)

  /** The loop variables: the offset `i`, `extended_arg` (and whether it
      is a Python long, which `65536L` makes it), `cur_line`, whether
      `msg`/`msg_nocr` currently print, and the output so far. */
  datatype Walk = Walk(i: int, ext: int, extLong: bool, curLine: int, printing: bool, out: seq<Emit>)

  /** Whether the loop goes on, has hit `break`, or has raised. */
  datatype Status = Running | Done | Failed(e: PyError)

  /** `repr` of a non-negative integer; a long carries an `L`. */
  function Repr(n: int, long: bool): string {
    IntToString(n) + (if long then "L" else "")
  }

  function OnlyIf(printing: bool, es: seq<Emit>): seq<Emit> {
    if printing then es else []
  }

  /** The walk stops at a line start whose line lies past a (non-zero)
      `end_line`. */
  predicate StopsAt(c: CodeInfo, i: int) {
    i in c.linestarts && c.endLine.Some? && c.endLine.value != 0 && c.linestarts[i] > c.endLine.value
  }

  /** Output is on at a line start unless a (non-zero) `start_line` lies
      past the line. */
  predicate PrintsLine(c: CodeInfo, line: int) {
    !(c.startLine != 0 && c.startLine > line)
  }

  /** `code[i] + code[i+1]*256 + extended_arg` */
  function Oparg(c: CodeInfo, j: int, ext: int): int
    requires 0 <= j && j + 1 < |c.code|
  {
    c.code[j] + c.code[j + 1] * 256 + ext
  }

  /** The text in parentheses after the operand, if the opcode has one,
      with `IndexError` for an operand past the end of its table. `next` is
      the offset after the operand bytes. */
  function Annotation(op: Byte, oparg: int, long: bool, next: int, c: CodeInfo, t: Tables): (r: Result<Option<string>>)
    ensures r.Ok? && r.value.Some? ==> r.value.value != [] && r.value.value[0] == '('
  {
    if op in t.hasconst then
      if 0 <= oparg < |c.constReprs| then Ok(Some("(" + c.constReprs[oparg] + ")")) else Err(IndexError)
    else if op in t.hasname then
      if 0 <= oparg < |c.names| then Ok(Some("(" + c.names[oparg] + ")")) else Err(IndexError)
    else if op in t.hasjrel then
      Ok(Some("(to " + Repr(next + oparg, long) + ")"))
    else if op in t.haslocal then
      if 0 <= oparg < |c.varnames| then Ok(Some("(" + c.varnames[oparg] + ")")) else Err(IndexError)
    else if op in t.hascompare then
      if 0 <= oparg < |t.cmpOp| then Ok(Some("(" + t.cmpOp[oparg] + ")")) else Err(IndexError)
    else if op in t.hasfree then
      var free := c.cellvars + c.freevars;
      if 0 <= oparg < |free| then Ok(Some("(" + free[oparg] + ")")) else Err(IndexError)
    else Ok(None)
  }

  /** The five columns every instruction starts with: line number (or
      blanks), the `-->` marker, the `>>` marker, the offset and the
      opcode name. */
  function Columns(atStart: bool, line: int, w: Walk, op: Byte, c: CodeInfo, t: Tables): seq<Emit> {
    [Nocr(if atStart then RJust(IntToString(line), 3) else "   "),
     Nocr(if w.i == c.lasti then "-->" else "   "),
     Nocr(if w.i in c.labels then ">>" else "  "),
     Nocr(RJust(IntToString(w.i), 4)),
     Nocr(LJust(t.opname(op), 20))]
  }

  /** What the rest of a pass does after the five columns: the new
      offset and `extended_arg`, what it prints, and how it ends. */
  datatype Advance = Advance(i: int, ext: int, extLong: bool, tail: seq<Emit>, status: Status)

  /** The operand part of a pass: nothing more than the line end for an
      opcode below `HAVE_ARGUMENT`; otherwise the operand, its
      annotation and the line end. Fetching operand bytes past the end of
      the code, or a table entry past the end of its table, raises. */
  function Operand(w: Walk, c: CodeInfo, t: Tables): (a: Advance)
    requires 0 <= w.i < |c.code|
    ensures a.status != Done
    ensures a.status.Running? ==> a.i == w.i + (if c.code[w.i] >= t.haveArgument then 3 else 1)
    ensures forall k :: 0 <= k < |a.tail| ==>
      a.tail[k].Msg? || |a.tail[k].text| >= 5 || (a.tail[k].text != [] && a.tail[k].text[0] == '(')
  {
    var op := c.code[w.i];
    var j := w.i + 1;
    if op < t.haveArgument then Advance(j, w.ext, w.extLong, [Msg("")], Running)
    else if j + 1 >= |c.code| then Advance(j, w.ext, w.extLong, [], Failed(IndexError))
    else
      var oparg := Oparg(c, j, w.ext);
      var ext := if op == t.extendedArg then oparg * 65536 else 0;
      var opText := Nocr(RJust(Repr(oparg, w.extLong), 5));
      match Annotation(op, oparg, w.extLong, j + 2, c, t)
      case Err(e) => Advance(j + 2, ext, op == t.extendedArg, [opText], Failed(e))
      case Ok(a) =>
        var note := if a.Some? then [Nocr(a.value)] else [];
        Advance(j + 2, ext, op == t.extendedArg, [opText] + note + [Msg("")], Running)
  }

  /** The blank line a line start prints after a previous instruction. */
  function Blank(w: Walk, c: CodeInfo): seq<Emit> {
    if w.i in c.linestarts && w.i > 0 && w.printing then [Msg("")] else []
  }

  /** `cur_line` after a pass has looked at its offset. */
  function LineAfter(w: Walk, c: CodeInfo): int {
    if w.i in c.linestarts then c.linestarts[w.i] else w.curLine
  }

  /** Whether `msg`/`msg_nocr` print after a pass has looked at its
      offset. */
  function PrintingAfter(w: Walk, c: CodeInfo): bool {
    if w.i in c.linestarts then PrintsLine(c, c.linestarts[w.i]) else w.printing
  }

  /** What one pass prints: the blank line before a new source line, and,
      unless the walk stops here, the columns and the operand part while
      output is on. */
  function Emitted(w: Walk, c: CodeInfo, t: Tables): seq<Emit>
    requires 0 <= w.i < |c.code|
  {
    if StopsAt(c, w.i) then Blank(w, c)
    else
      Blank(w, c) + OnlyIf(PrintingAfter(w, c),
        Columns(w.i in c.linestarts, LineAfter(w, c), w, c.code[w.i], c, t) + Operand(w, c, t).tail)
  }

  /** One pass of the `while i < n` loop. */
  function Step(w: Walk, c: CodeInfo, t: Tables): (r: (Walk, Status))
    requires 0 <= w.i < |c.code|
    ensures r.1.Running? ==> r.0.i == w.i + (if c.code[w.i] >= t.haveArgument then 3 else 1)
    ensures r.1 == Done <==> StopsAt(c, w.i)
    ensures w.i in c.linestarts ==> r.0.curLine == c.linestarts[w.i] && r.0.printing == PrintsLine(c, c.linestarts[w.i])
    ensures w.i !in c.linestarts ==> r.0.printing == w.printing && r.0.curLine == w.curLine
    ensures r.0.out == w.out + Emitted(w, c, t)
  {
    var out := w.out + Emitted(w, c, t);
    if StopsAt(c, w.i) then
      (w.(curLine := LineAfter(w, c), printing := PrintingAfter(w, c), out := out), Done)
    else
      var a := Operand(w, c, t);
      (Walk(a.i, a.ext, a.extLong, LineAfter(w, c), PrintingAfter(w, c), out), a.status)
  }

  /** The whole walk from a given state: the output and the exception
      that ended it, if any. */
  function Run(w: Walk, c: CodeInfo, t: Tables): (r: (seq<Emit>, Option<PyError>))
    requires 0 <= w.i
    ensures |w.out| <= |r.0| && r.0[..|w.out|] == w.out
    decreases |c.code| - w.i
  {
    if w.i >= |c.code| then (w.out, None)
    else
      var (w', st) := Step(w, c, t);
      match st
      case Done => (w'.out, None)
      case Failed(e) => (w'.out, Some(e))
      case Running =>
        var r := Run(w', c, t);
        assert r.0[..|w.out|] == r.0[..|w'.out|][..|w.out|];
        r
  }

  /** The state before the loop: output is off when `start_line` lies past
      the first line. */
  function Init(c: CodeInfo, curLine: int): Walk {
    Walk(0, 0, false, curLine, !(c.startLine > curLine), [])
  }

  /** A line-number column is never the `-->` or the `>>` marker. */
  lemma LineColumnNotMarker(line: int)
    ensures RJust(IntToString(line), 3) != "-->" && RJust(IntToString(line), 3) != ">>"
  {
    var s := IntToString(line);
    var r := RJust(s, 3);
    IntToStringChars(line);
    assert r[|r| - |s|..] == s;
    assert r[|r| - 1] == s[|s| - 1];
  }

  /** While output is on and the walk does not stop there, a pass prints
      the `-->` column second and the `>>` column third after its blank
      line. */
  lemma MarkerColumns(w: Walk, c: CodeInfo, t: Tables)
    requires 0 <= w.i < |c.code| && !StopsAt(c, w.i) && PrintingAfter(w, c)
    ensures |Emitted(w, c, t)| >= |Blank(w, c)| + 5
    ensures Emitted(w, c, t)[|Blank(w, c)| + 1] == Nocr(if w.i == c.lasti then "-->" else "   ")
    ensures Emitted(w, c, t)[|Blank(w, c)| + 2] == Nocr(if w.i in c.labels then ">>" else "  ")
  {
    var e := Emitted(w, c, t);
    var blank := Blank(w, c);
    var head := Columns(w.i in c.linestarts, LineAfter(w, c), w, c.code[w.i], c, t);
    EmittedParts(w, c, t);
    assert e[|blank| + 1] == head[1];
    assert e[|blank| + 2] == head[2];
  }

  /** While output is on and the walk does not stop there, a pass prints
      its blank line, the five columns and the operand part. */
  lemma EmittedParts(w: Walk, c: CodeInfo, t: Tables)
    requires 0 <= w.i < |c.code| && !StopsAt(c, w.i) && PrintingAfter(w, c)
    ensures Emitted(w, c, t) ==
      Blank(w, c) + Columns(w.i in c.linestarts, LineAfter(w, c), w, c.code[w.i], c, t) + Operand(w, c, t).tail
  {
  }

  /** The line-number, offset and opcode-name columns are never markers. */
  lemma ColumnNotMarker(atStart: bool, line: int, w: Walk, op: Byte, c: CodeInfo, t: Tables, j: int)
    requires 0 <= j < 5 && j != 1 && j != 2
    ensures Columns(atStart, line, w, op, c, t)[j] != Nocr("-->")
    ensures Columns(atStart, line, w, op, c, t)[j] != Nocr(">>")
  {
    var head := Columns(atStart, line, w, op, c, t);
    if j == 0 {
      LineColumnNotMarker(line);
    } else if j == 3 {
      assert |head[3].text| >= 4;
    } else {
      assert |head[4].text| >= 20;
    }
  }

  /** No other position of a pass's output is a marker. */
  lemma NoStrayMarker(w: Walk, c: CodeInfo, t: Tables, k: int)
    requires 0 <= w.i < |c.code|
    requires 0 <= k < |Emitted(w, c, t)| && k != |Blank(w, c)| + 1 && k != |Blank(w, c)| + 2
    ensures Emitted(w, c, t)[k] != Nocr("-->") && Emitted(w, c, t)[k] != Nocr(">>")
  {
    var e := Emitted(w, c, t);
    var blank := Blank(w, c);
    if StopsAt(c, w.i) || !PrintingAfter(w, c) {
      assert e == blank;
    } else {
      EmittedParts(w, c, t);
      var head := Columns(w.i in c.linestarts, LineAfter(w, c), w, c.code[w.i], c, t);
      var tail := Operand(w, c, t).tail;
      var j := k - |blank|;
      if j < 0 {
        assert e[k] == blank[k];
      } else if j >= 5 {
        assert e[k] == tail[j - 5];
      } else {
        ColumnNotMarker(w.i in c.linestarts, LineAfter(w, c), w, c.code[w.i], c, t, j);
        assert e[k] == head[j];
      }
    }
  }

  /** `-->` is printed exactly for the instruction at `lasti`, and `>>`
      exactly for those at a jump target, when output is on. */
  lemma MarkersExact(w: Walk, c: CodeInfo, t: Tables)
    requires 0 <= w.i < |c.code|
    ensures Nocr("-->") in Emitted(w, c, t) <==>
      (!StopsAt(c, w.i) && Step(w, c, t).0.printing && w.i == c.lasti)
    ensures Nocr(">>") in Emitted(w, c, t) <==>
      (!StopsAt(c, w.i) && Step(w, c, t).0.printing && w.i in c.labels)
  {
    var e := Emitted(w, c, t);
    var b := |Blank(w, c)|;
    if !StopsAt(c, w.i) && PrintingAfter(w, c) {
      MarkerColumns(w, c, t);
      if Nocr("-->") in e {
        var k :| 0 <= k < |e| && e[k] == Nocr("-->");
        if k != b + 1 && k != b + 2 {
          NoStrayMarker(w, c, t, k);
        }
      }
      if Nocr(">>") in e {
        var k :| 0 <= k < |e| && e[k] == Nocr(">>");
        if k != b + 1 && k != b + 2 {
          NoStrayMarker(w, c, t, k);
        }
      }
    } else {
      assert e == Blank(w, c);
    }
  }

  /** An argument instruction: the operand is the two bytes after the
      opcode, little-endian, plus `extended_arg`; afterwards
      `extended_arg` is `oparg * 65536` after `EXTENDED_ARG` and 0 after
      any other opcode, and the operand is printed when output is on. */
  lemma ArgumentInstruction(w: Walk, c: CodeInfo, t: Tables)
    requires 0 <= w.i && w.i + 2 < |c.code|
    requires c.code[w.i] >= t.haveArgument && !StopsAt(c, w.i)
    ensures var (w', _) := Step(w, c, t);
      var oparg := c.code[w.i + 1] + 256 * c.code[w.i + 2] + w.ext;
      w'.i == w.i + 3
      && w'.ext == (if c.code[w.i] == t.extendedArg then oparg * 65536 else 0)
      && w'.extLong == (c.code[w.i] == t.extendedArg)
      && (w'.printing ==> Nocr(RJust(Repr(oparg, w.extLong), 5)) in Emitted(w, c, t))
  {
    var e := Emitted(w, c, t);
    if Step(w, c, t).0.printing {
      var tail := Operand(w, c, t).tail;
      assert tail[0] == Nocr(RJust(Repr(Oparg(c, w.i + 1, w.ext), w.extLong), 5));
      assert e[|Blank(w, c)| + 5] == tail[0];
    }
  }

  /** A relative jump names its target: the offset after the operand
      bytes plus the operand. */
  lemma RelativeJumpTarget(w: Walk, c: CodeInfo, t: Tables)
    requires 0 <= w.i && w.i + 2 < |c.code|
    requires c.code[w.i] >= t.haveArgument && !StopsAt(c, w.i)
    requires c.code[w.i] in t.hasjrel && c.code[w.i] !in t.hasconst && c.code[w.i] !in t.hasname
    requires Step(w, c, t).0.printing
    ensures Nocr("(to " + Repr(w.i + 3 + Oparg(c, w.i + 1, w.ext), w.extLong) + ")") in Emitted(w, c, t)
    ensures Step(w, c, t).1 == Running
  {
    var e := Emitted(w, c, t);
    var tail := Operand(w, c, t).tail;
    assert tail[1] == Nocr("(to " + Repr(w.i + 3 + Oparg(c, w.i + 1, w.ext), w.extLong) + ")");
    assert e[|Blank(w, c)| + 6] == tail[1];
  }

  /** Between line starts, output that is off stays off: a pass adds
      nothing. */
  lemma SilentStep(w: Walk, c: CodeInfo, t: Tables)
    requires 0 <= w.i < |c.code|
    requires w.i !in c.linestarts && !w.printing
    ensures Emitted(w, c, t) == []
  {
  }

  /** The walk ends, without raising, at the first line start whose line
      lies past `end_line`; only the blank line before it is printed. */
  lemma RunStopsAtEnd(w: Walk, c: CodeInfo, t: Tables)
    requires 0 <= w.i < |c.code| && StopsAt(c, w.i)
    ensures Run(w, c, t) == (w.out + Blank(w, c), None)
  {
  }

  /** `disassemble_string(obj, code, lasti, cur_line, start_line,
      end_line, ...)`. */
  method DisassembleString(c: CodeInfo, t: Tables, curLine: int) returns (out: seq<Emit>, err: Option<PyError>)
    ensures (out, err) == Run(Init(c, curLine), c, t)
  {
    var w := Init(c, curLine);
    while w.i < |c.code|
      invariant 0 <= w.i
      invariant Run(w, c, t) == Run(Init(c, curLine), c, t)
      decreases |c.code| - w.i
    {
      var (next, status) := Step(w, c, t);
      if status.Done? {
        return next.out, None;
      }
      if status.Failed? {
        return next.out, Some(status.e);
      }
      w := next;
    }
    return w.out, None;
  }
}
