/** Helper functions of the debugger (pydb/fns.py): `checkline`,
    `printf` (shared with the display nodes), `show_onoff`,
    `get_exec_string`, `get_confirmation` and `print_stack_trace`.

    Reading lines from files, reading replies from the terminal, walking
    the stack and the `c`/`x`/`o`/`f` conversions are parameters. */
module Fns {
  import opened Wrappers
  import opened PyStr

  // ---------------------------------------------------------------------
  // Values
  // ---------------------------------------------------------------------

  /** A Python value as far as the helpers look at it: an integer, a bool
      (which Python treats as the integer 1 or 0 in arithmetic and
      comparisons, but prints as `True` or `False`), or anything else, known
      by its `str()` and truthiness. */
  datatype Value = IntVal(i: int) | BoolVal(b: bool) | OtherVal(text: string, truthy: bool)

  /** The integer a bool or an integer stands for in arithmetic. */
  function AsInt(v: Value): int
    requires !v.OtherVal?
  {
    match v
    case IntVal(i) => i
    case BoolVal(b) => if b then 1 else 0
  }

  /** `str(val)` */
  function Str(v: Value): string {
    match v
    case IntVal(i) => IntToString(i)
    case BoolVal(b) => if b then "True" else "False"
    case OtherVal(text, _) => text
  }

  // ---------------------------------------------------------------------
  // checkline
  // ---------------------------------------------------------------------

  /** `line[:3] == q` for a three-character `q`. */
  predicate Starts3(line: string, q: string) {
    |line| >= 3 && line[..3] == q
  }

  /** `checkline`: `line` is what `linecache.getline` gave for `lineno`
      (empty past the end of the file). The result is `lineno`, or 0 with
      the complaint that is reported. */
  function CheckLine(line: string, lineno: int): (r: (int, Option<string>))
    ensures r.0 == 0 || r.0 == lineno
    ensures line == "" ==> r == (0, Some("End of file"))
    ensures line != "" ==>
      (r.1.None? <==>
        Strip(line) != "" && Strip(line)[0] != '#'
        && !Starts3(Strip(line), "\"\"\"") && !Starts3(Strip(line), "'''"))
    ensures r.1.None? ==> r.0 == lineno
    ensures r.1.Some? ==> r.0 == 0
  {
    if line == "" then (0, Some("End of file"))
    else
      var s := Strip(line);
      if s == "" || s[0] == '#' || Starts3(s, "\"\"\"") || Starts3(s, "'''") then (0, Some("Blank or comment"))
      else (lineno, None)
  }

  // ---------------------------------------------------------------------
  // printf
  // ---------------------------------------------------------------------

  /** `twos[d]`: four binary digits, most significant first. */
  function Nibble(d: nat): (s: string)
    requires d < 16
    ensures |s| == 4 && forall i :: 0 <= i < 4 ==> s[i] == '0' || s[i] == '1'
  {
    [if d >= 8 then '1' else '0', if d % 8 >= 4 then '1' else '0',
     if d % 4 >= 2 then '1' else '0', if d % 2 == 1 then '1' else '0']
  }

  /** What the `t` loop builds from a non-negative value: its 4-bit groups,
      most significant first. */
  function Twos(v: nat): string {
    if v == 0 then "" else Twos(v / 16) + Nibble(v % 16)
  }

  /** A string of binary digits read back as a number. */
  function BinaryValue(s: string): nat {
    if s == [] then 0 else 2 * BinaryValue(s[..|s| - 1]) + (if s[|s| - 1] == '1' then 1 else 0)
  }

  lemma {:induction false} BinaryValueAppend(a: string, b: string)
    ensures BinaryValue(a + b) == BinaryValue(a) * Pow2(|b|) + BinaryValue(b)
    decreases |b|
  {
    if b == [] {
      assert a + b == a;
    } else {
      var ab := a + b;
      var b' := b[..|b| - 1];
      var bit := if b[|b| - 1] == '1' then 1 else 0;
      assert ab[..|ab| - 1] == a + b';
      assert ab[|ab| - 1] == b[|b| - 1];
      assert BinaryValue(ab) == 2 * BinaryValue(a + b') + bit;
      assert BinaryValue(b) == 2 * BinaryValue(b') + bit;
      BinaryValueAppend(a, b');
      Shift(BinaryValue(a), Pow2(|b'|), BinaryValue(b'), bit);
    }
  }

  lemma Shift(x: nat, p: nat, y: nat, bit: nat)
    ensures 2 * (x * p + y) + bit == x * (2 * p) + (2 * y + bit)
  {
  }

  function Pow2(n: nat): nat {
    if n == 0 then 1 else 2 * Pow2(n - 1)
  }

  function Bit(c: char): nat {
    if c == '1' then 1 else 0
  }

  lemma BinaryValue4(s: string)
    requires |s| == 4
    ensures BinaryValue(s) == 8 * Bit(s[0]) + 4 * Bit(s[1]) + 2 * Bit(s[2]) + Bit(s[3])
  {
    var s1, s2, s3 := s[..1], s[..2], s[..3];
    assert s1[..0] == [] && s1[0] == s[0];
    assert BinaryValue(s1) == Bit(s[0]);
    assert s2[..1] == s1 && s2[1] == s[1];
    assert BinaryValue(s2) == 2 * Bit(s[0]) + Bit(s[1]);
    assert s3[..2] == s2 && s3[2] == s[2];
    assert BinaryValue(s3) == 4 * Bit(s[0]) + 2 * Bit(s[1]) + Bit(s[2]);
    assert s[..3] == s3;
  }

  lemma NibbleValue(d: nat)
    requires d < 16
    ensures BinaryValue(Nibble(d)) == d
  {
    BinaryValue4(Nibble(d));
  }

  /** The `t` output is a whole number of 4-bit groups, empty exactly for
      0, never starts with a zero group, and reads back as the value. */
  lemma TwosProperties(v: nat)
    ensures |Twos(v)| % 4 == 0
    ensures Twos(v) == "" <==> v == 0
    ensures v > 0 ==> Twos(v)[..4] != "0000"
    ensures BinaryValue(Twos(v)) == v
  {
    TwosShape(v);
    TwosValue(v);
    if v > 0 {
      TwosLeading(v);
    }
  }

  lemma {:induction false} TwosShape(v: nat)
    ensures |Twos(v)| % 4 == 0 && (Twos(v) == "" <==> v == 0)
  {
    if v > 0 {
      TwosShape(v / 16);
    }
  }

  lemma {:induction false} TwosValue(v: nat)
    ensures BinaryValue(Twos(v)) == v
  {
    if v > 0 {
      TwosValue(v / 16);
      NibbleValue(v % 16);
      BinaryValueAppend(Twos(v / 16), Nibble(v % 16));
      assert Pow2(4) == 16;
    }
  }

  lemma {:induction false} TwosLeading(v: nat)
    requires v > 0
    ensures |Twos(v)| >= 4 && Twos(v)[..4] != "0000"
  {
    if v / 16 == 0 {
      assert Twos(v) == Nibble(v % 16);
      NibbleValue(v % 16);
      BinaryValue4("0000");
    } else {
      TwosLeading(v / 16);
      assert Twos(v)[..4] == Twos(v / 16)[..4];
    }
  }

  /** What a `printf` call gives: a string, an exception it lets through, or
      no answer because the `t` loop never ends (Python's `>>` floors, so a
      negative value never reaches 0). */
  datatype Printed = Text(s: string) | Raises(e: PyError) | Diverges

  /** The letters of `pconvert`. */
  predicate IsConversion(f: char) {
    f == 'c' || f == 'x' || f == 'o' || f == 'f' || f == 's'
  }

  /** The format letter `printf` acts on: an empty format counts as `" "`,
      a leading `/` is skipped, and `"/"` alone has no letter. */
  function FormatLetter(fmt: string): Option<char> {
    var f := if fmt == "" then " " else fmt;
    var g := if f[0] == '/' then f[1..] else f;
    if g == "" then None else Some(g[0])
  }

  /** `printf(val, fmt)`: `convert` stands for `chr`, `hex`, `oct` and
      `float` (`None` when they raise, and then `str(val)` is used). */
  function PrintfSpec(val: Value, fmt: string, convert: (char, Value) -> Option<string>): (p: Printed)
    ensures fmt == "" ==> p == Text(Str(val))
    ensures fmt == "/" ==> p == Raises(IndexError)
    ensures p == Diverges <==> FormatLetter(fmt) == Some('t') && val.IntVal? && val.i < 0
    ensures FormatLetter(fmt) == Some('t') && val.IntVal? && val.i >= 0 ==> p == Text(Twos(val.i))
    ensures FormatLetter(fmt) == Some('t') && val.BoolVal? ==> p == Text(if val.b then "0001" else "")
    ensures FormatLetter(fmt).Some? && !IsConversion(FormatLetter(fmt).value) && FormatLetter(fmt).value != 't'
      ==> p == Text(Str(val))
  {
    var letter := FormatLetter(fmt);
    if letter.None? then Raises(IndexError)
    else
      var f := letter.value;
      if IsConversion(f) then
        if f == 's' then Text(Str(val))
        else
          var c := convert(f, val);
          if c.Some? then Text(c.value) else Text(Str(val))
      else if f == 't' then
        match val
        case IntVal(i) => if i < 0 then Diverges else Text(Twos(i))
        case BoolVal(b) =>
          assert Twos(1) == "" + Nibble(1) == "0001";
          Text(Twos(AsInt(val)))
        case OtherVal(text, truthy) => if truthy then Text(text) else Text("")
      else Text(Str(val))
  }

  /** A leading `/` makes no difference. */
  lemma PrintfSlash(val: Value, fmt: string, convert: (char, Value) -> Option<string>)
    requires fmt != "" && fmt[0] != '/'
    ensures PrintfSpec(val, "/" + fmt, convert) == PrintfSpec(val, fmt, convert)
  {
    assert ("/" + fmt)[1..] == fmt;
  }

  /** `printf`, with its `while val` loop for the `t` format. */
  method Printf(val: Value, fmt: string, convert: (char, Value) -> Option<string>) returns (p: Printed)
    ensures p == PrintfSpec(val, fmt, convert)
  {
    var f := fmt;
    if f == "" {
      f := " ";
    }
    if f[0] == '/' {
      f := f[1..];
    }
    if f == "" {
      return Raises(IndexError);
    }
    var letter := f[0];
    assert FormatLetter(fmt) == Some(letter);
    if IsConversion(letter) {
      if letter == 's' {
        return Text(Str(val));
      }
      var c := convert(letter, val);
      return if c.Some? then Text(c.value) else Text(Str(val));
    }
    if letter == 't' {
      if val.OtherVal? {
        return if val.truthy then Text(val.text) else Text("");
      }
      var n := AsInt(val);
      if n < 0 {
        return Diverges;
      }
      var res := TwosLoop(n);
      return Text(res);
    }
    return Text(Str(val));
  }

  /** The `while val` loop of `printf`'s `t` format on a non-negative
      value: it builds `Twos`. */
  method TwosLoop(n: nat) returns (res: string)
    ensures res == Twos(n)
  {
    res := "";
    var v: nat := n;
    while v != 0
      invariant Twos(v) + res == Twos(n)
      decreases v
    {
      res := Nibble(v % 16) + res;
      v := v / 16;
    }
  }

  // ---------------------------------------------------------------------
  // show_onoff
  // ---------------------------------------------------------------------

  /** `show_onoff`: a value equal to `True` (the integer 1 is) is "on",
      one equal to `False` (the integer 0 is) "off", anything else "??". */
  function ShowOnOff(v: Value): (r: string)
    ensures r == "on" <==> v == IntVal(1) || v == BoolVal(true)
    ensures r == "off" <==> v == IntVal(0) || v == BoolVal(false)
    ensures r == "??" <==> v.OtherVal? || (v.IntVal? && v.i != 0 && v.i != 1)
  {
    if !v.OtherVal? && AsInt(v) == 1 then "on"
    else if !v.OtherVal? && AsInt(v) == 0 then "off"
    else "??"
  }

  // ---------------------------------------------------------------------
  // get_exec_string
  // ---------------------------------------------------------------------

  /** The regular expression `(^|\s+)exec\s+` matches with `exec` at `j`. */
  predicate ExecAt(text: string, j: int) {
    OccursAt(text, "exec", j) && (j == 0 || IsSpace(text[j - 1])) && j + 4 < |text| && IsSpace(text[j + 4])
  }

  /** The first `j >= from` where `ExecAt` holds. */
  function FindExec(text: string, from: nat): (r: Option<nat>)
    requires from <= |text|
    ensures r.Some? ==> from <= r.value && ExecAt(text, r.value)
    ensures forall j :: from <= j && (r.None? || j < r.value) ==> !ExecAt(text, j)
    decreases |text| - from
  {
    if from == |text| then None
    else if ExecAt(text, from) then Some(from)
    else FindExec(text, from + 1)
  }

  /** The part of `s` before its first line break (`.` stops there). */
  function UpToNewline(s: string): (r: string)
    ensures StartsWith(s, r) && '\n' !in r
    ensures |r| < |s| ==> s[|r|] == '\n'
  {
    if s == [] || s[0] == '\n' then [] else [s[0]] + UpToNewline(s[1..])
  }

  /** Group 2 of the match, if `text` holds an `exec` statement: what
      follows the blanks after the first `exec`, up to the end of the
      line. */
  function ExecArg(text: string): (r: Option<string>)
    ensures r.Some? <==> exists j :: 0 <= j < |text| && ExecAt(text, j)
  {
    var j := FindExec(text, 0);
    if j.None? then None else Some(UpToNewline(text[SkipSpace(text, j.value + 4)..]))
  }

  /** `exec_arg[0:max]` with Python's slice rules. */
  function PyPrefix(s: string, max: nat): (r: string)
    ensures StartsWith(s, r)
    ensures |r| == if max <= |s| then max else |s|
  {
    s[..if max < |s| then max else |s|]
  }

  predicate IsQuote(c: char) {
    c == '"' || c == '\''
  }

  /** `get_exec_string` as written: a long argument that starts with a
      quote reaches no `return` and gives `None`. */
  function GetExecStringAsWritten(hasFrame: bool, text: string, max: nat): (r: Option<string>)
  {
    if !hasFrame then None
    else
      var arg := ExecArg(text);
      if arg.None? then None
      else if |arg.value| > max then
        if IsQuote(arg.value[0]) then None
        else Some(PyPrefix(arg.value, max) + "...")
      else Some(arg.value)
  }

  /** `get_exec_string` as its documentation describes it: the first `max`
      characters with `...` and the closing quote mark when the argument
      was quoted. `hasFrame` is false for a missing frame and `text` is the
      source text of the frame's current line. */
  function GetExecString(hasFrame: bool, text: string, max: nat): (r: Option<string>)
    ensures r.Some? <==> hasFrame && ExecArg(text).Some?
    ensures r.Some? && |ExecArg(text).value| <= max ==> r.value == ExecArg(text).value
    ensures r.Some? && |ExecArg(text).value| > max ==>
      var arg := ExecArg(text).value;
      && StartsWith(r.value, PyPrefix(arg, max) + "...")
      && r.value == PyPrefix(arg, max) + "..." + (if IsQuote(arg[0]) then [arg[0]] else "")
  {
    if !hasFrame then None
    else
      var arg := ExecArg(text);
      if arg.None? then None
      else if |arg.value| > max then
        var quote := if IsQuote(arg.value[0]) then [arg.value[0]] else "";
        Some(PyPrefix(arg.value, max) + "..." + quote)
      else Some(arg.value)
  }

  /** The two agree except on long quoted arguments, where the code as
      written loses the string. */
  lemma GetExecStringDiscrepancy(hasFrame: bool, text: string, max: nat)
    ensures GetExecStringAsWritten(hasFrame, text, max) != GetExecString(hasFrame, text, max) <==>
      hasFrame && ExecArg(text).Some? && |ExecArg(text).value| > max && IsQuote(ExecArg(text).value[0])
  {
    if hasFrame && ExecArg(text).Some? {
      var arg := ExecArg(text).value;
      var cut := PyPrefix(arg, max) + "...";
      assert cut + "" == cut;
    }
  }

  /** `exec "abc"` with `max` 2: nothing as written, the shortened string
      with its closing quote as intended. */
  lemma GetExecStringQuotedExample()
    ensures GetExecStringAsWritten(true, "exec \"abc\"", 2) == None
    ensures GetExecString(true, "exec \"abc\"", 2) == Some("\"a...\"")
  {
    QuotedExampleAsWritten();
    QuotedExampleIntended();
  }

  lemma QuotedExampleAsWritten()
    ensures GetExecStringAsWritten(true, "exec \"abc\"", 2) == None
  {
    ExecArgExample();
    LongQuoted("exec \"abc\"", "\"abc\"", 2);
  }

  lemma QuotedExampleIntended()
    ensures GetExecString(true, "exec \"abc\"", 2) == Some("\"a...\"")
  {
    var arg := "\"abc\"";
    ExecArgExample();
    LongQuoted("exec \"abc\"", arg, 2);
    CutExample();
  }

  lemma CutExample()
    ensures "\"abc\""[..2] + "..." + ["\"abc\""[0]] == "\"a...\""
  {
    var arg := "\"abc\"";
    assert arg[..2] == "\"a";
  }

  /** Both readings of a long quoted argument. */
  lemma LongQuoted(text: string, arg: string, max: nat)
    requires ExecArg(text) == Some(arg) && |arg| > max && IsQuote(arg[0])
    ensures GetExecStringAsWritten(true, text, max) == None
    ensures GetExecString(true, text, max) == Some(arg[..max] + "..." + [arg[0]])
  {
  }

  lemma ExecArgExample()
    ensures ExecArg("exec \"abc\"") == Some("\"abc\"")
  {
    var text := "exec \"abc\"";
    assert ExecAt(text, 0) by { assert text[0..4] == "exec"; }
    assert FindExec(text, 0) == Some(0);
    assert SkipSpace(text, 4) == 5;
    var arg := text[5..];
    assert arg == "\"abc\"";
    assert UpToNewline(arg) == arg;
  }

  // ---------------------------------------------------------------------
  // get_confirmation
  // ---------------------------------------------------------------------

  function LowerChar(c: char): char {
    if 'A' <= c <= 'Z' then (c as int + 32) as char else c
  }

  /** ASCII `lower()` */
  function Lower(s: string): (r: string)
    ensures |r| == |s|
  {
    seq(|s|, i requires 0 <= i < |s| => LowerChar(s[i]))
  }

  /** The decision a reply gives once read: "y" or "yes" is yes, "n" or
      "no" is no, anything else asks again. */
  function Decide(r: string): Option<bool> {
    if r == "y" || r == "yes" then Some(true)
    else if r == "n" || r == "no" then Some(false)
    else None
  }

  /** What one reply decides as written: `None` stands for end of input,
      which reads as "no"; any other reply is taken exactly as typed. */
  function ReplyAsWritten(reply: Option<string>): Option<bool> {
    Decide(if reply.None? then "no" else reply.value)
  }

  /** What one reply decides as evidently intended: stripped and
      lower-cased first. */
  function Reply(reply: Option<string>): Option<bool> {
    Decide(if reply.None? then "no" else Lower(Strip(reply.value)))
  }

  /** End of input answers no; the four plain words answer as they say. */
  lemma ReplyWords(reply: Option<string>)
    ensures reply.None? ==> Reply(reply) == Some(false)
    ensures reply.Some? && (reply.value == "y" || reply.value == "yes") ==> Reply(reply) == Some(true)
    ensures reply.Some? && (reply.value == "n" || reply.value == "no") ==> Reply(reply) == Some(false)
  {
    if reply.Some? {
      StripPlainWord(reply.value);
    }
  }

  lemma StripPlainWord(s: string)
    ensures (s == "y" || s == "yes" || s == "n" || s == "no") ==> Lower(Strip(s)) == s
  {
    if s == "y" || s == "yes" || s == "n" || s == "no" {
      PlainWord(s);
    }
  }

  /** A word of lower-case letters is its own stripped, lower-cased form. */
  lemma PlainWord(s: string)
    requires s != [] && forall i :: 0 <= i < |s| ==> 'a' <= s[i] <= 'z'
    ensures Lower(Strip(s)) == s
  {
    StripTrimmed(s);
    forall i | 0 <= i < |s| ensures Lower(s)[i] == s[i] {
      assert 'a' <= s[i] <= 'z';
    }
  }

  /** Every reply the code as written understands is understood the same
      way by the intended version, and "Y" is understood only by the
      intended version. */
  lemma ReplyDiscrepancy(reply: Option<string>)
    ensures ReplyAsWritten(reply).Some? ==> Reply(reply) == ReplyAsWritten(reply)
    ensures ReplyAsWritten(Some("Y")) == None && Reply(Some("Y")) == Some(true)
  {
    if reply.Some? {
      StripPlainWord(reply.value);
    }
    assert Strip("Y") == "Y";
    assert Lower("Y") == "y";
  }

  /** The answer after asking through `replies` (`None` when every reply
      was refused), with the number of refusals. */
  function Confirmation(replies: seq<Option<string>>): (Option<bool>, nat) {
    if replies == [] then (None, 0)
    else if Reply(replies[0]).Some? then (Reply(replies[0]), 0)
    else
      var (d, n) := Confirmation(replies[1..]);
      (d, n + 1)
  }

  /** The first decisive reply decides, and every reply before it was
      refused; with no decisive reply every reply was refused. */
  lemma {:induction false} ConfirmationFirstDecisive(replies: seq<Option<string>>)
    ensures var r := Confirmation(replies);
      && (r.0.Some? ==> r.1 < |replies| && Reply(replies[r.1]) == r.0)
      && (r.0.None? ==> r.1 == |replies|)
      && (forall k :: 0 <= k < r.1 ==> Reply(replies[k]).None?)
  {
    if replies != [] && Reply(replies[0]).None? {
      var tail := replies[1..];
      ConfirmationFirstDecisive(tail);
      var r := Confirmation(replies);
      forall k | 0 <= k < r.1 ensures Reply(replies[k]).None? {
        if k > 0 { assert replies[k] == tail[k - 1]; }
      }
    }
  }

  /** Refused replies only shift the answer's position. */
  lemma {:induction false} ConfirmationSkip(replies: seq<Option<string>>, c: nat)
    requires c <= |replies|
    requires forall k :: 0 <= k < c ==> Reply(replies[k]).None?
    ensures Confirmation(replies).0 == Confirmation(replies[c..]).0
    ensures Confirmation(replies).1 == Confirmation(replies[c..]).1 + c
  {
    if c > 0 {
      assert Reply(replies[0]).None?;
      assert replies[1..][c - 1..] == replies[c..];
      ConfirmationSkip(replies[1..], c - 1);
    }
  }

  /** `get_confirmation`: `false` at once when not interactive; otherwise
      ask until a reply decides, saying "Please answer y or n." after each
      one that does not. `replies` stands for what the terminal gives, in
      order; `None` as the answer means the replies ran out undecided. */
  method GetConfirmation(noninteractive: bool, replies: seq<Option<string>>) returns (answer: Option<bool>, complaints: nat)
    ensures noninteractive ==> answer == Some(false) && complaints == 0
    ensures !noninteractive ==> (answer, complaints) == Confirmation(replies)
  {
    if noninteractive {
      return Some(false), 0;
    }
    complaints := 0;
    while complaints < |replies|
      invariant 0 <= complaints <= |replies|
      invariant Confirmation(replies).0 == Confirmation(replies[complaints..]).0
      invariant Confirmation(replies).1 == Confirmation(replies[complaints..]).1 + complaints
    {
      var d := Reply(replies[complaints]);
      ConfirmationStep(replies, complaints);
      if d.Some? {
        return d, complaints;
      }
      complaints := complaints + 1;
    }
    assert replies[complaints..] == [];
    return None, complaints;
  }

  /** One question: a decisive reply ends the asking, a refused one moves
      on to the next reply. */
  lemma ConfirmationStep(replies: seq<Option<string>>, c: nat)
    requires c < |replies|
    ensures var d := Reply(replies[c]); var next := Confirmation(replies[c + 1..]);
      Confirmation(replies[c..]) == if d.Some? then (d, 0) else (next.0, next.1 + 1)
  {
    var rest := replies[c..];
    assert rest[0] == replies[c];
    assert rest[1..] == replies[c + 1..];
  }

  // ---------------------------------------------------------------------
  // print_stack_trace
  // ---------------------------------------------------------------------

  /** How many entries `print_stack_trace` shows: all of them without a
      count, otherwise `min(len(stack), count)` (nothing for a negative
      count). */
  function StackCount(stackLen: nat, count: Option<int>): (n: nat)
    ensures n <= stackLen
    ensures count.None? ==> n == stackLen
    ensures count.Some? && count.value >= 0 ==> n == if count.value < stackLen then count.value else stackLen
  {
    if count.None? then stackLen
    else if count.value < 0 then 0
    else if count.value < stackLen then count.value else stackLen
  }

  /** `print_stack_trace`: the positions shown, in order, from the top. */
  method PrintStackTrace(stackLen: nat, count: Option<int>) returns (shown: seq<nat>)
    ensures |shown| == StackCount(stackLen, count)
    ensures forall i :: 0 <= i < |shown| ==> shown[i] == i
  {
    var n := StackCount(stackLen, count);
    shown := [];
    var i := 0;
    while i < n
      invariant 0 <= i <= n && |shown| == i
      invariant forall k :: 0 <= k < i ==> shown[k] == k
    {
      shown := shown + [i];
      i := i + 1;
    }
  }
}
