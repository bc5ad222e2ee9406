/** The parts of Python's `str` behaviour that the debugger's command-line
    code relies on: whitespace stripping and splitting, `find`, `replace`,
    `' '.join`, decimal printing of integers and `int()` parsing, and the
    code-point order `sort()` uses on strings. */
module PyStr {
  import opened Wrappers

  /** The characters Python's `str.split()` and `str.strip()` treat as
      whitespace in a byte string. */
  predicate IsSpace(c: char) {
    c == ' ' || c == '\t' || c == '\n' || c == '\r' || c as int == 11 || c as int == 12
  }

  predicate IsDigit(c: char) {
    '0' <= c <= '9'
  }

  predicate AllSpace(s: string) {
    forall i :: 0 <= i < |s| ==> IsSpace(s[i])
  }

  predicate NoSpace(s: string) {
    forall i :: 0 <= i < |s| ==> !IsSpace(s[i])
  }

  /** Index of the first non-whitespace character at or after `i`. */
  function SkipSpace(s: string, i: nat): (j: nat)
    requires i <= |s|
    ensures i <= j <= |s|
    ensures j == |s| || !IsSpace(s[j])
    decreases |s| - i
  {
    if i < |s| && IsSpace(s[i]) then SkipSpace(s, i + 1) else i
  }

  /** Index just past the last non-whitespace character before `i`. */
  function TrimEnd(s: string, i: nat): (j: nat)
    requires i <= |s|
    ensures j <= i
    ensures j == 0 || !IsSpace(s[j - 1])
    decreases i
  {
    if i > 0 && IsSpace(s[i - 1]) then TrimEnd(s, i - 1) else i
  }

  lemma {:induction false} SkipSpaceSkipsSpace(s: string, i: nat)
    requires i <= |s|
    ensures AllSpace(s[i..SkipSpace(s, i)])
    decreases |s| - i
  {
    if i < |s| && IsSpace(s[i]) {
      SkipSpaceSkipsSpace(s, i + 1);
      assert s[i..SkipSpace(s, i)] == [s[i]] + s[i + 1..SkipSpace(s, i)];
    }
  }

  lemma {:induction false} TrimEndTrimsSpace(s: string, i: nat)
    requires i <= |s|
    ensures AllSpace(s[TrimEnd(s, i)..i])
    decreases i
  {
    if i > 0 && IsSpace(s[i - 1]) {
      TrimEndTrimsSpace(s, i - 1);
      assert s[TrimEnd(s, i)..i] == s[TrimEnd(s, i)..i - 1] + [s[i - 1]];
    }
  }

  /** Skipping whitespace in a suffix is skipping it in the whole string. */
  lemma {:induction false} SkipSpaceSuffix(s: string, n: nat, i: nat)
    requires n + i <= |s|
    ensures SkipSpace(s[n..], i) + n == SkipSpace(s, n + i)
    decreases |s| - n - i
  {
    if n + i < |s| && IsSpace(s[n + i]) {
      SkipSpaceSuffix(s, n, i + 1);
    }
  }

  /** Trimming whitespace in a prefix is trimming it in the whole string. */
  lemma {:induction false} TrimEndPrefix(s: string, m: nat, i: nat)
    requires i <= m <= |s|
    ensures TrimEnd(s[..m], i) == TrimEnd(s, i)
    decreases i
  {
    if i > 0 && IsSpace(s[i - 1]) {
      TrimEndPrefix(s, m, i - 1);
    }
  }

  /** `s.lstrip()` */
  function LStrip(s: string): (r: string)
  {
    s[SkipSpace(s, 0)..]
  }

  /** `s.rstrip()` */
  function RStrip(s: string): (r: string)
  {
    s[..TrimEnd(s, |s|)]
  }

  /** What `lstrip` drops is whitespace. */
  lemma LStripDropsSpace(s: string)
    ensures AllSpace(s[..|s| - |LStrip(s)|])
  {
    SkipSpaceSkipsSpace(s, 0);
    assert s[..|s| - |LStrip(s)|] == s[0..SkipSpace(s, 0)];
  }

  /** What `rstrip` drops is whitespace. */
  lemma RStripDropsSpace(s: string)
    ensures AllSpace(s[|RStrip(s)|..])
  {
    TrimEndTrimsSpace(s, |s|);
    assert s[|RStrip(s)|..] == s[TrimEnd(s, |s|)..|s|];
  }

  /** `s.strip()` */
  function Strip(s: string): string {
    LStrip(RStrip(s))
  }

  lemma {:induction false} TrimEndAllSpace(s: string, i: nat)
    requires i <= |s| && AllSpace(s)
    ensures TrimEnd(s, i) == 0
    decreases i
  {
    if i > 0 {
      TrimEndAllSpace(s, i - 1);
    }
  }

  /** A string strips to nothing exactly when it is all whitespace. */
  lemma StripEmptyIffAllSpace(s: string)
    ensures Strip(s) == [] <==> AllSpace(s)
  {
    if AllSpace(s) {
      TrimEndAllSpace(s, |s|);
    } else {
      var i :| 0 <= i < |s| && !IsSpace(s[i]);
      var e := TrimEnd(s, |s|);
      TrimEndTrimsSpace(s, |s|);
      forall j | e <= j < |s| ensures IsSpace(s[j]) {
        SpaceIn(s, e, |s|, j);
      }
      var t := RStrip(s);
      assert t[i] == s[i];
      var b := SkipSpace(t, 0);
      SkipSpaceSkipsSpace(t, 0);
      forall j | 0 <= j < b ensures IsSpace(t[j]) {
        SpaceIn(t, 0, b, j);
      }
    }
  }

  lemma SpaceIn(s: string, a: nat, b: nat, j: nat)
    requires a <= j < b <= |s| && AllSpace(s[a..b])
    ensures IsSpace(s[j])
  {
    assert s[a..b][j - a] == s[j];
  }

  /** Index just past the word that starts at `i`. */
  function WordEnd(s: string, i: nat): (k: nat)
    requires i <= |s|
    ensures i <= k <= |s|
    ensures k == |s| || IsSpace(s[k])
    ensures i < |s| && !IsSpace(s[i]) ==> i < k
    decreases |s| - i
  {
    if i < |s| && !IsSpace(s[i]) then WordEnd(s, i + 1) else i
  }

  lemma {:induction false} WordEndNoSpace(s: string, i: nat)
    requires i <= |s|
    ensures NoSpace(s[i..WordEnd(s, i)])
    decreases |s| - i
  {
    if i < |s| && !IsSpace(s[i]) {
      WordEndNoSpace(s, i + 1);
      assert s[i..WordEnd(s, i)] == [s[i]] + s[i + 1..WordEnd(s, i)];
    }
  }

  /** The words of `s` from index `i` on. */
  function SplitFrom(s: string, i: nat): seq<string>
    requires i <= |s|
    decreases |s| - i
  {
    var j := SkipSpace(s, i);
    if j == |s| then [] else [s[j..WordEnd(s, j)]] + SplitFrom(s, WordEnd(s, j))
  }

  /** `s.split()`: the maximal runs of non-whitespace characters, in order. */
  function Split(s: string): seq<string> {
    SplitFrom(s, 0)
  }

  /** Nonempty words without whitespace. */
  predicate Words(ws: seq<string>) {
    forall j :: 0 <= j < |ws| ==> ws[j] != [] && NoSpace(ws[j])
  }

  lemma WordsCons(w: string, rest: seq<string>)
    requires w != [] && NoSpace(w) && Words(rest)
    ensures Words([w] + rest)
  {
    var ws := [w] + rest;
    forall j | 0 <= j < |ws| ensures ws[j] != [] && NoSpace(ws[j]) {
      if j > 0 { assert ws[j] == rest[j - 1]; }
    }
  }

  lemma {:induction false} SplitFromWords(s: string, i: nat)
    requires i <= |s|
    ensures Words(SplitFrom(s, i))
    decreases |s| - i
  {
    var j := SkipSpace(s, i);
    if j < |s| {
      var k := WordEnd(s, j);
      WordEndNoSpace(s, j);
      SplitFromWords(s, k);
      WordsCons(s[j..k], SplitFrom(s, k));
    }
  }

  /** Every word of `s.split()` is nonempty and free of whitespace. */
  lemma SplitWords(s: string)
    ensures Words(Split(s))
  {
    SplitFromWords(s, 0);
  }

  /** `s.split()` is empty exactly when `s.strip()` is. */
  lemma SplitEmptyIffStripEmpty(s: string)
    ensures Split(s) == [] <==> Strip(s) == []
  {
    StripEmptyIffAllSpace(s);
    SkipSpaceSkipsSpace(s, 0);
    var j := SkipSpace(s, 0);
    assert s[0..j] == s[..j];
    if j == |s| {
      assert s[..|s|] == s;
    } else {
      assert !IsSpace(s[j]);
    }
  }

  /** The first word of a string that is not all whitespace (Python's
      `s.split()[0]`). */
  function FirstWord(s: string): (w: string)
    requires Strip(s) != []
    ensures w != [] && NoSpace(w)
  {
    SplitEmptyIffStripEmpty(s);
    SplitWords(s);
    Split(s)[0]
  }

  /** A word ends at the first whitespace character after it. */
  lemma {:induction false} WordEndAt(s: string, i: nat, k: nat)
    requires i <= k <= |s|
    requires forall j :: i <= j < k ==> !IsSpace(s[j])
    requires k == |s| || IsSpace(s[k])
    ensures WordEnd(s, i) == k
    decreases k - i
  {
    if i < k {
      WordEndAt(s, i + 1, k);
    }
  }

  /** The word that starts a string beginning with a non-space character
      runs up to the first whitespace character. */
  lemma FirstWordOfWordStart(s: string, k: nat)
    requires 0 < k <= |s| && NoSpace(s[..k]) && (k == |s| || IsSpace(s[k]))
    ensures Strip(s) != [] && FirstWord(s) == s[..k]
  {
    assert forall j :: 0 <= j < k ==> !IsSpace(s[j]) by {
      forall j | 0 <= j < k ensures !IsSpace(s[j]) { assert s[..k][j] == s[j]; }
    }
    assert SkipSpace(s, 0) == 0;
    WordEndAt(s, 0, k);
    SplitEmptyIffStripEmpty(s);
    assert Split(s)[0] == s[0..k];
  }

  /** `' '.join(ws)` */
  function JoinSpace(ws: seq<string>): string {
    if ws == [] then "" else if |ws| == 1 then ws[0] else ws[0] + " " + JoinSpace(ws[1..])
  }

  /** `s.startswith(p)` */
  predicate StartsWith(s: string, p: string) {
    |p| <= |s| && s[..|p|] == p
  }

  /** Whether `sub` occurs in `s` at index `j`. */
  predicate OccursAt(s: string, sub: string, j: int) {
    0 <= j && j + |sub| <= |s| && s[j..j + |sub|] == sub
  }

  function FindFrom(s: string, sub: string, i: nat): (r: int)
    requires i <= |s|
    ensures r == -1 || (i <= r && OccursAt(s, sub, r))
    ensures forall j :: i <= j && (r == -1 || j < r) ==> !OccursAt(s, sub, j)
    decreases |s| - i
  {
    if i + |sub| > |s| then -1
    else if s[i..i + |sub|] == sub then i
    else if i == |s| then -1
    else FindFrom(s, sub, i + 1)
  }

  /** `s.find(sub)`: the first index where `sub` occurs, or -1. */
  function Find(s: string, sub: string): (r: int)
    ensures r == -1 || OccursAt(s, sub, r)
    ensures forall j :: 0 <= j && (r == -1 || j < r) ==> !OccursAt(s, sub, j)
  {
    FindFrom(s, sub, 0)
  }

  /** `s.replace(pat, rep)`: every non-overlapping occurrence of `pat`, left
      to right, replaced by `rep`. */
  function Replace(s: string, pat: string, rep: string): string
    requires pat != []
    decreases |s|
  {
    if |s| < |pat| then s
    else if pat <= s then rep + Replace(s[|pat|..], pat, rep)
    else [s[0]] + Replace(s[1..], pat, rep)
  }

  /** Replacing a pattern that does not occur leaves the string as it was. */
  lemma {:induction false} ReplaceAbsent(s: string, pat: string, rep: string)
    requires pat != []
    requires Find(s, pat) == -1
    ensures Replace(s, pat, rep) == s
    decreases |s|
  {
    if |s| >= |pat| {
      assert !OccursAt(s, pat, 0);
      assert s[..|pat|] != pat;
      forall j | 0 <= j ensures !OccursAt(s[1..], pat, j) {
        if j + |pat| <= |s| - 1 {
          assert s[1..][j..j + |pat|] == s[j + 1..j + 1 + |pat|];
          assert !OccursAt(s, pat, j + 1);
        }
      }
      ReplaceAbsent(s[1..], pat, rep);
    }
  }

  function DigitChar(d: nat): char
    requires d < 10
  {
    "0123456789"[d]
  }

  function DigitValue(c: char): nat
    requires IsDigit(c)
  {
    (c as int - '0' as int) as nat
  }

  /** `str(n)` for a natural number. */
  function NatToString(n: nat): (r: string)
    ensures r != []
  {
    if n < 10 then [DigitChar(n)] else NatToString(n / 10) + [DigitChar(n % 10)]
  }

  /** `str(i)` (or `%d`) for any integer. */
  function IntToString(i: int): (r: string)
    ensures r != []
  {
    if i < 0 then "-" + NatToString(-i) else NatToString(i)
  }

  lemma {:induction false} NatToStringDigits(n: nat)
    ensures AllDigits(NatToString(n))
  {
    if n >= 10 {
      NatToStringDigits(n / 10);
      var r := NatToString(n);
      forall i | 0 <= i < |r| ensures IsDigit(r[i]) {
        if i < |r| - 1 { assert r[i] == NatToString(n / 10)[i]; }
      }
    }
  }

  /** `str(i)` holds no whitespace. */
  lemma IntToStringNoSpace(i: int)
    ensures NoSpace(IntToString(i))
  {
    IntToStringChars(i);
  }

  /** The value of a string of decimal digits, most significant first. */
  function DigitsValue(ds: string): nat
    requires forall i :: 0 <= i < |ds| ==> IsDigit(ds[i])
  {
    if ds == [] then 0 else DigitsValue(ds[..|ds| - 1]) * 10 + DigitValue(ds[|ds| - 1])
  }

  lemma {:induction false} DigitsValueOfNatToString(n: nat)
    ensures AllDigits(NatToString(n)) && DigitsValue(NatToString(n)) == n
  {
    NatToStringDigits(n);
    if n >= 10 {
      var r := NatToString(n);
      assert r[..|r| - 1] == NatToString(n / 10);
      DigitsValueOfNatToString(n / 10);
    }
  }

  predicate AllDigits(s: string) {
    s != [] && forall i :: 0 <= i < |s| ==> IsDigit(s[i])
  }

  /** `int(s)` for a byte string in base 10: surrounding whitespace, an
      optional sign, whitespace again after a sign, then one or more digits;
      anything else raises ValueError, here `None`. */
  function ParseInt(s: string): (r: Option<int>)
    ensures r.Some? ==> Strip(s) != []
  {
    ParseSigned(Strip(s))
  }

  /** `int()` once the whitespace at both ends is stripped. The conversion
      of a signed number skips whitespace between the sign and the digits,
      so `"- 5"` is -5. */
  function ParseSigned(t: string): (r: Option<int>)
    ensures r.Some? ==> t != []
  {
    if t == [] then None
    else if t[0] == '-' && AllDigits(t[SkipSpace(t, 1)..]) then Some(-(DigitsValue(t[SkipSpace(t, 1)..]) as int))
    else if t[0] == '+' && AllDigits(t[SkipSpace(t, 1)..]) then Some(DigitsValue(t[SkipSpace(t, 1)..]))
    else if AllDigits(t) then Some(DigitsValue(t))
    else None
  }

  /** Whitespace after the sign is accepted; whitespace inside the digits
      is not. */
  lemma SpaceAfterSign()
    ensures ParseInt("- 5") == Some(-5) && ParseInt("+  12") == Some(12)
    ensures ParseInt("1 2") == None && ParseInt("-") == None
  {
    assert Strip("- 5") == "- 5" by { StripTrimmed("- 5"); }
    assert SkipSpace("- 5", 1) == 2;
    assert "- 5"[2..] == "5";
    assert Strip("+  12") == "+  12" by { StripTrimmed("+  12"); }
    assert SkipSpace("+  12", 1) == 3;
    assert "+  12"[3..] == "12";
    assert DigitsValue("12") == DigitsValue("1") * 10 + 2 by { assert "12"[..1] == "1"; }
    assert Strip("1 2") == "1 2" by { StripTrimmed("1 2"); }
    assert !IsDigit("1 2"[1]);
    assert Strip("-") == "-" by { StripTrimmed("-"); }
    assert SkipSpace("-", 1) == 1;
  }

  /** A string with no whitespace at either end is its own `strip()`. */
  lemma StripTrimmed(s: string)
    requires s != [] && !IsSpace(s[0]) && !IsSpace(s[|s| - 1])
    ensures Strip(s) == s
  {
    assert RStrip(s) == s;
  }

  /** `int(str(i)) == i`: the two conversions are inverse. */
  lemma ParseIntOfIntToString(i: int)
    ensures ParseInt(IntToString(i)) == Some(i)
  {
    var s := IntToString(i);
    IntToStringNoSpace(i);
    assert !IsSpace(s[0]) && !IsSpace(s[|s| - 1]);
    StripTrimmed(s);
    ParseSignedOfIntToString(i);
  }

  lemma ParseSignedOfIntToString(i: int)
    ensures ParseSigned(IntToString(i)) == Some(i)
  {
    if i < 0 {
      var n: nat := -i;
      var d := NatToString(n);
      var t := IntToString(i);
      assert t == "-" + d;
      assert t[1..] == d;
      DigitsValueOfNatToString(n);
      assert t[1] == d[0] && IsDigit(d[0]);
      assert SkipSpace(t, 1) == 1;
    } else {
      var d := NatToString(i);
      NatToStringDigits(i);
      assert IsDigit(d[0]);
      DigitsValueOfNatToString(i);
    }
  }

  /** `' ' * n` (nothing for `n <= 0`). */
  function Spaces(n: int): (r: string)
    ensures |r| == if n <= 0 then 0 else n
    ensures forall j :: 0 <= j < |r| ==> r[j] == ' '
    decreases n
  {
    if n <= 0 then "" else " " + Spaces(n - 1)
  }

  /** `s.rjust(w)`: at least `w` long, `s` at the end. */
  function RJust(s: string, w: int): (r: string)
    ensures |r| >= w && |r| >= |s|
    ensures r[|r| - |s|..] == s
  {
    Spaces(w - |s|) + s
  }

  /** `s.ljust(w)`: at least `w` long, `s` at the start. */
  function LJust(s: string, w: int): (r: string)
    ensures |r| >= w && |r| >= |s|
    ensures r[..|s|] == s
  {
    s + Spaces(w - |s|)
  }

  /** The characters of `str(i)` are digits and at most a minus sign. */
  lemma IntToStringChars(i: int)
    ensures forall k :: 0 <= k < |IntToString(i)| ==> IsDigit(IntToString(i)[k]) || IntToString(i)[k] == '-'
  {
    if i < 0 {
      var s := IntToString(i);
      NatToStringDigits(-i);
      forall k | 0 < k < |s| ensures IsDigit(s[k]) {
        assert s[k] == NatToString(-i)[k - 1];
      }
    } else {
      NatToStringDigits(i);
    }
  }

  /** Python's `<` on strings: lexicographic by code point. */
  predicate StrLt(a: string, b: string) {
    if a == [] then b != []
    else if b == [] then false
    else if a[0] != b[0] then a[0] < b[0]
    else StrLt(a[1..], b[1..])
  }

  lemma {:induction false} StrLtIrreflexive(a: string)
    ensures !StrLt(a, a)
  {
    if a != [] { StrLtIrreflexive(a[1..]); }
  }

  lemma {:induction false} StrLtTransitive(a: string, b: string, c: string)
    requires StrLt(a, b) && StrLt(b, c)
    ensures StrLt(a, c)
  {
    if a != [] && b != [] && c != [] && a[0] == b[0] && b[0] == c[0] {
      StrLtTransitive(a[1..], b[1..], c[1..]);
    }
  }

  lemma {:induction false} StrLtTotal(a: string, b: string)
    requires a != b
    ensures StrLt(a, b) || StrLt(b, a)
  {
    if a != [] && b != [] && a[0] == b[0] {
      assert a == [a[0]] + a[1..] && b == [b[0]] + b[1..];
      StrLtTotal(a[1..], b[1..]);
    }
  }

  /** Strictly increasing in Python's string order, hence without repeats. */
  predicate SortedStrict(s: seq<string>) {
    forall i, j :: 0 <= i < j < |s| ==> StrLt(s[i], s[j])
  }
}
