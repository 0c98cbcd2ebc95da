// The C library functions on text that the config parser relies on, as functions
// on strings (the characters up to the terminating NUL).
module CText {
  import opened Wrappers

  // ---- Characters -----------------------------------------------------------

  predicate IsBlank(c: char) {
    c == ' ' || c == '\t'
  }

  predicate IsTrailing(c: char) {
    c == ' ' || c == '\t' || c == '\r' || c == '\n'
  }

  // isspace in the C locale.
  predicate IsSpace(c: char) {
    c == ' ' || 9 <= c as int <= 13
  }

  predicate IsDigit(c: char) {
    '0' <= c <= '9'
  }

  function Lower(c: char): char {
    if 'A' <= c <= 'Z' then (c as int + 32) as char else c
  }

  // strcasecmp(a, b) == 0
  predicate SameIgnoringCase(a: string, b: string) {
    |a| == |b| && forall i :: 0 <= i < |a| ==> Lower(a[i]) == Lower(b[i])
  }

  // ---- Cutting -----------------------------------------------------------------

  function CString(s: string): (r: string)
  {
    if s == [] || s[0] == '\0' then [] else [s[0]] + CString(s[1..])
  }

  // strncpy into a buffer of n + 1 characters.
  function Truncate(s: string, n: nat): string {
    if |s| <= n then s else s[..n]
  }

  function SkipBlanks(s: string): string {
    if s != [] && IsBlank(s[0]) then SkipBlanks(s[1..]) else s
  }

  function SkipSpace(s: string): string {
    if s != [] && IsSpace(s[0]) then SkipSpace(s[1..]) else s
  }

  function RStrip(s: string): string {
    if s != [] && IsTrailing(s[|s| - 1]) then RStrip(s[..|s| - 1]) else s
  }

  // Length of the prefix without c: strchr finds c there, or nothing.
  function Before(s: string, c: char): (n: nat)
    ensures n <= |s|
    ensures n < |s| ==> s[n] == c
    ensures forall i :: 0 <= i < n ==> s[i] != c
  {
    if s == [] || s[0] == c then 0 else 1 + Before(s[1..], c)
  }

  // Length of the first word of s.
  function WordLength(s: string): (n: nat)
    ensures n <= |s|
    ensures forall i :: 0 <= i < n ==> !IsBlank(s[i])
    ensures n < |s| ==> IsBlank(s[n])
  {
    if s == [] || IsBlank(s[0]) then 0 else 1 + WordLength(s[1..])
  }

  lemma {:induction false} SkipBlanksShrinks(s: string)
    ensures |SkipBlanks(s)| <= |s|
    ensures SkipBlanks(s) != [] ==> !IsBlank(SkipBlanks(s)[0])
  {
    if s != [] && IsBlank(s[0]) {
      SkipBlanksShrinks(s[1..]);
    }
  }

  // strtok over " \t".
  function Tokens(s: string): seq<string>
    decreases |s|
  {
    SkipBlanksShrinks(s);
    var t := SkipBlanks(s);
    if t == [] then []
    else
      var n := WordLength(t);
      [t[..n]] + Tokens(t[n..])
  }

  // ---- Numbers ---------------------------------------------------------------

  function DigitRun(s: string): (n: nat)
    ensures n <= |s|
    ensures forall i :: 0 <= i < n ==> IsDigit(s[i])
    ensures n < |s| ==> !IsDigit(s[n])
  {
    if s == [] || !IsDigit(s[0]) then 0 else 1 + DigitRun(s[1..])
  }

  function DigitsValue(s: string): nat
    requires forall i :: 0 <= i < |s| ==> IsDigit(s[i])
  {
    if s == [] then 0
    else
      assert IsDigit(s[|s| - 1]);
      10 * DigitsValue(s[..|s| - 1]) + (s[|s| - 1] as int - '0' as int)
  }

  // %d and strtol base 10: white space, a sign, digits. Some(value, rest) if there
  // is at least one digit.
  function ScanInt(s: string): Option<(int, string)> {
    var t := SkipSpace(s);
    var negative := t != [] && t[0] == '-';
    var u := if t != [] && (t[0] == '-' || t[0] == '+') then t[1..] else t;
    var n := DigitRun(u);
    if n == 0 then None
    else
      var v: int := DigitsValue(u[..n]);
      Some((if negative then -v else v, u[n..]))
  }

  // %d and %u output.
  function Decimal(n: nat): (s: string)
    ensures s != [] && forall i :: 0 <= i < |s| ==> IsDigit(s[i])
  {
    if n < 10 then [('0' as int + n) as char] else Decimal(n / 10) + [('0' as int + n % 10) as char]
  }

  lemma {:induction false} DecimalValue(n: nat)
    ensures DigitsValue(Decimal(n)) == n
  {
    var s := Decimal(n);
    if n < 10 {
      assert DigitsValue(s[..0]) == 0;
    } else {
      DecimalValue(n / 10);
      assert s[..|s| - 1] == Decimal(n / 10);
    }
  }

  lemma {:induction false} DigitRunStops(digits: string, rest: string)
    requires forall i :: 0 <= i < |digits| ==> IsDigit(digits[i])
    requires rest == [] || !IsDigit(rest[0])
    ensures DigitRun(digits + rest) == |digits|
  {
    if digits == [] {
      assert digits + rest == rest;
    } else {
      assert (digits + rest)[1..] == digits[1..] + rest;
      DigitRunStops(digits[1..], rest);
    }
  }

  // Scanning printed digits gives the number back and stops after them.
  lemma {:induction false} ScanDecimal(n: nat, rest: string)
    requires rest == [] || !IsDigit(rest[0])
    ensures ScanInt(Decimal(n) + rest) == Some((n, rest))
  {
    var s := Decimal(n) + rest;
    assert IsDigit(s[0]) && !IsSpace(s[0]);
    assert SkipSpace(s) == s;
    DigitRunStops(Decimal(n), rest);
    assert s[..|Decimal(n)|] == Decimal(n) && s[|Decimal(n)|..] == rest;
    DecimalValue(n);
  }

  // ---- Words --------------------------------------------------------------------

  predicate IsWord(w: string) {
    w != [] && forall i :: 0 <= i < |w| ==> !IsBlank(w[i])
  }

  lemma {:induction false} WordLengthStops(w: string, rest: string)
    requires forall i :: 0 <= i < |w| ==> !IsBlank(w[i])
    requires rest == [] || IsBlank(rest[0])
    ensures WordLength(w + rest) == |w|
  {
    if w == [] {
      assert w + rest == rest;
    } else {
      assert (w + rest)[1..] == w[1..] + rest;
      WordLengthStops(w[1..], rest);
    }
  }

  lemma {:induction false} TokensOfWord(w: string)
    requires IsWord(w)
    ensures Tokens(w) == [w]
  {
    assert w + [] == w;
    WordLengthStops(w, []);
    assert SkipBlanks(w) == w;
    assert w[..|w|] == w && w[|w|..] == [];
    assert Tokens([]) == [];
  }

  lemma {:induction false} TokensCons(w: string, rest: string)
    requires IsWord(w)
    ensures Tokens(w + " " + rest) == [w] + Tokens(rest)
  {
    var s := w + (" " + rest);
    assert s == w + " " + rest;
    WordLengthStops(w, " " + rest);
    assert s[0] == w[0];
    assert SkipBlanks(s) == s;
    assert s[..|w|] == w && s[|w|..] == " " + rest;
    assert (" " + rest)[1..] == rest;
    TokensSkipBlank(rest);
  }

  lemma {:induction false} TokensSkipBlank(rest: string)
    ensures Tokens(" " + rest) == Tokens(rest)
  {
    assert (" " + rest)[1..] == rest;
    assert SkipBlanks(" " + rest) == SkipBlanks(rest);
  }

  lemma {:induction false} BeforeStops(s: string, c: char, rest: string)
    requires c !in s
    ensures Before(s + [c] + rest, c) == |s|
  {
    var t := s + [c] + rest;
    if s != [] {
      assert t[1..] == s[1..] + [c] + rest;
      BeforeStops(s[1..], c, rest);
    }
  }

  // ---- Lines -----------------------------------------------------------------------

  // readStringUntil('\n') until nothing is available.
  function SplitLines(text: string): seq<string> {
    if text == [] then []
    else
      var n := Before(text, '\n');
      if n == |text| then [text] else [text[..n]] + SplitLines(text[n + 1..])
  }

  function Unlines(lines: seq<string>): string {
    if lines == [] then [] else lines[0] + "\n" + Unlines(lines[1..])
  }

  lemma {:induction false} SplitFirst(line: string, rest: string)
    requires '\n' !in line
    ensures SplitLines(line + "\n" + rest) == [line] + SplitLines(rest)
  {
    var text := line + ['\n'] + rest;
    assert text == line + "\n" + rest;
    BeforeStops(line, '\n', rest);
    assert text[..|line|] == line && text[|line| + 1..] == rest;
  }

  lemma {:induction false} SplitUnlines(lines: seq<string>)
    requires forall i :: 0 <= i < |lines| ==> '\n' !in lines[i]
    ensures SplitLines(Unlines(lines)) == lines
  {
    if lines != [] {
      hide SplitLines;
      SplitFirst(lines[0], Unlines(lines[1..]));
      SplitUnlines(lines[1..]);
    }
  }

  // Splitting loses nothing and leaves no line feed in a line; a last line need not be ended.
  lemma {:induction false} SplitLinesOfText(text: string)
    ensures var lines := SplitLines(text);
            Unlines(lines) == (if text == "" || text[|text| - 1] == '\n' then text else text + "\n")
            && forall i :: 0 <= i < |lines| ==> '\n' !in lines[i]
    decreases |text|
  {
    hide Unlines, SplitLines, Before;
    NoLines();
    if text != [] {
      var n := Before(text, '\n');
      SplitStep(text, n);
      if n == |text| {
        FirstOfLines(text, []);
        assert [text] + [] == [text];
      } else {
        var rest := text[n + 1..];
        SplitLinesOfText(rest);
        FirstOfLines(text[..n], SplitLines(rest));
        EndOfText(text, n);
      }
    }
  }

  lemma {:induction false} EndOfText(text: string, n: nat)
    requires n < |text| && text[n] == '\n'
    ensures text == text[..n] + "\n" + text[n + 1..]
    ensures text[n + 1..] == "" ==> text[|text| - 1] == '\n'
    ensures var rest := text[n + 1..]; rest != "" ==> rest[|rest| - 1] == text[|text| - 1]
    ensures text + "\n" == text[..n] + "\n" + (text[n + 1..] + "\n")
  {
  }

  lemma {:induction false} SplitStep(text: string, n: nat)
    requires text != [] && n == Before(text, '\n')
    ensures n == |text| ==> SplitLines(text) == [text]
    ensures n < |text| ==> text[n] == '\n' && SplitLines(text) == [text[..n]] + SplitLines(text[n + 1..])
    ensures '\n' !in text[..n]
  {
    hide Before;
    forall i | 0 <= i < n
      ensures text[..n][i] != '\n'
    {
      assert text[..n][i] == text[i];
    }
  }

  lemma {:induction false} NoLines()
    ensures Unlines([]) == "" && SplitLines("") == []
  {
  }

  lemma {:induction false} FirstOfLines(line: string, rest: seq<string>)
    ensures Unlines([line] + rest) == line + "\n" + Unlines(rest)
  {
    assert ([line] + rest)[1..] == rest;
  }

  lemma {:induction false} UnlinesAppend(a: seq<string>, b: seq<string>)
    ensures Unlines(a + b) == Unlines(a) + Unlines(b)
  {
    if a == [] {
      assert a + b == b;
    } else {
      assert (a + b)[1..] == a[1..] + b;
      UnlinesAppend(a[1..], b);
    }
  }
}
