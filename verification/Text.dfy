/** The few string operations the text parsers share, over characters. */
module Text {
  import opened Basics

  const ESC := '\U{1b}'

  predicate IsSpace(c: char) {
    c == ' ' || '\t' <= c <= '\r' || '\U{1c}' <= c <= '\U{1f}' || c == '\U{85}' || c == '\U{a0}'
  }

  /** Where str.splitlines ends a line. */
  predicate IsLineBreak(c: char) {
    '\n' <= c <= '\r' || '\U{1c}' <= c <= '\U{1e}' || c == '\U{85}' || c == '\U{2028}' || c == '\U{2029}'
  }

  predicate IsDigit(c: char) {
    '0' <= c <= '9'
  }

  function Lower(c: char): char {
    if 'A' <= c <= 'Z' then c - 'A' + 'a' else c
  }

  function DropSpaces(s: string): string {
    if s != "" && IsSpace(s[0]) then DropSpaces(s[1..]) else s
  }

  function DropSpacesAtEnd(s: string): string {
    if s != "" && IsSpace(s[|s| - 1]) then DropSpacesAtEnd(s[..|s| - 1]) else s
  }

  function Trim(s: string): string {
    DropSpacesAtEnd(DropSpaces(s))
  }

  /** What follows the word `w`, matched without regard to case. */
  function DropWord(s: string, w: string): Option<string> {
    if w == "" then Some(s)
    else if s != "" && Lower(s[0]) == Lower(w[0]) then DropWord(s[1..], w[1..])
    else None
  }

  function LeadingDigits(s: string): (n: nat)
    ensures n <= |s|
  {
    if s != "" && IsDigit(s[0]) then 1 + LeadingDigits(s[1..]) else 0
  }

  function Value(digits: string): nat
    requires forall i :: 0 <= i < |digits| ==> IsDigit(digits[i])
  {
    if digits == "" then 0
    else
      assert IsDigit(digits[|digits| - 1]);
      10 * Value(digits[..|digits| - 1]) + (digits[|digits| - 1] as int - '0' as int)
  }

  function Decimal(n: nat): (s: string)
    ensures s != "" && forall i :: 0 <= i < |s| ==> IsDigit(s[i])
    ensures Value(s) == n
  {
    if n < 10 then
      var s := ['0' + n as char];
      assert s[..0] == "";
      s
    else
      var s, d := Decimal(n / 10), '0' + (n % 10) as char;
      assert (s + [d])[..|s|] == s;
      s + [d]
  }

  // ---------------------------------------------------------------- lines

  function NextBreak(s: string): (n: nat)
    ensures n <= |s| && (n < |s| ==> IsLineBreak(s[n]))
    ensures forall i :: 0 <= i < n ==> !IsLineBreak(s[i])
  {
    if s == "" || IsLineBreak(s[0]) then 0 else 1 + NextBreak(s[1..])
  }

  /** str.splitlines, except that a two-character line end adds an empty line. */
  function SplitLines(s: string): seq<string> {
    if s == "" then []
    else
      var n := NextBreak(s);
      [s[..n]] + if n < |s| then SplitLines(s[n + 1..]) else []
  }

  function NonBlank(lines: seq<string>): seq<string> {
    if lines == [] then []
    else
      var t := Trim(lines[0]);
      (if t == "" then [] else [t]) + NonBlank(lines[1..])
  }

  // ---------------------------------------------------------------- ANSI control sequences

  function Span(s: string, lo: char, hi: char): (n: nat)
    ensures n <= |s|
  {
    if s != "" && lo <= s[0] <= hi then 1 + Span(s[1..], lo, hi) else 0
  }

  /** The length of the control sequence `s` starts with, or 0. */
  function AnsiLength(s: string): (n: nat)
    ensures n <= |s| && (n > 0 ==> n >= 3 && s[0] == ESC && s[1] == '[')
  {
    if |s| < 2 || s[0] != ESC || s[1] != '[' then 0
    else
      var p := 2 + Span(s[2..], '0', '?');
      var q := p + Span(s[p..], ' ', '/');
      if q < |s| && '@' <= s[q] <= '~' then q + 1 else 0
  }

  function StripAnsi(s: string): string
    decreases |s|
  {
    if s == "" then ""
    else
      var n := AnsiLength(s);
      if n > 0 then StripAnsi(s[n..]) else [s[0]] + StripAnsi(s[1..])
  }

  /** The two characters that open a control sequence never stand side by side. */
  predicate NoIntroducer(s: string) {
    forall i :: 0 <= i < |s| - 1 ==> !(s[i] == ESC && s[i + 1] == '[')
  }

  lemma {:induction false} StripAnsiKeepsPlainText(s: string)
    requires NoIntroducer(s)
    ensures StripAnsi(s) == s
  {
    if s != "" {
      assert AnsiLength(s) == 0;
      StripAnsiKeepsPlainText(s[1..]);
    }
  }

  lemma TextWithoutEscapeIsPlain(s: string)
    requires forall i :: 0 <= i < |s| ==> s[i] != ESC
    ensures StripAnsi(s) == s
  {
    StripAnsiKeepsPlainText(s);
  }

  // ---------------------------------------------------------------- facts about the above

  lemma NonBlankFirst(line: string, rest: seq<string>)
    requires line != "" && Trim(line) == line
    ensures NonBlank([line] + rest) == [line] + NonBlank(rest)
  {
    assert ([line] + rest)[1..] == rest;
  }

  lemma {:induction false} DropSpacesStops(s: string)
    ensures DropSpaces(s) == "" || !IsSpace(DropSpaces(s)[0])
    ensures s != "" && !IsSpace(s[0]) ==> DropSpaces(s) == s
  {
    if s != "" && IsSpace(s[0]) {
      DropSpacesStops(s[1..]);
    }
  }

  lemma {:induction false} DropWordFinds(w: string, rest: string)
    ensures DropWord(w + rest, w) == Some(rest)
  {
    if w == "" {
      assert w + rest == rest;
    } else {
      assert (w + rest)[1..] == w[1..] + rest;
      DropWordFinds(w[1..], rest);
    }
  }

  lemma {:induction false} LeadingDigitsFinds(digits: string, rest: string)
    requires forall i :: 0 <= i < |digits| ==> IsDigit(digits[i])
    requires rest == "" || !IsDigit(rest[0])
    ensures LeadingDigits(digits + rest) == |digits|
  {
    if digits == "" {
      assert digits + rest == rest;
    } else {
      assert (digits + rest)[1..] == digits[1..] + rest;
      LeadingDigitsFinds(digits[1..], rest);
    }
  }

  /** A line that keeps its first character keeps it through trimming. */
  lemma {:induction false} TrimKeepsHead(s: string)
    requires s != "" && !IsSpace(s[0])
    ensures Trim(s) != "" && Trim(s)[0] == s[0]
    ensures !IsSpace(s[|s| - 1]) ==> Trim(s) == s
  {
    DropSpacesStops(s);
    EndKeepsHead(s);
  }

  lemma {:induction false} EndKeepsHead(s: string)
    requires s != "" && !IsSpace(s[0])
    ensures DropSpacesAtEnd(s) != "" && DropSpacesAtEnd(s)[0] == s[0]
  {
    if IsSpace(s[|s| - 1]) {
      EndKeepsHead(s[..|s| - 1]);
    }
  }

  lemma SplitLinesAt(line: string, rest: string)
    requires forall i :: 0 <= i < |line| ==> !IsLineBreak(line[i])
    ensures SplitLines(line + "\n" + rest) == [line] + SplitLines(rest)
  {
    var s := line + "\n" + rest;
    assert s[|line|] == '\n' && s[..|line|] == line && s[|line| + 1..] == rest;
    assert NextBreak(s) == |line|;
  }
}
