/** Characters, lines and fields of the parameter files. */
module ParamText {
  predicate IsSpace(c: char) {
    var n := c as int;
    || 0x09 <= n <= 0x0D || 0x1C <= n <= 0x20 || n == 0x85 || n == 0xA0 || n == 0x1680
    || 0x2000 <= n <= 0x200A || n == 0x2028 || n == 0x2029 || n == 0x202F || n == 0x205F || n == 0x3000
  }

  /** Where a text file is cut into lines. */
  predicate IsBreak(c: char) {
    c == '\n' || c == '\r'
  }

  /** Where a header is cut into lines; every file break is one. */
  predicate IsHeaderBreak(c: char) {
    var n := c as int;
    0x0A <= n <= 0x0D || 0x1C <= n <= 0x1E || n == 0x85 || n == 0x2028 || n == 0x2029
  }

  predicate OneLine(s: string) {
    forall i :: 0 <= i < |s| ==> !IsBreak(s[i])
  }

  predicate AllOneLine(lines: seq<string>) {
    forall i :: 0 <= i < |lines| ==> OneLine(lines[i])
  }

  lemma OneLineJoined(a: string, b: string)
    requires OneLine(a) && OneLine(b)
    ensures OneLine(a + b)
  {}

  predicate IsWord(s: string) {
    s != "" && forall i :: 0 <= i < |s| ==> !IsSpace(s[i]) && s[i] != '#' && s[i] != ','
  }

  predicate Blank(s: string) {
    forall i :: 0 <= i < |s| ==> IsSpace(s[i])
  }

  // -------------------------------------------------------------------- lines

  function FirstBreak(s: string): (i: nat)
    ensures i <= |s|
    ensures i < |s| ==> IsBreak(s[i])
    ensures forall k :: 0 <= k < i ==> !IsBreak(s[k])
  {
    if s == "" || IsBreak(s[0]) then 0 else 1 + FirstBreak(s[1..])
  }

  /** The lines of a file; "\r\n" is one break. */
  function FileLines(s: string): seq<string>
    decreases |s|
  {
    if s == "" then []
    else
      var i := FirstBreak(s);
      var skip := if i + 1 < |s| && s[i] == '\r' && s[i + 1] == '\n' then 2 else 1;
      [s[..i]] + if i == |s| then [] else FileLines(s[i + skip..])
  }

  function JoinLines(lines: seq<string>): string {
    if lines == [] then "" else lines[0] + "\n" + JoinLines(lines[1..])
  }

  lemma FirstBreakAt(line: string, rest: string)
    requires OneLine(line)
    ensures FirstBreak(line + "\n" + rest) == |line|
  {
    var s := line + "\n" + rest;
    assert s[|line|] == '\n' && s[..|line|] == line;
    assert forall k :: 0 <= k < |line| ==> s[k] == line[k];
  }

  /** What is written line by line is read line by line. */
  lemma {:induction false} LinesRead(lines: seq<string>)
    requires AllOneLine(lines)
    ensures FileLines(JoinLines(lines)) == lines
  {
    hide FirstBreak, OneLine;
    if lines != [] {
      var rest := JoinLines(lines[1..]);
      var s := lines[0] + "\n" + rest;
      FirstBreakAt(lines[0], rest);
      assert s[..|lines[0]|] == lines[0] && s[|lines[0]| + 1..] == rest;
      assert FileLines(s) == [lines[0]] + FileLines(rest);
      LinesRead(lines[1..]);
    }
  }

  function HeaderBreak(s: string): (i: nat)
    ensures i <= |s|
    ensures forall k :: 0 <= k < i ==> !IsHeaderBreak(s[k])
  {
    if s == "" || IsHeaderBreak(s[0]) then 0 else 1 + HeaderBreak(s[1..])
  }

  /** The lines of a header; "\r\n" is one break. */
  function HeaderLines(s: string): (lines: seq<string>)
    ensures AllOneLine(lines)
    decreases |s|
  {
    if s == "" then []
    else
      var i := HeaderBreak(s);
      var skip := if i + 1 < |s| && s[i] == '\r' && s[i + 1] == '\n' then 2 else 1;
      [s[..i]] + if i + skip > |s| then [] else HeaderLines(s[i + skip..])
  }

  // ------------------------------------------------------------------- fields

  function WordEnd(s: string): (i: nat)
    ensures i <= |s|
    ensures i < |s| ==> IsSpace(s[i])
    ensures forall k :: 0 <= k < i ==> !IsSpace(s[k])
  {
    if s == "" || IsSpace(s[0]) then 0 else 1 + WordEnd(s[1..])
  }

  function Fields(s: string): seq<string>
    decreases |s|
  {
    if s == "" then []
    else if IsSpace(s[0]) then Fields(s[1..])
    else [s[..WordEnd(s)]] + Fields(s[WordEnd(s)..])
  }

  lemma {:induction false} FieldsBlank(gap: string, rest: string)
    requires Blank(gap)
    ensures Fields(gap + rest) == Fields(rest)
    decreases |gap|
  {
    if gap == "" {
      assert gap + rest == rest;
    } else {
      assert (gap + rest)[1..] == gap[1..] + rest;
      FieldsBlank(gap[1..], rest);
    }
  }

  lemma FieldsWord(word: string, rest: string)
    requires IsWord(word) && (rest == "" || IsSpace(rest[0]))
    ensures Fields(word + rest) == [word] + Fields(rest)
  {
    var s := word + rest;
    assert forall k :: 0 <= k < |word| ==> s[k] == word[k];
    assert rest != "" ==> s[|word|] == rest[0];
    assert s[..|word|] == word && s[|word|..] == rest;
  }

  function BeforeHash(s: string): string {
    if s == "" || s[0] == '#' then "" else [s[0]] + BeforeHash(s[1..])
  }

  function CommasOut(s: string): string {
    if s == "" then "" else [if s[0] == ',' then ' ' else s[0]] + CommasOut(s[1..])
  }

  predicate Clean(s: string) {
    forall i :: 0 <= i < |s| ==> s[i] != '#' && s[i] != ','
  }

  /** Up to the comment, a line without commas is itself. */
  lemma {:induction false} CleanStays(s: string, comment: string)
    requires Clean(s) && (comment == "" || comment[0] == '#')
    ensures BeforeHash(s + comment) == s && CommasOut(s) == s
    decreases |s|
  {
    if s == "" {
      assert s + comment == comment;
    } else {
      assert (s + comment)[1..] == s[1..] + comment && s == [s[0]] + s[1..];
      CleanStays(s[1..], comment);
    }
  }

  function UpperChar(c: char): char {
    if 'a' <= c <= 'z' then c - 32 as char else c
  }

  function Upper(s: string): string {
    if s == "" then "" else [UpperChar(s[0])] + Upper(s[1..])
  }

  lemma {:induction false} UpperStays(s: string)
    requires forall i :: 0 <= i < |s| ==> !('a' <= s[i] <= 'z')
    ensures Upper(s) == s
    decreases |s|
  {
    if s != "" {
      UpperStays(s[1..]);
      assert s == [s[0]] + s[1..];
    }
  }

  // ------------------------------------------------------------------ padding

  function Spaces(n: int): (s: string)
    ensures Blank(s) && Clean(s) && OneLine(s)
    decreases n
  {
    if n <= 0 then "" else " " + Spaces(n - 1)
  }

  function PadRight(s: string, n: nat): string {
    s + Spaces(n - |s|)
  }

  function PadLeft(s: string, n: nat): string {
    Spaces(n - |s|) + s
  }

  function JoinCrLf(lines: seq<string>): string {
    if lines == [] then "" else lines[0] + "\r\n" + JoinCrLf(lines[1..])
  }

  /** So are lines ended the other way. */
  lemma {:induction false} CrLfLinesRead(lines: seq<string>)
    requires AllOneLine(lines)
    ensures FileLines(JoinCrLf(lines)) == lines
  {
    hide FirstBreak, OneLine;
    if lines != [] {
      var rest := JoinCrLf(lines[1..]);
      var s := lines[0] + "\r\n" + rest;
      FirstCrLfAt(lines[0], rest);
      assert s[..|lines[0]|] == lines[0] && s[|lines[0]| + 2..] == rest;
      assert s[|lines[0]|] == '\r' && s[|lines[0]| + 1] == '\n';
      assert FileLines(s) == [lines[0]] + FileLines(rest);
      CrLfLinesRead(lines[1..]);
    }
  }

  lemma FirstCrLfAt(line: string, rest: string)
    requires OneLine(line)
    ensures FirstBreak(line + "\r\n" + rest) == |line|
  {
    var s := line + "\r\n" + rest;
    assert s[|line|] == '\r' && s[..|line|] == line;
    assert forall k :: 0 <= k < |line| ==> s[k] == line[k];
  }
}
