/** Text files as Python reads and writes them: lines that keep their newline. */
module Lines {

  ghost predicate NoNewline(text: string, lo: nat, hi: int)
    requires hi <= |text|
  {
    forall k :: lo <= k < hi ==> text[k] != '\n'
  }

  /** Length of the first line, its newline included. */
  function FirstLineLength(text: string): (n: nat)
    requires text != ""
    ensures 1 <= n <= |text|
    ensures NoNewline(text, 0, n - 1)
    ensures n == |text| || text[n - 1] == '\n'
  {
    if text[0] == '\n' || |text| == 1 then 1 else 1 + FirstLineLength(text[1..])
  }

  /** `readlines()`, and what iterating over a file yields. */
  function ReadLines(text: string): seq<string> {
    if text == "" then []
    else
      var n := FirstLineLength(text);
      [text[..n]] + ReadLines(text[n..])
  }

  /** `"".join(lines)` */
  function Concat(lines: seq<string>): string {
    if lines == [] then "" else lines[0] + Concat(lines[1..])
  }

  /** `separator.join(lines)` */
  function Join(lines: seq<string>, separator: string): string {
    if lines == [] then ""
    else if |lines| == 1 then lines[0]
    else lines[0] + separator + Join(lines[1..], separator)
  }

  /** Non-empty, with no newline before its last character. */
  ghost predicate IsLine(line: string) {
    line != "" && NoNewline(line, 0, |line| - 1)
  }

  /** Lines of one file: only the last may lack its newline. */
  ghost predicate AreLines(lines: seq<string>) {
    && (forall i :: 0 <= i < |lines| ==> IsLine(lines[i]))
    && (forall i :: 0 <= i < |lines| - 1 ==> lines[i][|lines[i]| - 1] == '\n')
  }

  lemma {:induction false} ConcatAppend(a: seq<string>, b: seq<string>)
    ensures Concat(a + b) == Concat(a) + Concat(b)
  {
    if a == [] {
      assert a + b == b;
    } else {
      assert (a + b)[1..] == a[1..] + b;
      ConcatAppend(a[1..], b);
    }
  }

  lemma AreLinesCons(line: string, rest: seq<string>)
    requires IsLine(line) && AreLines(rest)
    requires rest != [] ==> line[|line| - 1] == '\n'
    ensures AreLines([line] + rest)
  {
  }

  /** Reading yields lines, and joining them gives the text back. */
  lemma {:induction false} ReadLinesRoundTrip(text: string)
    ensures AreLines(ReadLines(text)) && Concat(ReadLines(text)) == text
  {
    if text != "" {
      var n := FirstLineLength(text);
      var rest := ReadLines(text[n..]);
      ReadLinesRoundTrip(text[n..]);
      assert n == |text| ==> rest == [];
      AreLinesCons(text[..n], rest);
      assert ([text[..n]] + rest)[1..] == rest;
      assert text == text[..n] + text[n..];
    }
  }

  lemma FirstLineLengthUnique(text: string, n: nat)
    requires 1 <= n <= |text| && NoNewline(text, 0, n - 1) && (n == |text| || text[n - 1] == '\n')
    ensures FirstLineLength(text) == n
  {
  }

  /** Reading back joined lines yields the same lines. */
  lemma {:induction false} ReadLinesOfConcat(lines: seq<string>)
    requires AreLines(lines)
    ensures ReadLines(Concat(lines)) == lines
  {
    if lines != [] {
      var line := lines[0];
      var text := Concat(lines);
      assert IsLine(line);
      assert |lines| == 1 ==> Concat(lines[1..]) == "";
      assert forall k :: 0 <= k < |line| ==> text[k] == line[k];
      FirstLineLengthUnique(text, |line|);
      assert text[..|line|] == line && text[|line|..] == Concat(lines[1..]);
      ReadLinesOfConcat(lines[1..]);
    }
  }
}
