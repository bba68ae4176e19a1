/** The post-processing script that leaves a text with one newline after its last line with content. */
module TrailingNewline {
  import opened Wrappers
  import opened Lines

  datatype Error = IndexError

  /** The characters `\s` matches in a Python `str` pattern. */
  predicate IsSpace(c: char) {
    || '\t' <= c <= '\r' || '\U{1C}' <= c <= ' '
    || c == '\U{85}' || c == '\U{A0}' || c == '\U{1680}' || '\U{2000}' <= c <= '\U{200A}'
    || c == '\U{2028}' || c == '\U{2029}' || c == '\U{202F}' || c == '\U{205F}' || c == '\U{3000}'
  }

  predicate AllSpace(s: string) {
    forall i :: 0 <= i < |s| ==> IsSpace(s[i])
  }

  /** `re.match(r"^\s*$", line)`; the final newline is itself a space. */
  predicate IsBlank(line: string) {
    AllSpace(line)
  }

  predicate HasTrailingNewline(line: string) {
    line != "" && line[|line| - 1] == '\n'
  }

  function EnsureNewline(line: string): string {
    if HasTrailingNewline(line) then line else line + "\n"
  }

  ghost predicate IsLastContentLine(lines: seq<string>, c: nat) {
    c < |lines| && !IsBlank(lines[c]) && forall i :: c < i < |lines| ==> IsBlank(lines[i])
  }

  /******* The script *******/

  method ProcessLines(lines: seq<string>) returns (r: Result<seq<string>, Error>)
    ensures r.Failure? <==> forall i :: 0 <= i < |lines| ==> IsBlank(lines[i])
    ensures forall c: nat :: IsLastContentLine(lines, c) ==> r == Success(lines[..c] + [EnsureNewline(lines[c])] + [""])
  {
    var trimCount := 0;
    while trimCount < |lines|
      invariant 0 <= trimCount <= |lines|
      invariant forall i :: |lines| - trimCount <= i < |lines| ==> IsBlank(lines[i])
    {
      if IsBlank(lines[|lines| - 1 - trimCount]) {
        trimCount := trimCount + 1;
      } else {
        break;
      }
    }
    var cutoffIndex := |lines| - trimCount;
    var newLines := lines[..cutoffIndex];
    if newLines == [] {
      return Failure(IndexError);
    }
    var last := |newLines| - 1;
    if !HasTrailingNewline(newLines[last]) {
      newLines := newLines[last := newLines[last] + "\n"];
    }
    newLines := newLines + [""];
    r := Success(newLines);
    assert newLines == lines[..last] + [EnsureNewline(lines[last])] + [""];
  }

  /** The whole script: read the file, process its lines, write them back. */
  method RewriteFile(text: string) returns (r: Result<string, Error>)
    ensures r == Normalised(text)
  {
    var lines := ReadLines(text);
    ReadLinesRoundTrip(text);
    var processed := ProcessLines(lines);
    if processed.Failure? {
      BlankLinesMeanBlankText(lines);
      return Failure(IndexError);
    }
    var c := LastContentLine(lines);
    CutMeansNormalised(lines, c);
    r := Success(Concat(processed.value));
  }

  /******* Its meaning, in terms of characters *******/

  /** The last character that is not a space. */
  ghost function LastInk(text: string): (p: nat)
    requires !AllSpace(text)
    ensures p < |text| && !IsSpace(text[p]) && forall k :: p < k < |text| ==> IsSpace(text[k])
  {
    var last := |text| - 1;
    if !IsSpace(text[last]) then last else LastInk(text[..last])
  }

  /** Where the line that contains position p stops, its newline excluded. */
  ghost function LineStop(text: string, p: nat): (q: nat)
    requires p <= |text|
    ensures p <= q <= |text| && NoNewline(text, p, q) && (q == |text| || text[q] == '\n')
    decreases |text| - p
  {
    if p == |text| || text[p] == '\n' then p else LineStop(text, p + 1)
  }

  /** The text up to the end of the last line with content, and one newline. */
  ghost function Normalised(text: string): Result<string, Error> {
    if AllSpace(text) then Failure(IndexError)
    else Success(text[..LineStop(text, LastInk(text))] + "\n")
  }

  lemma {:induction false} BlankLinesMeanBlankText(lines: seq<string>)
    requires forall i :: 0 <= i < |lines| ==> IsBlank(lines[i])
    ensures AllSpace(Concat(lines))
  {
    if lines != [] {
      forall i | 0 <= i < |lines[1..]| ensures IsBlank(lines[1..][i]) {
        assert lines[1..][i] == lines[i + 1];
      }
      BlankLinesMeanBlankText(lines[1..]);
    }
  }

  lemma LastContentLine(lines: seq<string>) returns (c: nat)
    requires exists i :: 0 <= i < |lines| && !IsBlank(lines[i])
    ensures IsLastContentLine(lines, c)
  {
    c := |lines|;
    while IsBlank(lines[c - 1])
      invariant 0 < c <= |lines|
      invariant forall i :: c <= i < |lines| ==> IsBlank(lines[i])
      decreases c
    {
      c := c - 1;
    }
    c := c - 1;
  }

  /** A text split around the body of its last line with content. */
  lemma NormalisedAt(before: string, body: string, after: string)
    requires !AllSpace(body) && NoNewline(body, 0, |body|)
    requires AllSpace(after) && (after == "" || after[0] == '\n')
    ensures Normalised(before + body + after) == Success(before + body + "\n")
  {
    var text := before + body + after;
    var stop := |before| + |body|;
    var i :| 0 <= i < |body| && !IsSpace(body[i]);
    assert text[|before| + i] == body[i];
    assert forall k :: stop <= k < |text| ==> text[k] == after[k - stop];
    assert forall k :: |before| <= k < stop ==> text[k] == body[k - |before|];
    var p := LastInk(text);
    assert |before| + i <= p < stop;
    assert NoNewline(text, |before|, stop);
    var q := LineStop(text, p);
    assert stop < |text| ==> text[stop] == after[0];
    assert q == stop;
    assert text[..stop] == before + body;
  }

  /** The lines around the last one with content, as one text. */
  lemma SplitAt(lines: seq<string>, c: nat)
    requires c < |lines|
    ensures Concat(lines) == Concat(lines[..c]) + lines[c] + Concat(lines[c + 1..])
  {
    assert lines == lines[..c] + lines[c..] && lines[c..][1..] == lines[c + 1..];
    ConcatAppend(lines[..c], lines[c..]);
  }

  lemma ConcatLast(before: seq<string>, line: string)
    ensures Concat(before + [line] + [""]) == Concat(before) + line
  {
    assert before + [line] + [""] == before + [line, ""] && [line, ""][1..] == [""];
    assert Concat([""]) == "" && Concat([line, ""]) == line + Concat([""]);
    ConcatAppend(before, [line, ""]);
  }

  lemma CutMeansNormalised(lines: seq<string>, c: nat)
    requires AreLines(lines) && IsLastContentLine(lines, c)
    ensures Normalised(Concat(lines)) == Success(Concat(lines[..c] + [EnsureNewline(lines[c])] + [""]))
  {
    var line, before, tail := lines[c], Concat(lines[..c]), Concat(lines[c + 1..]);
    SplitAt(lines, c);
    ConcatLast(lines[..c], EnsureNewline(line));
    BlankLinesMeanBlankText(lines[c + 1..]);
    assert IsLine(line);
    if HasTrailingNewline(line) {
      LineWithNewline(before, line, tail);
    } else {
      assert lines[c + 1..] == [] && tail == "";
      NormalisedAt(before, line, tail);
      assert before + line + tail == before + line;
      assert before + EnsureNewline(line) == before + line + "\n";
    }
  }

  lemma LineWithNewline(before: string, line: string, tail: string)
    requires IsLine(line) && HasTrailingNewline(line) && !IsBlank(line) && AllSpace(tail)
    ensures Normalised(before + line + tail) == Success(before + line)
  {
    var body := line[..|line| - 1];
    assert line == body + "\n";
    NormalisedAt(before, body, "\n" + tail);
    assert before + body + ("\n" + tail) == before + line + tail;
    assert before + body + "\n" == before + line;
  }

  /******* What the script promises *******/

  lemma NewlineIsSpace(text: string, p: nat, stop: nat)
    requires p < |text| && !IsSpace(text[p]) && p <= stop <= |text| && (stop == |text| || text[stop] == '\n')
    ensures p < stop
  {
    assert IsSpace('\n');
  }

  /** Everything through the last line with content is kept, only spaces follow it, and the result ends in
      exactly one newline, which is the original one where there was one. */
  lemma NormalisedKeepsContent(text: string)
    requires !AllSpace(text)
    ensures exists stop :: 0 < stop <= |text| && text[stop - 1] != '\n' && IsRest(text, stop)
              && Normalised(text) == Success(text[..stop] + "\n")
  {
    var p := LastInk(text);
    var stop := LineStop(text, p);
    NewlineIsSpace(text, p, stop);
    assert IsRest(text, stop);
  }

  /** From `stop` on there is nothing, or a newline and then only spaces. */
  ghost predicate IsRest(text: string, stop: nat)
    requires stop <= |text|
  {
    (stop < |text| ==> text[stop] == '\n') && forall i :: stop <= i < |text| ==> IsSpace(text[i])
  }

  /** Running the script a second time changes nothing. */
  lemma NormalisedIdempotent(text: string)
    requires !AllSpace(text)
    ensures Normalised(Normalised(text).value) == Normalised(text)
  {
    var p := LastInk(text);
    var stop := LineStop(text, p);
    var body := text[p..stop];
    NewlineIsSpace(text, p, stop);
    assert body[0] == text[p];
    assert text[..p] + body == text[..stop];
    NormalisedAt(text[..p], body, "\n");
  }

  /** The script fails exactly on texts without content. */
  lemma FailsExactlyOnBlankText(text: string)
    ensures Normalised(text).Failure? <==> forall line :: line in ReadLines(text) ==> IsBlank(line)
  {
    var lines := ReadLines(text);
    ReadLinesRoundTrip(text);
    if forall line :: line in lines ==> IsBlank(line) {
      BlankLinesMeanBlankText(lines);
    } else {
      var line :| line in lines && !IsBlank(line);
      var c := LastContentLine(lines);
      CutMeansNormalised(lines, c);
    }
  }

  /******* On ASCII texts, character by character *******/

  /** Blank, tab, newline, vertical tab, form feed or carriage return. */
  ghost predicate IsAsciiSpace(c: char) {
    c == ' ' || c == '\t' || c == '\n' || c == '\U{0B}' || c == '\U{0C}' || c == '\r'
  }

  ghost predicate OnlyAsciiSpaces(s: string) {
    forall i :: 0 <= i < |s| ==> IsAsciiSpace(s[i])
  }

  /** A printable ASCII character other than the blank. */
  ghost predicate IsVisible(c: char) {
    '!' <= c <= '~'
  }

  lemma {:induction false} AsciiSpacesAreSpaces(s: string)
    requires OnlyAsciiSpaces(s)
    ensures AllSpace(s)
  {
  }

  /** The body ends in a visible character, `blanks` are the rest of its line, and only white space follows: the
      script keeps body and blanks, and ends the text there with one newline. */
  lemma {:induction false} AsciiTextIsCut(body: string, blanks: string, tail: string)
    requires body != "" && IsVisible(body[|body| - 1])
    requires OnlyAsciiSpaces(blanks) && NoNewline(blanks, 0, |blanks|)
    requires OnlyAsciiSpaces(tail) && (tail == "" || tail[0] == '\n')
    ensures Normalised(body + blanks + tail) == Success(body + blanks + "\n")
  {
    var last := |body| - 1;
    var line := [body[last]] + blanks;
    assert line[0] == body[last];
    AsciiSpacesAreSpaces(tail);
    NormalisedAt(body[..last], line, tail);
    assert body == body[..last] + [body[last]];
    assert body + blanks == body[..last] + line;
    assert body + blanks + tail == body[..last] + line + tail;
  }

  /** The script fails on a text of white space only. */
  lemma {:induction false} AsciiSpacesFail(text: string)
    requires OnlyAsciiSpaces(text)
    ensures Normalised(text) == Failure(IndexError)
  {
    AsciiSpacesAreSpaces(text);
  }

  /** Whatever characters the text has, all of it up to a visible character is kept. */
  lemma {:induction false} VisibleIsKept(text: string, p: nat)
    requires p < |text| && IsVisible(text[p])
    ensures Normalised(text).Success? && text[..p + 1] <= Normalised(text).value
  {
    assert !IsSpace(text[p]);
    var stop := LineStop(text, LastInk(text));
    NewlineIsSpace(text, LastInk(text), stop);
    assert text[..p + 1] <= text[..stop] + "\n";
  }
}
