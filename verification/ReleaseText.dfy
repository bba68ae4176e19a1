/** The release file as text: what the script writes, read back line by line, and what its text operations mean. */
module ReleaseText {
  import opened Wrappers
  import opened Lines
  import opened ReleaseFile
  import opened ReleaseSections
  import opened Strings

  /******* Text operations *******/

  /** A name is found in a line exactly when the line is something, the name, and something. */
  lemma {:induction false} ContainsMeaning(line: string, name: string)
    ensures Contains(line, name) <==> exists a, b :: line == a + name + b
  {
    if Contains(line, name) {
      var i :| 0 <= i <= |line| && OccursAt(line, name, i);
      assert line == line[..i] + name + line[i + |name|..];
    }
    if a, b :| line == a + name + b {
      assert line[|a|..|a| + |name|] == name;
      assert OccursAt(line, name, |a|);
    }
  }

  /** Stripping takes the newlines off the end, all of them and nothing else. */
  lemma {:induction false} RStripMeaning(line: string)
    ensures RStrip(line) <= line
    ensures forall i :: |RStrip(line)| <= i < |line| ==> line[i] == '\n'
    ensures RStrip(line) != "" ==> RStrip(line)[|RStrip(line)| - 1] != '\n'
  {
    if line != "" && line[|line| - 1] == '\n' {
      RStripMeaning(line[..|line| - 1]);
    }
  }

  /** A line's end of line: a newline, or nothing on the last line of a file. */
  ghost predicate IsEol(eol: string) {
    eol == "" || eol == "\n"
  }

  /** What follows the first colon is replaced, unless that colon ends the line; the template gets the colon and
      what follows it. */
  lemma {:induction false} ReplaceVersionMeaning(
      front: string, rest: string, eol: string, template: string -> string)
    requires NoChar(front, ':') && NoChar(front, '\n') && NoChar(rest, '\n') && IsEol(eol)
    ensures rest != "" ==>
              ReplaceVersion(front + ":" + rest + eol, template) == front + ": " + template(":" + rest) + eol
    ensures ReplaceVersion(front + ":" + eol, template) == front + ":" + eol
    ensures ReplaceVersion(front + eol, template) == front + eol
  {
    if rest != "" {
      ReplaceAfterColon(front, rest, eol, template);
    }
    NoColonToReplace(front + ":" + eol, |front| + 1);
    NoColonToReplace(front + eol, |front|);
  }

  lemma {:induction false} ReplaceAfterColon(front: string, rest: string, eol: string, template: string -> string)
    requires NoChar(front, ':') && NoChar(rest, '\n') && IsEol(eol) && rest != ""
    ensures ReplaceVersion(front + ":" + rest + eol, template) == front + ": " + template(":" + rest) + eol
  {
    var line := front + ":" + rest + eol;
    assert forall k :: 0 <= k < |front| ==> line[k] == front[k];
    assert line[|front|] == ':';
    var last := |front| + |rest|;
    assert line[last] == rest[|rest| - 1];
    assert ContentLength(line) == last + 1;
    assert ColonIndex(line, 0) == |front|;
    assert line == front + (":" + rest) + eol;
    ThreeParts(line, front, ":" + rest, eol);
  }

  lemma {:induction false} ThreeParts(s: string, a: string, b: string, c: string)
    requires s == a + b + c
    ensures s[..|a|] == a && s[|a|..|a| + |b|] == b && s[|a| + |b|..] == c
  {
  }

  /** All colons come too late in the line for another character to follow. */
  lemma {:induction false} NoColonToReplace(line: string, n: nat)
    requires n <= |line| && ContentLength(line) <= n
    requires forall k :: 0 <= k < n - 1 ==> line[k] != ':'
    ensures ColonIndex(line, 0) == |line|
  {
  }

  /******* The loops as recursion over the lines *******/

  /** The remaining lines, rewritten: a line that matches an operator stays, and the line after it receives the version
      without being searched itself. */
  function RewriteLines(lines: seq<string>, operators: seq<Operator>, templates: Templates): seq<string> {
    if lines == [] then []
    else
      var k := FirstMatch(lines[0], Names(operators));
      if k == |operators| || operators[k].version == "" || |lines| == 1 then
        [RStrip(lines[0])] + RewriteLines(lines[1..], operators, templates)
      else
        var template := templates(operators[k].version);
        var next := if template.Some? then ReplaceVersion(lines[1], template.value) else lines[1];
        [RStrip(lines[0]), RStrip(next)] + RewriteLines(lines[2..], operators, templates)
  }

  /** The remaining lines, filtered: a line that matches a skipped name goes, together with the line after it, which is
      not searched itself. */
  function FilterLines(lines: seq<string>, skipOps: seq<string>): seq<string> {
    if lines == [] then []
    else if FirstMatch(lines[0], skipOps) == |skipOps| then [lines[0]] + FilterLines(lines[1..], skipOps)
    else if |lines| == 1 then []
    else FilterLines(lines[2..], skipOps)
  }

  lemma {:induction false} FilterFrom(lines: seq<string>, skipOps: seq<string>, i: nat)
    requires i <= |lines| && SkipLines(lines, skipOps, i) == 0
    ensures KeptLines(lines, skipOps, |lines|) == KeptLines(lines, skipOps, i) + FilterLines(lines[i..], skipOps)
    decreases |lines| - i
  {
    if i < |lines| {
      assert lines[i..][0] == lines[i] && lines[i..][1..] == lines[i + 1..];
      if FirstMatch(lines[i], skipOps) == |skipOps| {
        FilterFrom(lines, skipOps, i + 1);
      } else if i + 1 < |lines| {
        assert lines[i..][2..] == lines[i + 2..];
        assert SkipLines(lines, skipOps, i + 1) == 1;
        FilterFrom(lines, skipOps, i + 2);
      }
    }
  }

  /** The second loop, with its countdown, is the recursion over the lines. */
  lemma {:induction false} FilterLoopIsRecursion(lines: seq<string>, skipOps: seq<string>)
    ensures KeptLines(lines, skipOps, |lines|) == FilterLines(lines, skipOps)
  {
    FilterFrom(lines, skipOps, 0);
    assert lines[0..] == lines;
  }

  lemma {:induction false} PatchedSnoc(lines: seq<string>, operators: seq<Operator>, templates: Templates, i: nat)
    requires i < |lines|
    ensures PatchedRelease(lines, operators, templates, i + 1)
            == PatchedRelease(lines, operators, templates, i) + [RStrip(PatchedLine(lines, operators, templates, i))]
  {
  }

  lemma {:induction false} RewriteOne(lines: seq<string>, operators: seq<Operator>, templates: Templates, i: nat)
    requires i < |lines| && Pending(lines, operators, i) == ""
    requires i + 1 < |lines| ==> Pending(lines, operators, i + 1) == ""
    ensures RewriteLines(lines[i..], operators, templates)
            == [RStrip(PatchedLine(lines, operators, templates, i))]
               + RewriteLines(lines[i + 1..], operators, templates)
  {
    assert lines[i..][0] == lines[i] && lines[i..][1..] == lines[i + 1..];
  }

  lemma {:induction false} RewriteTwo(lines: seq<string>, operators: seq<Operator>, templates: Templates, i: nat)
    requires i + 1 < |lines| && Pending(lines, operators, i) == "" && Pending(lines, operators, i + 1) != ""
    ensures RewriteLines(lines[i..], operators, templates)
            == [RStrip(PatchedLine(lines, operators, templates, i)),
                RStrip(PatchedLine(lines, operators, templates, i + 1))]
               + RewriteLines(lines[i + 2..], operators, templates)
  {
    assert lines[i..][0] == lines[i] && lines[i..][1] == lines[i + 1] && lines[i..][2..] == lines[i + 2..];
  }

  ghost function PatchedFrom(lines: seq<string>, operators: seq<Operator>, templates: Templates, i: nat): seq<string>
    requires i <= |lines|
    decreases |lines| - i
  {
    if i == |lines| then []
    else [RStrip(PatchedLine(lines, operators, templates, i))] + PatchedFrom(lines, operators, templates, i + 1)
  }

  lemma {:induction false} PatchedFromStart(lines: seq<string>, operators: seq<Operator>, templates: Templates, i: nat)
    requires i <= |lines|
    ensures PatchedRelease(lines, operators, templates, i) + PatchedFrom(lines, operators, templates, i)
            == PatchedFrom(lines, operators, templates, 0)
  {
    if i > 0 {
      PatchedFromStart(lines, operators, templates, i - 1);
      PatchedSnoc(lines, operators, templates, i - 1);
    }
  }

  lemma {:induction false} FromTwo(lines: seq<string>, operators: seq<Operator>, templates: Templates, i: nat)
    requires i + 1 < |lines|
    ensures PatchedFrom(lines, operators, templates, i)
            == [RStrip(PatchedLine(lines, operators, templates, i)),
                RStrip(PatchedLine(lines, operators, templates, i + 1))]
               + PatchedFrom(lines, operators, templates, i + 2)
  {
    var a := RStrip(PatchedLine(lines, operators, templates, i));
    var b := RStrip(PatchedLine(lines, operators, templates, i + 1));
    var rest := PatchedFrom(lines, operators, templates, i + 2);
    assert PatchedFrom(lines, operators, templates, i + 1) == [b] + rest;
    assert [a] + ([b] + rest) == [a, b] + rest;
  }

  lemma {:induction false} RewriteFrom(lines: seq<string>, operators: seq<Operator>, templates: Templates, i: nat)
    requires i <= |lines| && (i < |lines| ==> Pending(lines, operators, i) == "")
    ensures RewriteLines(lines[i..], operators, templates) == PatchedFrom(lines, operators, templates, i)
    decreases |lines| - i
  {
    if i < |lines| {
      if i + 1 < |lines| && Pending(lines, operators, i + 1) != "" {
        RewriteTwo(lines, operators, templates, i);
        FromTwo(lines, operators, templates, i);
        RewriteFrom(lines, operators, templates, i + 2);
      } else {
        RewriteOne(lines, operators, templates, i);
        RewriteFrom(lines, operators, templates, i + 1);
      }
    }
  }

  /** The first loop, with its pending version, is the recursion over the lines. */
  lemma {:induction false} PatchLoopIsRecursion(lines: seq<string>, operators: seq<Operator>, templates: Templates)
    ensures PatchedRelease(lines, operators, templates, |lines|) == RewriteLines(lines, operators, templates)
  {
    RewriteFrom(lines, operators, templates, 0);
    PatchedFromStart(lines, operators, templates, |lines|);
    assert lines[0..] == lines;
  }

  /******* Joined lines, read back *******/

  ghost predicate NewlineFree(lines: seq<string>) {
    forall i :: 0 <= i < |lines| ==> NoChar(lines[i], '\n')
  }

  lemma {:induction false} FirstOfJoined(line: string, rest: string)
    requires NoChar(line, '\n')
    ensures ReadLines(line + "\n" + rest) == [line + "\n"] + ReadLines(rest)
  {
    var text := line + "\n" + rest;
    assert forall k :: 0 <= k < |line| ==> text[k] == line[k];
    FirstLineLengthUnique(text, |line| + 1);
    assert text[..|line| + 1] == line + "\n" && text[|line| + 1..] == rest;
  }

  /** How many of the joined lines leave a trace: nothing follows the newline before an empty last line. */
  ghost function Traces(lines: seq<string>): (n: nat)
    ensures n <= |lines|
  {
    if lines != [] && lines[|lines| - 1] == "" then |lines| - 1 else |lines|
  }

  lemma {:induction false} SingleLine(line: string)
    requires NoChar(line, '\n')
    ensures Stripped(ReadLines(line)) == [line][..Traces([line])]
  {
    if line != "" {
      FirstLineLengthUnique(line, |line|);
      assert line[..|line|] == line && line[|line|..] == "";
      assert ReadLines(line) == [line];
    }
  }

  lemma {:induction false} FirstLineBack(lines: seq<string>)
    requires |lines| > 1 && NoChar(lines[0], '\n')
    ensures Stripped(ReadLines(Join(lines, "\n"))) == [lines[0]] + Stripped(ReadLines(Join(lines[1..], "\n")))
  {
    FirstOfJoined(lines[0], Join(lines[1..], "\n"));
    RStripOfNewline(lines[0]);
  }

  lemma {:induction false} JoinLeavesTraces(lines: seq<string>)
    requires NewlineFree(lines)
    ensures Stripped(ReadLines(Join(lines, "\n"))) == lines[..Traces(lines)]
  {
    if |lines| == 1 {
      assert lines == [lines[0]];
      SingleLine(lines[0]);
    } else if lines != [] {
      JoinLeavesTraces(lines[1..]);
      FirstLineBack(lines);
      TracesOfTail(lines);
    }
  }

  lemma {:induction false} TracesOfTail(lines: seq<string>)
    requires |lines| > 1
    ensures lines[..Traces(lines)] == [lines[0]] + lines[1..][..Traces(lines[1..])]
  {
    assert lines[1..][|lines| - 2] == lines[|lines| - 1];
    assert Traces(lines) == 1 + Traces(lines[1..]);
  }

  /** Read back, the text has these lines; only an empty last line leaves no trace, because nothing follows the newline
      before it. */
  ghost predicate ReadsBackAs(text: string, lines: seq<string>) {
    && (lines == [] ==> text == "")
    && (lines != [] && lines[|lines| - 1] != "" ==> Stripped(ReadLines(text)) == lines)
    && (lines != [] && lines[|lines| - 1] == "" ==> Stripped(ReadLines(text)) == lines[..|lines| - 1])
  }

  /** Lines joined by newlines read back as these lines. */
  lemma {:induction false} JoinReadsBack(lines: seq<string>)
    requires NewlineFree(lines)
    ensures ReadsBackAs(Join(lines, "\n"), lines)
  {
    JoinLeavesTraces(lines);
    assert lines[..|lines|] == lines;
  }

  /******* The file that the script writes *******/

  /** What is written for a version contains no newline. */
  ghost predicate WritesNoNewline(operators: seq<Operator>, templates: Templates) {
    forall op, matched :: op in operators && templates(op.version).Some? ==>
      NoChar(templates(op.version).value(matched), '\n')
  }

  lemma {:induction false} PatchedNewlineFree(text: string, operators: seq<Operator>, templates: Templates)
    requires WritesNoNewline(operators, templates)
    ensures var lines := ReadLines(text); NewlineFree(PatchedRelease(lines, operators, templates, |lines|))
  {
    var lines := ReadLines(text);
    ReadLinesRoundTrip(text);
    forall i | 0 <= i < |lines| ensures NoChar(RStrip(PatchedLine(lines, operators, templates, i)), '\n') {
      RStripOfLine(lines[i]);
      if Pending(lines, operators, i) != "" {
        var op := PendingOrigin(lines, operators, templates, i);
        if templates(op.version).Some? {
          ReplacedNewlineFree(lines[i], templates(op.version).value);
        }
      }
    }
  }

  lemma {:induction false} ReplacedNewlineFree(line: string, template: string -> string)
    requires IsLine(line) && forall matched :: NoChar(template(matched), '\n')
    ensures NoChar(RStrip(ReplaceVersion(line, template)), '\n')
  {
    RStripOfLine(line);
    var i := ColonIndex(line, 0);
    if i < |line| {
      var body := line[..i] + ": " + template(line[i..ContentLength(line)]);
      var eol := line[ContentLength(line)..];
      assert NoChar(body, '\n') && IsEol(eol);
      if eol == "\n" {
        RStripOfNewline(body);
      } else {
        assert body + eol == body && RStrip(body) == body;
      }
    }
  }

  lemma {:induction false} KeptNewlineFree(lines: seq<string>, skipOps: seq<string>, n: nat)
    requires n <= |lines| && NewlineFree(lines)
    ensures NewlineFree(KeptLines(lines, skipOps, n))
  {
    if n > 0 {
      KeptNewlineFree(lines, skipOps, n - 1);
    }
  }

  lemma {:induction false} WrittenText(
      lines: seq<string>, operators: seq<Operator>, skipOps: seq<string>, templates: Templates)
    requires Patched(lines, operators, skipOps, templates).Success?
    ensures var release := PatchedRelease(lines, operators, templates, |lines|);
            Patched(lines, operators, skipOps, templates).value == Join(KeptLines(release, skipOps, |release|), "\n")
  {
  }

  /** On any file: when the script succeeds, reading what it wrote gives the lines it kept. */
  lemma {:induction false} WrittenFileReadsBack(
      text: string, operators: seq<Operator>, skipOps: seq<string>, templates: Templates)
    requires WritesNoNewline(operators, templates)
    requires Patched(ReadLines(text), operators, skipOps, templates).Success?
    ensures var release := PatchedRelease(ReadLines(text), operators, templates, |ReadLines(text)|);
            ReadsBackAs(Patched(ReadLines(text), operators, skipOps, templates).value,
                        KeptLines(release, skipOps, |release|))
  {
    var lines := ReadLines(text);
    var release := PatchedRelease(lines, operators, templates, |lines|);
    PatchedNewlineFree(text, operators, templates);
    KeptNewlineFree(release, skipOps, |release|);
    JoinReadsBack(KeptLines(release, skipOps, |release|));
    WrittenText(lines, operators, skipOps, templates);
  }

  /** Writing versions literally writes no newline, if they contain none. */
  lemma {:induction false} LiteralWritesNoNewline(operators: seq<Operator>, templates: Templates)
    requires forall op :: op in operators ==> Literal(templates, op.version) && NoChar(op.version, '\n')
    ensures WritesNoNewline(operators, templates)
  {
    forall op, matched | op in operators && templates(op.version).Some?
      ensures NoChar(templates(op.version).value(matched), '\n')
    {
      assert Literal(templates, op.version) && NoChar(op.version, '\n');
    }
  }

  /** On a file of sections: the written file has exactly the lines of the updated and remaining sections. */
  lemma {:induction false} RewrittenFileReadsBack(
      text: string, items: seq<Item>, operators: seq<Operator>, templates: Templates, skipOps: seq<string>)
    requires Stripped(ReadLines(text)) == RenderAll(items)
    requires PlainKeys(items) && OperatorsFit(items, operators, templates)
    requires SkipsFit(items, skipOps) && SafeVersions(operators, skipOps)
    requires forall op :: op in operators ==> NoChar(op.version, '\n')
    requires Patched(ReadLines(text), operators, skipOps, templates).Success?
    ensures ReadsBackAs(Patched(ReadLines(text), operators, skipOps, templates).value,
                        RenderAll(RemoveAll(UpdateAll(items, operators), skipOps)))
  {
    var lines, updated := ReadLines(text), UpdateAll(items, operators);
    ReadLinesRoundTrip(text);
    PatchLoopUpdates(lines, items, operators, templates);
    UpdatedFits(items, operators, skipOps);
    FilterLoopRemoves(updated, skipOps);
    LiteralWritesNoNewline(operators, templates);
    WrittenFileReadsBack(text, operators, skipOps, templates);
  }
}
