/** The rewriter of the release file: one loop patches operator versions, a second one drops operators. */
module ReleaseFile {
  import opened Wrappers
  import opened Lines
  import opened Strings

  datatype Error =
    | OperatorsNotFound(names: set<string>)
    | SkippedNotFound(names: set<string>)
    | BadTemplate(version: string)

  datatype Operator = Operator(name: string, version: string)

  /******* Text operations of the script *******/

  /** `name in line` */
  predicate Contains(line: string, name: string) {
    exists i :: 0 <= i <= |line| && OccursAt(line, name, i)
  }

  predicate OccursAt(line: string, name: string, i: nat) {
    i + |name| <= |line| && line[i..i + |name|] == name
  }

  /** `line.rstrip("\n")` */
  function RStrip(line: string): string {
    if line != "" && line[|line| - 1] == '\n' then RStrip(line[..|line| - 1]) else line
  }

  function ContentLength(line: string): nat {
    if line != "" && line[|line| - 1] == '\n' then |line| - 1 else |line|
  }

  /** The first colon that another character of the line follows, or the length of the line. */
  function ColonIndex(line: string, from: nat): (i: nat)
    requires from <= |line|
    ensures from <= i <= |line|
    ensures i < |line| ==> i + 1 < ContentLength(line) && line[i] == ':'
    ensures forall k :: from <= k < i && k + 1 < ContentLength(line) ==> line[k] != ':'
    decreases |line| - from
  {
    if from == |line| then from
    else if line[from] == ':' && from + 1 < ContentLength(line) then from
    else ColonIndex(line, from + 1)
  }

  /** How `re.sub` reads a new version: as a template that yields a text for each matched text, or as no template. */
  type Templates = string -> Option<string -> string>

  /** `re.sub(":.+$", f": {version}", line)` on a line whose only newline is its last character. */
  function ReplaceVersion(line: string, template: string -> string): string {
    var i := ColonIndex(line, 0);
    if i == |line| then line
    else line[..i] + ": " + template(line[i..ContentLength(line)]) + line[ContentLength(line)..]
  }

  /******* What the loops compute *******/

  function Names(operators: seq<Operator>): seq<string> {
    seq(|operators|, i requires 0 <= i < |operators| => operators[i].name)
  }

  /** The first of the names that occurs in the line, or the number of names. */
  function FirstMatch(line: string, names: seq<string>): (k: nat)
    ensures k <= |names|
    ensures k < |names| ==> Contains(line, names[k])
    ensures forall j :: 0 <= j < k ==> !Contains(line, names[j])
  {
    if names == [] || Contains(line, names[0]) then 0 else 1 + FirstMatch(line, names[1..])
  }

  lemma {:induction false} FirstMatchUnique(line: string, names: seq<string>, k: nat)
    requires k <= |names| && (k < |names| ==> Contains(line, names[k]))
    requires forall j :: 0 <= j < k ==> !Contains(line, names[j])
    ensures k == FirstMatch(line, names)
  {
  }

  /** The version waiting to be written when line i is reached; empty when line i is searched for names. */
  ghost function Pending(lines: seq<string>, operators: seq<Operator>, i: nat): string
    requires i <= |lines|
  {
    if i == 0 || Pending(lines, operators, i - 1) != "" then ""
    else
      var k := FirstMatch(lines[i - 1], Names(operators));
      if k < |operators| then operators[k].version else ""
  }

  ghost function PatchedLine(lines: seq<string>, operators: seq<Operator>, templates: Templates, i: nat): string
    requires i < |lines|
  {
    var version := Pending(lines, operators, i);
    if version != "" && templates(version).Some? then ReplaceVersion(lines[i], templates(version).value)
    else lines[i]
  }

  ghost function PatchedRelease(lines: seq<string>, operators: seq<Operator>, templates: Templates, n: nat): seq<string>
    requires n <= |lines|
  {
    seq(n, i requires 0 <= i < n => RStrip(PatchedLine(lines, operators, templates, i)))
  }

  /** The first version that should be written before line n and is no template. */
  ghost function BadVersion(lines: seq<string>, operators: seq<Operator>, templates: Templates, n: nat): Option<string>
    requires n <= |lines|
  {
    if n == 0 then None
    else if BadVersion(lines, operators, templates, n - 1).Some? then BadVersion(lines, operators, templates, n - 1)
    else
      var version := Pending(lines, operators, n - 1);
      if version != "" && templates(version).None? then Some(version) else None
  }

  /** Line i is searched and the name is the first that occurs in it. */
  ghost predicate MatchedAt(lines: seq<string>, operators: seq<Operator>, i: nat, name: string)
    requires i < |lines|
  {
    && Pending(lines, operators, i) == ""
    && FirstMatch(lines[i], Names(operators)) < |operators|
    && operators[FirstMatch(lines[i], Names(operators))].name == name
  }

  ghost function PatchedOps(lines: seq<string>, operators: seq<Operator>, n: nat): set<string>
    requires n <= |lines|
  {
    if n == 0 then {}
    else
      var k := FirstMatch(lines[n - 1], Names(operators));
      PatchedOps(lines, operators, n - 1)
      + if Pending(lines, operators, n - 1) == "" && k < |operators| then {operators[k].name} else {}
  }

  /** The number of lines still to be skipped when line i is reached. */
  ghost function SkipLines(lines: seq<string>, skipOps: seq<string>, i: nat): nat
    requires i <= |lines|
  {
    if i == 0 then 0
    else
      var skipLines := SkipLines(lines, skipOps, i - 1);
      if skipLines > 0 then skipLines - 1
      else if FirstMatch(lines[i - 1], skipOps) < |skipOps| then 1
      else 0
  }

  ghost predicate Dropped(lines: seq<string>, skipOps: seq<string>, i: nat)
    requires i < |lines|
  {
    SkipLines(lines, skipOps, i) > 0 || FirstMatch(lines[i], skipOps) < |skipOps|
  }

  ghost function KeptLines(lines: seq<string>, skipOps: seq<string>, n: nat): seq<string>
    requires n <= |lines|
  {
    if n == 0 then []
    else KeptLines(lines, skipOps, n - 1) + if Dropped(lines, skipOps, n - 1) then [] else [lines[n - 1]]
  }

  ghost predicate SkippedAt(lines: seq<string>, skipOps: seq<string>, i: nat, name: string)
    requires i < |lines|
  {
    && SkipLines(lines, skipOps, i) == 0
    && FirstMatch(lines[i], skipOps) < |skipOps|
    && skipOps[FirstMatch(lines[i], skipOps)] == name
  }

  ghost function ValidSkipOps(lines: seq<string>, skipOps: seq<string>, n: nat): set<string>
    requires n <= |lines|
  {
    if n == 0 then {}
    else
      var k := FirstMatch(lines[n - 1], skipOps);
      ValidSkipOps(lines, skipOps, n - 1)
      + if SkipLines(lines, skipOps, n - 1) == 0 && k < |skipOps| then {skipOps[k]} else {}
  }

  ghost function Patched(lines: seq<string>, operators: seq<Operator>, skipOps: seq<string>, templates: Templates)
    : Result<string, Error>
  {
    var badVersion := BadVersion(lines, operators, templates, |lines|);
    var opsNotPatched := Elems(Names(operators)) - PatchedOps(lines, operators, |lines|);
    if badVersion.Some? then Failure(BadTemplate(badVersion.value))
    else if opsNotPatched != {} then Failure(OperatorsNotFound(opsNotPatched))
    else
      var release := PatchedRelease(lines, operators, templates, |lines|);
      var opsNotSkipped := Elems(skipOps) - ValidSkipOps(release, skipOps, |release|);
      if opsNotSkipped != {} then Failure(SkippedNotFound(opsNotSkipped))
      else Success(Join(KeptLines(release, skipOps, |release|), "\n"))
  }

  /******* The script *******/

  method Patch(text: string, operators: seq<Operator>, skipOps: seq<string>, templates: Templates)
    returns (r: Result<string, Error>)
    ensures r == Patched(ReadLines(text), operators, skipOps, templates)
  {
    var lines := ReadLines(text);
    var patched, patchedOps := PatchVersions(lines, operators, templates);
    if patched.Failure? {
      return Failure(patched.error);
    }
    var release := patched.value;
    var opsNotPatched := (set op | op in Names(operators)) - (set op | op in patchedOps);
    assert opsNotPatched == Elems(Names(operators)) - Elems(patchedOps);
    if opsNotPatched != {} {
      return Failure(OperatorsNotFound(opsNotPatched));
    }
    var releaseContents, validSkipOps := FilterSkipped(release, skipOps);
    var opsNotSkipped := (set op | op in skipOps) - (set op | op in validSkipOps);
    assert opsNotSkipped == Elems(skipOps) - Elems(validSkipOps);
    if opsNotSkipped != {} {
      return Failure(SkippedNotFound(opsNotSkipped));
    }
    r := Success(Join(releaseContents, "\n"));
  }

  /** `for name in names: if name in line: ... break`; the number of names when the loop runs through. */
  method SearchNames(line: string, names: seq<string>) returns (k: nat)
    ensures k == FirstMatch(line, names)
  {
    k := 0;
    while k < |names| && !Contains(line, names[k])
      invariant 0 <= k <= |names|
      invariant forall j :: 0 <= j < k ==> !Contains(line, names[j])
    {
      k := k + 1;
    }
    FirstMatchUnique(line, names, k);
  }

  /** One round of the first loop that searches its line. */
  lemma {:induction false} SearchRound(lines: seq<string>, operators: seq<Operator>, templates: Templates, n: nat)
    requires n < |lines| && Pending(lines, operators, n) == ""
    ensures var k := FirstMatch(lines[n], Names(operators));
            && Pending(lines, operators, n + 1) == (if k < |operators| then operators[k].version else "")
            && PatchedOps(lines, operators, n + 1)
               == PatchedOps(lines, operators, n) + (if k < |operators| then {operators[k].name} else {})
    ensures PatchedRelease(lines, operators, templates, n + 1)
            == PatchedRelease(lines, operators, templates, n) + [RStrip(lines[n])]
    ensures BadVersion(lines, operators, templates, n + 1) == BadVersion(lines, operators, templates, n)
  {
  }

  /** One round of the first loop that writes a pending version. */
  lemma {:induction false} WriteRound(lines: seq<string>, operators: seq<Operator>, templates: Templates, n: nat)
    requires n < |lines| && Pending(lines, operators, n) != ""
    requires templates(Pending(lines, operators, n)).Some?
    ensures Pending(lines, operators, n + 1) == ""
    ensures PatchedOps(lines, operators, n + 1) == PatchedOps(lines, operators, n)
    ensures PatchedRelease(lines, operators, templates, n + 1)
            == PatchedRelease(lines, operators, templates, n)
               + [RStrip(ReplaceVersion(lines[n], templates(Pending(lines, operators, n)).value))]
    ensures BadVersion(lines, operators, templates, n + 1) == BadVersion(lines, operators, templates, n)
  {
  }

  lemma {:induction false} BadVersionStays(
      lines: seq<string>, operators: seq<Operator>, templates: Templates, n: nat, m: nat)
    requires n <= m <= |lines| && BadVersion(lines, operators, templates, n).Some?
    ensures BadVersion(lines, operators, templates, m) == BadVersion(lines, operators, templates, n)
    decreases m - n
  {
    if n < m {
      BadVersionStays(lines, operators, templates, n + 1, m);
    }
  }

  /** The variables of the first loop when line n is reached. */
  ghost predicate LoopState(
      lines: seq<string>, operators: seq<Operator>, templates: Templates, n: nat,
      patchedRelease: seq<string>, patchedOps: seq<string>, patchVersion: string)
  {
    && n <= |lines|
    && patchedRelease == PatchedRelease(lines, operators, templates, n)
    && Elems(patchedOps) == PatchedOps(lines, operators, n)
    && patchVersion == Pending(lines, operators, n)
    && BadVersion(lines, operators, templates, n) == None
  }

  lemma {:induction false} SearchKeepsState(
      lines: seq<string>, operators: seq<Operator>, templates: Templates, n: nat,
      patchedRelease: seq<string>, patchedOps: seq<string>)
    requires LoopState(lines, operators, templates, n, patchedRelease, patchedOps, "") && n < |lines|
    ensures var k := FirstMatch(lines[n], Names(operators));
            if k < |operators| then
              LoopState(lines, operators, templates, n + 1, patchedRelease + [RStrip(lines[n])],
                        patchedOps + [operators[k].name], operators[k].version)
            else
              LoopState(lines, operators, templates, n + 1, patchedRelease + [RStrip(lines[n])], patchedOps, "")
  {
    SearchRound(lines, operators, templates, n);
    var k := FirstMatch(lines[n], Names(operators));
    if k < |operators| {
      ElemsConcat(patchedOps, [operators[k].name]);
    }
  }

  lemma {:induction false} WriteKeepsState(
      lines: seq<string>, operators: seq<Operator>, templates: Templates, n: nat,
      patchedRelease: seq<string>, patchedOps: seq<string>, version: string)
    requires LoopState(lines, operators, templates, n, patchedRelease, patchedOps, version) && n < |lines|
    requires version != "" && templates(version).Some?
    ensures LoopState(lines, operators, templates, n + 1,
                      patchedRelease + [RStrip(ReplaceVersion(lines[n], templates(version).value))], patchedOps, "")
  {
    WriteRound(lines, operators, templates, n);
  }

  lemma {:induction false} BadVersionFound(
      lines: seq<string>, operators: seq<Operator>, templates: Templates, n: nat,
      patchedRelease: seq<string>, patchedOps: seq<string>, version: string)
    requires LoopState(lines, operators, templates, n, patchedRelease, patchedOps, version) && n < |lines|
    requires version != "" && templates(version).None?
    ensures BadVersion(lines, operators, templates, |lines|) == Some(version)
  {
    BadVersionStays(lines, operators, templates, n + 1, |lines|);
  }

  /** The first loop: a matched name arms the version, and the next line receives it. */
  method PatchVersions(lines: seq<string>, operators: seq<Operator>, templates: Templates)
    returns (patched: Result<seq<string>, Error>, patchedOps: seq<string>)
    ensures var badVersion := BadVersion(lines, operators, templates, |lines|);
            patched == if badVersion.Some? then Failure(BadTemplate(badVersion.value))
                       else Success(PatchedRelease(lines, operators, templates, |lines|))
    ensures patched.Success? ==> Elems(patchedOps) == PatchedOps(lines, operators, |lines|)
  {
    var patchedRelease := [];
    patchedOps := [];
    var patchVersion := "";
    for n := 0 to |lines|
      invariant LoopState(lines, operators, templates, n, patchedRelease, patchedOps, patchVersion)
    {
      var line := lines[n];
      if patchVersion != "" {
        var template := templates(patchVersion);
        if template.None? {
          BadVersionFound(lines, operators, templates, n, patchedRelease, patchedOps, patchVersion);
          return Failure(BadTemplate(patchVersion)), patchedOps;
        }
        WriteKeepsState(lines, operators, templates, n, patchedRelease, patchedOps, patchVersion);
        line := ReplaceVersion(line, template.value);
        patchVersion := "";
      } else {
        SearchKeepsState(lines, operators, templates, n, patchedRelease, patchedOps);
        var k := SearchNames(line, Names(operators));
        if k < |operators| {
          patchVersion := operators[k].version;
          patchedOps := patchedOps + [operators[k].name];
        }
      }
      patchedRelease := patchedRelease + [RStrip(line)];
    }
    patched := Success(patchedRelease);
  }

  /** The second loop: a matched name drops its own line and the next one. */
  method FilterSkipped(patchedRelease: seq<string>, skipOps: seq<string>)
    returns (releaseContents: seq<string>, validSkipOps: seq<string>)
    ensures releaseContents == KeptLines(patchedRelease, skipOps, |patchedRelease|)
    ensures Elems(validSkipOps) == ValidSkipOps(patchedRelease, skipOps, |patchedRelease|)
  {
    releaseContents := [];
    validSkipOps := [];
    var skipLines := 0;
    for n := 0 to |patchedRelease|
      invariant releaseContents == KeptLines(patchedRelease, skipOps, n)
      invariant Elems(validSkipOps) == ValidSkipOps(patchedRelease, skipOps, n)
      invariant skipLines == SkipLines(patchedRelease, skipOps, n)
    {
      var line := patchedRelease[n];
      if skipLines != 0 {
        skipLines := skipLines - 1;
      } else {
        var k := SearchNames(line, skipOps);
        if k < |skipOps| {
          skipLines := 1;
          ElemsConcat(validSkipOps, [skipOps[k]]);
          validSkipOps := validSkipOps + [skipOps[k]];
        } else {
          releaseContents := releaseContents + [line];
        }
      }
    }
  }

  lemma {:induction false} NamesMembers(operators: seq<Operator>)
    ensures forall name :: name in Names(operators) <==> exists op :: op in operators && op.name == name
  {
    forall op | op in operators ensures op.name in Names(operators) {
      var i :| 0 <= i < |operators| && operators[i] == op;
      assert Names(operators)[i] == op.name;
    }
  }

  lemma {:induction false} PatchedOpsMeaning(lines: seq<string>, operators: seq<Operator>, n: nat, name: string)
    requires n <= |lines|
    ensures name in PatchedOps(lines, operators, n) <==>
            exists i :: 0 <= i < n && MatchedAt(lines, operators, i, name)
  {
    if n > 0 {
      PatchedOpsMeaning(lines, operators, n - 1, name);
      assert name in PatchedOps(lines, operators, n) <==>
        name in PatchedOps(lines, operators, n - 1) || MatchedAt(lines, operators, n - 1, name);
    }
  }

  lemma {:induction false} MatchedContains(lines: seq<string>, operators: seq<Operator>, i: nat, name: string)
    requires i < |lines| && MatchedAt(lines, operators, i, name)
    ensures Contains(lines[i], name)
  {
    var k := FirstMatch(lines[i], Names(operators));
    assert Names(operators)[k] == name;
  }

  lemma {:induction false} ValidSkipOpsMeaning(lines: seq<string>, skipOps: seq<string>, n: nat, name: string)
    requires n <= |lines|
    ensures name in ValidSkipOps(lines, skipOps, n) <==>
            exists i :: 0 <= i < n && SkippedAt(lines, skipOps, i, name) && Contains(lines[i], name)
  {
    if n > 0 {
      ValidSkipOpsMeaning(lines, skipOps, n - 1, name);
    }
  }

  /******* Any file at all *******/

  /** The patch loop leaves line i as it is, up to its newline. */
  ghost predicate Unaltered(lines: seq<string>, operators: seq<Operator>, templates: Templates, i: nat)
    requires i < |lines|
  {
    PatchedRelease(lines, operators, templates, |lines|)[i] == RStrip(lines[i])
  }

  /** Line i receives the version of an operator that the search found on the line before. */
  ghost predicate ReceivesVersion(
      lines: seq<string>, operators: seq<Operator>, templates: Templates, i: nat, op: Operator)
    requires i < |lines|
  {
    && i > 0 && op in operators
    && MatchedAt(lines, operators, i - 1, op.name) && Contains(lines[i - 1], op.name)
    && templates(op.version).Some?
    && PatchedRelease(lines, operators, templates, |lines|)[i]
       == RStrip(ReplaceVersion(lines[i], templates(op.version).value))
  }

  lemma {:induction false} NotPendingUnaltered(
      lines: seq<string>, operators: seq<Operator>, templates: Templates, i: nat)
    requires i < |lines| && Pending(lines, operators, i) == ""
    ensures Unaltered(lines, operators, templates, i)
  {
  }

  /** A version is pending only right after a searched line that names its operator, and only for one line. */
  lemma {:induction false} PendingOrigin(
      lines: seq<string>, operators: seq<Operator>, templates: Templates, i: nat) returns (op: Operator)
    requires i < |lines| && Pending(lines, operators, i) != ""
    ensures i > 0 && Pending(lines, operators, i - 1) == "" && Pending(lines, operators, i + 1) == ""
    ensures op in operators && op.version == Pending(lines, operators, i)
    ensures Unaltered(lines, operators, templates, i) || ReceivesVersion(lines, operators, templates, i, op)
  {
    var k := FirstMatch(lines[i - 1], Names(operators));
    op := operators[k];
    assert Names(operators)[k] == op.name;
  }

  /** The patch loop keeps the lines' number and order; it alters a line only when the line before it was searched
      and matched an operator, whose version it receives; and it never alters two adjacent lines. */
  lemma {:induction false} PatchingIsLocal(
      lines: seq<string>, operators: seq<Operator>, templates: Templates, i: nat)
    requires i < |lines|
    ensures |PatchedRelease(lines, operators, templates, |lines|)| == |lines|
    ensures Unaltered(lines, operators, templates, i)
            || exists op :: ReceivesVersion(lines, operators, templates, i, op)
    ensures i + 1 < |lines| ==>
              Unaltered(lines, operators, templates, i) || Unaltered(lines, operators, templates, i + 1)
  {
    if Pending(lines, operators, i) == "" {
      NotPendingUnaltered(lines, operators, templates, i);
    } else {
      var op := PendingOrigin(lines, operators, templates, i);
      if i + 1 < |lines| {
        NotPendingUnaltered(lines, operators, templates, i + 1);
      }
    }
  }

  /** If a version is to be written to line i, it is a template. */
  ghost predicate Writable(lines: seq<string>, operators: seq<Operator>, templates: Templates, i: nat)
    requires i < |lines|
  {
    Pending(lines, operators, i) != "" ==> templates(Pending(lines, operators, i)).Some?
  }

  lemma {:induction false} BadVersionMeaning(
      lines: seq<string>, operators: seq<Operator>, templates: Templates, n: nat)
    requires n <= |lines|
    ensures BadVersion(lines, operators, templates, n).None? <==>
            forall i :: 0 <= i < n ==> Writable(lines, operators, templates, i)
  {
    if n > 0 {
      BadVersionMeaning(lines, operators, templates, n - 1);
      assert BadVersion(lines, operators, templates, n).None? <==>
        BadVersion(lines, operators, templates, n - 1).None? && Writable(lines, operators, templates, n - 1);
    }
  }

  ghost predicate StrictlyIncreasing(indices: seq<nat>) {
    forall a, b :: 0 <= a < b < |indices| ==> indices[a] < indices[b]
  }

  /** The filter loop yields a subsequence, without the lines that name a skipped operator. */
  lemma {:induction false} FilteringIsSubsequence(lines: seq<string>, skipOps: seq<string>, n: nat)
    returns (indices: seq<nat>)
    requires n <= |lines|
    ensures StrictlyIncreasing(indices) && (forall a :: 0 <= a < |indices| ==> indices[a] < n)
    ensures |KeptLines(lines, skipOps, n)| == |indices|
    ensures forall a :: 0 <= a < |indices| ==> KeptLines(lines, skipOps, n)[a] == lines[indices[a]]
    ensures forall a, name :: 0 <= a < |indices| && name in skipOps ==> !Contains(lines[indices[a]], name)
    ensures forall i :: 0 <= i < n ==> (i in indices <==> !Dropped(lines, skipOps, i))
  {
    indices := [];
    if n > 0 {
      indices := FilteringIsSubsequence(lines, skipOps, n - 1);
      if !Dropped(lines, skipOps, n - 1) {
        indices := indices + [n - 1];
      }
    }
  }

  /** Success means exactly that every version to be written is a template, and that every requested operator and
      every skipped name was matched. */
  lemma {:induction false} SucceedsExactlyWhenAllMatched(
      lines: seq<string>, operators: seq<Operator>, skipOps: seq<string>, templates: Templates)
    ensures var release := PatchedRelease(lines, operators, templates, |lines|);
            Patched(lines, operators, skipOps, templates).Success? <==>
            && (forall i :: 0 <= i < |lines| ==> Writable(lines, operators, templates, i))
            && (forall op :: op in operators ==>
                  exists i :: 0 <= i < |lines| && MatchedAt(lines, operators, i, op.name)
                    && Contains(lines[i], op.name))
            && (forall name :: name in skipOps ==>
                  exists i :: 0 <= i < |release| && SkippedAt(release, skipOps, i, name) && Contains(release[i], name))
  {
    var release := PatchedRelease(lines, operators, templates, |lines|);
    BadVersionMeaning(lines, operators, templates, |lines|);
    AllPatchedMeaning(lines, operators);
    AllSkippedMeaning(release, skipOps);
  }

  lemma {:induction false} AllPatchedMeaning(lines: seq<string>, operators: seq<Operator>)
    ensures Elems(Names(operators)) - PatchedOps(lines, operators, |lines|) == {} <==>
            forall op :: op in operators ==>
              exists i :: 0 <= i < |lines| && MatchedAt(lines, operators, i, op.name) && Contains(lines[i], op.name)
  {
    var patched := PatchedOps(lines, operators, |lines|);
    NamesMembers(operators);
    forall name { PatchedOpsMeaning(lines, operators, |lines|, name); }
    forall i, name | 0 <= i < |lines| && MatchedAt(lines, operators, i, name) ensures Contains(lines[i], name) {
      MatchedContains(lines, operators, i, name);
    }
    assert Elems(Names(operators)) - patched == {} <==> forall op :: op in operators ==> op.name in patched;
  }

  lemma {:induction false} AllSkippedMeaning(release: seq<string>, skipOps: seq<string>)
    ensures Elems(skipOps) - ValidSkipOps(release, skipOps, |release|) == {} <==>
            forall name :: name in skipOps ==>
              exists i :: 0 <= i < |release| && SkippedAt(release, skipOps, i, name) && Contains(release[i], name)
  {
    var skipped := ValidSkipOps(release, skipOps, |release|);
    forall name { ValidSkipOpsMeaning(release, skipOps, |release|, name); }
    assert Elems(skipOps) - skipped == {} <==> forall name :: name in skipOps ==> name in skipped;
  }
}
