/** The release file seen as sections: the two line loops compute "update these versions, then remove these
    products", and leave every other line alone. */
module ReleaseSections {
  import opened Wrappers
  import opened Lines
  import opened ReleaseFile
  import opened Strings

  /** A product section is a line that names an operator and a line `key: version`. */
  datatype Item =
    | Other(line: string)
    | Product(name: string, nameLine: string, key: string, version: string)

  function RenderItem(item: Item): seq<string> {
    match item
    case Other(line) => [line]
    case Product(_, nameLine, key, version) => [nameLine, key + ": " + version]
  }

  function RenderAll(items: seq<Item>): seq<string> {
    if items == [] then []
    else RenderAll(items[..|items| - 1]) + RenderItem(items[|items| - 1])
  }

  /** Gives a product the version of the first operator with its name. */
  function UpdateItem(item: Item, operators: seq<Operator>): Item
    decreases |operators|
  {
    if item.Other? || operators == [] then item
    else if operators[0].name == item.name then item.(version := operators[0].version)
    else UpdateItem(item, operators[1..])
  }

  function UpdateAll(items: seq<Item>, operators: seq<Operator>): seq<Item> {
    if items == [] then []
    else UpdateAll(items[..|items| - 1], operators) + [UpdateItem(items[|items| - 1], operators)]
  }

  function RemoveAll(items: seq<Item>, skipOps: seq<string>): seq<Item> {
    if items == [] then []
    else
      var last := items[|items| - 1];
      RemoveAll(items[..|items| - 1], skipOps) + if last.Product? && last.name in skipOps then [] else [last]
  }

  ghost function ProductNames(items: seq<Item>): set<string> {
    set item | item in items && item.Product? :: item.name
  }

  /******* Assumptions on the file *******/

  /** The name occurs in the item's name line if it is the item's operator, and nowhere else. */
  ghost predicate OccursOnlyAtName(item: Item, name: string) {
    match item
    case Other(line) => !Contains(line, name)
    case Product(own, nameLine, key, version) =>
      (Contains(nameLine, name) <==> own == name) && !Contains(key + ": " + version, name)
  }

  /** The version stands for itself as a replacement template, as every version without a backslash does. */
  ghost predicate Literal(templates: Templates, version: string) {
    templates(version).Some? && forall matched :: templates(version).value(matched) == version
  }

  /** Each operator occurs only on its own name line; its new version is not empty and ends in no newline. */
  ghost predicate OperatorsFit(items: seq<Item>, operators: seq<Operator>, templates: Templates) {
    && (forall item, op :: item in items && op in operators ==>
          OccursOnlyAtName(item, op.name) && NoChar(op.name, '\n'))
    && (forall op :: op in operators ==> op.version != "" && op.version[|op.version| - 1] != '\n')
    && (forall op :: op in operators ==> Literal(templates, op.version))
  }

  /** Each skipped name occurs only on its own name line. */
  ghost predicate SkipsFit(items: seq<Item>, skipOps: seq<string>) {
    forall item, name :: item in items && name in skipOps ==> OccursOnlyAtName(item, name)
  }

  ghost predicate PlainKeys(items: seq<Item>) {
    forall item :: item in items && item.Product? ==> NoChar(item.key, ':') && NoChar(item.key, '\n')
  }

  /** Skipped names are words, and no new version contains one. */
  ghost predicate SafeVersions(operators: seq<Operator>, skipOps: seq<string>) {
    && (forall name :: name in skipOps ==> NoChar(name, ':') && NoChar(name, ' '))
    && (forall op, name :: op in operators && name in skipOps ==> !Contains(op.version, name))
  }

  function Stripped(lines: seq<string>): seq<string> {
    seq(|lines|, i requires 0 <= i < |lines| => RStrip(lines[i]))
  }

  /******* Substrings *******/

  lemma {:induction false} ContainsMiddle(a: string, b: string, c: string, name: string)
    requires Contains(b, name)
    ensures Contains(a + b + c, name)
  {
    var i :| 0 <= i <= |b| && OccursAt(b, name, i);
    assert (a + b + c)[|a| + i..|a| + i + |name|] == b[i..i + |name|];
    assert OccursAt(a + b + c, name, |a| + i);
  }

  /** A name without the separator occurs on one side of it. */
  lemma {:induction false} ContainsAcross(a: string, separator: char, b: string, name: string)
    requires NoChar(name, separator) && Contains(a + [separator] + b, name)
    ensures Contains(a, name) || Contains(b, name)
  {
    var s := a + [separator] + b;
    var i :| 0 <= i <= |s| && OccursAt(s, name, i);
    if i + |name| <= |a| {
      assert s[i..i + |name|] == a[i..i + |name|];
      assert OccursAt(a, name, i);
    } else {
      OccurrenceAvoids(s, name, i, |a|);
      var j := i - |a| - 1;
      assert s[i..i + |name|] == b[j..j + |name|];
      assert OccursAt(b, name, j);
    }
  }

  lemma {:induction false} OccurrenceAvoids(s: string, name: string, i: nat, p: nat)
    requires OccursAt(s, name, i) && p < |s| && NoChar(name, s[p])
    ensures p < i || i + |name| <= p
  {
    assert forall q :: i <= q < i + |name| ==> s[q] == s[i..i + |name|][q - i];
  }

  lemma {:induction false} ContainsWithNewline(line: string, name: string)
    requires NoChar(name, '\n')
    ensures Contains(line + "\n", name) <==> Contains(line, name)
  {
    if Contains(line, name) {
      ContainsMiddle("", line, "\n", name);
      assert "" + line + "\n" == line + "\n";
    }
    if Contains(line + "\n", name) {
      assert line + "\n" == line + ['\n'] + "";
      ContainsAcross(line, '\n', "", name);
      if Contains("", name) {
        assert name == "";
        assert OccursAt(line, name, 0);
      }
    }
  }

  /******* Lines and their stripped form *******/

  lemma {:induction false} RStripOfLine(line: string)
    requires IsLine(line)
    ensures line == RStrip(line) || line == RStrip(line) + "\n"
    ensures NoChar(RStrip(line), '\n')
  {
    var init := line[..|line| - 1];
    if line[|line| - 1] == '\n' {
      assert RStrip(init) == init;
      assert line == init + "\n";
    }
  }

  lemma {:induction false} FirstMatchAgrees(line: string, line': string, names: seq<string>)
    requires forall name :: name in names ==> (Contains(line, name) <==> Contains(line', name))
    ensures FirstMatch(line, names) == FirstMatch(line', names)
  {
    FirstMatchUnique(line', names, FirstMatch(line, names));
  }

  lemma {:induction false} FirstMatchOfLine(line: string, names: seq<string>)
    requires IsLine(line) && forall name :: name in names ==> NoChar(name, '\n')
    ensures FirstMatch(line, names) == FirstMatch(RStrip(line), names)
  {
    RStripOfLine(line);
    if line != RStrip(line) {
      forall name | name in names ensures Contains(line, name) <==> Contains(RStrip(line), name) {
        ContainsWithNewline(RStrip(line), name);
      }
      FirstMatchAgrees(line, RStrip(line), names);
    }
  }

  /** The replacement rewrites the version of a `key: version` line. */
  lemma {:induction false} ReplaceVersionOfLine(
      line: string, key: string, prior: string, version: string, template: string -> string)
    requires IsLine(line) && RStrip(line) == key + ": " + prior
    requires NoChar(key, ':') && version != "" && version[|version| - 1] != '\n'
    requires forall matched :: template(matched) == version
    ensures RStrip(ReplaceVersion(line, template)) == key + ": " + version
  {
    RStripOfLine(line);
    assert RStrip(line)[|key|] == ':';
    assert line[|key|] == ':' && |key| + 1 < ContentLength(line);
    var i := ColonIndex(line, 0);
    assert forall k :: 0 <= k < |key| ==> line[k] == key[k];
    assert i == |key|;
    assert line[..i] == key;
    var updated := key + ": " + version;
    var rest := line[ContentLength(line)..];
    assert rest == "" || rest == "\n";
    assert RStrip(updated) == updated;
    if rest == "\n" {
      assert (updated + rest)[..|updated + rest| - 1] == updated;
    } else {
      assert updated + rest == updated;
    }
  }

  /******* The patch loop, section by section *******/

  lemma {:induction false} RenderPrefix(items: seq<Item>, k: nat)
    requires k <= |items|
    ensures |RenderAll(items[..k])| <= |RenderAll(items)|
    ensures RenderAll(items)[..|RenderAll(items[..k])|] == RenderAll(items[..k])
    decreases |items|
  {
    if k == |items| {
      assert items[..k] == items;
    } else {
      var init := items[..|items| - 1];
      RenderPrefix(init, k);
      assert init[..k] == items[..k];
    }
  }

  lemma {:induction false} RenderSnoc(items: seq<Item>, k: nat)
    requires k < |items|
    ensures RenderAll(items[..k + 1]) == RenderAll(items[..k]) + RenderItem(items[k])
  {
    assert items[..k + 1][..k] == items[..k];
  }

  /** Where the lines of the k-th item sit in the rendered file. */
  lemma {:induction false} RenderAt(items: seq<Item>, k: nat, j: nat)
    requires k < |items| && j < |RenderItem(items[k])|
    ensures |RenderAll(items[..k])| + j < |RenderAll(items)|
    ensures RenderAll(items)[|RenderAll(items[..k])| + j] == RenderItem(items[k])[j]
  {
    var n := |RenderAll(items[..k])|;
    RenderPrefix(items, k + 1);
    RenderSnoc(items, k);
    var upTo := RenderAll(items[..k + 1]);
    assert upTo[n + j] == RenderItem(items[k])[j];
    assert RenderAll(items)[..|upTo|][n + j] == RenderAll(items)[n + j];
  }

  /** The first operator with a product's name, and the effect of updating with it. */
  lemma {:induction false} FirstMatchOfProduct(item: Item, operators: seq<Operator>, line: string)
    requires forall op :: op in operators ==> (Contains(line, op.name) <==> item.Product? && item.name == op.name)
    ensures var k := FirstMatch(line, Names(operators));
            if k < |operators| then
              item.Product? && operators[k].name == item.name
              && UpdateItem(item, operators) == item.(version := operators[k].version)
            else UpdateItem(item, operators) == item && (item.Product? ==> item.name !in Names(operators))
  {
    if operators != [] {
      assert Names(operators)[1..] == Names(operators[1..]);
      assert Names(operators)[0] == operators[0].name && operators[0] in operators;
      FirstMatchOfProduct(item, operators[1..], line);
      assert Names(operators) == [operators[0].name] + Names(operators[1..]);
    }
  }

  ghost predicate FileOf(lines: seq<string>, items: seq<Item>) {
    AreLines(lines) && Stripped(lines) == RenderAll(items)
  }

  /** The state of the patch loop at the start of the k-th item. */
  ghost predicate PatchedUpTo(
      lines: seq<string>, items: seq<Item>, operators: seq<Operator>, templates: Templates, k: nat) {
    && k <= |items|
    && var n := |RenderAll(items[..k])|;
    && n <= |lines|
    && Pending(lines, operators, n) == ""
    && BadVersion(lines, operators, templates, n) == None
    && PatchedRelease(lines, operators, templates, n) == RenderAll(UpdateAll(items[..k], operators))
    && PatchedOps(lines, operators, n) == Elems(Names(operators)) * ProductNames(items[..k])
  }

  lemma {:induction false} UpdateSnoc(items: seq<Item>, operators: seq<Operator>, k: nat)
    requires k < |items|
    ensures RenderAll(UpdateAll(items[..k + 1], operators))
            == RenderAll(UpdateAll(items[..k], operators)) + RenderItem(UpdateItem(items[k], operators))
    ensures ProductNames(items[..k + 1]) == ProductNames(items[..k]) + ProductNames([items[k]])
  {
    assert items[..k + 1][..k] == items[..k];
    var updated := UpdateAll(items[..k], operators);
    assert (updated + [UpdateItem(items[k], operators)])[..|updated|] == updated;
    assert items[..k + 1] == items[..k] + [items[k]];
  }

  /** A line of the k-th item, up to its newline. */
  lemma {:induction false} LineOfItem(lines: seq<string>, items: seq<Item>, k: nat, j: nat)
    requires FileOf(lines, items) && k < |items| && j < |RenderItem(items[k])|
    ensures var n := |RenderAll(items[..k])| + j;
            n < |lines| && IsLine(lines[n]) && RStrip(lines[n]) == RenderItem(items[k])[j]
  {
    RenderAt(items, k, j);
    var n := |RenderAll(items[..k])| + j;
    assert |Stripped(lines)| == |lines|;
    assert Stripped(lines)[n] == RStrip(lines[n]);
  }

  /** What the search finds on the name line of an item, or on its only line. */
  lemma {:induction false} SearchNameLine(line: string, item: Item, operators: seq<Operator>)
    requires IsLine(line) && RStrip(line) == RenderItem(item)[0]
    requires forall op :: op in operators ==> OccursOnlyAtName(item, op.name) && NoChar(op.name, '\n')
    ensures var i := FirstMatch(line, Names(operators));
            if i < |operators| then
              item.Product? && operators[i].name == item.name
              && UpdateItem(item, operators) == item.(version := operators[i].version)
            else UpdateItem(item, operators) == item && (item.Product? ==> item.name !in Names(operators))
  {
    NamesMembers(operators);
    FirstMatchOfLine(line, Names(operators));
    FirstMatchOfProduct(item, operators, RStrip(line));
  }

  /** The search finds nothing on a version line. */
  lemma {:induction false} SearchVersionLine(line: string, item: Item, names: seq<string>)
    requires item.Product? && IsLine(line) && RStrip(line) == RenderItem(item)[1]
    requires forall name :: name in names ==> OccursOnlyAtName(item, name) && NoChar(name, '\n')
    ensures FirstMatch(line, names) == |names|
  {
    FirstMatchOfLine(line, names);
    forall j | 0 <= j < |names| ensures !Contains(RStrip(line), names[j]) {
      assert names[j] in names;
    }
    FirstMatchUnique(RStrip(line), names, |names|);
  }

  lemma {:induction false} MatchStep(lines: seq<string>, operators: seq<Operator>, templates: Templates, n: nat)
    requires n + 1 < |lines| && Pending(lines, operators, n) == ""
    requires FirstMatch(lines[n], Names(operators)) < |operators|
    requires var op := operators[FirstMatch(lines[n], Names(operators))];
             op.version != "" && templates(op.version).Some?
    ensures var op := operators[FirstMatch(lines[n], Names(operators))];
            && Pending(lines, operators, n + 2) == ""
            && BadVersion(lines, operators, templates, n + 2) == BadVersion(lines, operators, templates, n)
            && PatchedRelease(lines, operators, templates, n + 2)
               == PatchedRelease(lines, operators, templates, n)
                  + [RStrip(lines[n]), RStrip(ReplaceVersion(lines[n + 1], templates(op.version).value))]
            && PatchedOps(lines, operators, n + 2) == PatchedOps(lines, operators, n) + {op.name}
  {
    SearchRound(lines, operators, templates, n);
    WriteRound(lines, operators, templates, n + 1);
    assert n + 1 + 1 == n + 2;
  }

  ghost predicate LinesAre(lines: seq<string>, n: nat, item: Item) {
    && n + |RenderItem(item)| <= |lines|
    && IsLine(lines[n]) && RStrip(lines[n]) == RenderItem(item)[0]
    && (item.Product? ==> IsLine(lines[n + 1]) && RStrip(lines[n + 1]) == RenderItem(item)[1])
  }

  /** Over the lines of one item the patch loop updates it and records its operator. */
  ghost predicate Advances(lines: seq<string>, operators: seq<Operator>, templates: Templates, n: nat, item: Item)
    requires n + |RenderItem(item)| <= |lines|
  {
    var m := n + |RenderItem(item)|;
    && Pending(lines, operators, m) == ""
    && BadVersion(lines, operators, templates, m) == BadVersion(lines, operators, templates, n)
    && PatchedRelease(lines, operators, templates, m)
       == PatchedRelease(lines, operators, templates, n) + RenderItem(UpdateItem(item, operators))
    && PatchedOps(lines, operators, m)
       == PatchedOps(lines, operators, n)
          + if item.Product? && item.name in Names(operators) then {item.name} else {}
  }

  lemma {:induction false} PatchMatchedProduct(
      lines: seq<string>, n: nat, item: Item, operators: seq<Operator>, templates: Templates)
    requires OperatorsFit([item], operators, templates) && PlainKeys([item])
    requires LinesAre(lines, n, item) && Pending(lines, operators, n) == ""
    requires FirstMatch(lines[n], Names(operators)) < |operators|
    ensures Advances(lines, operators, templates, n, item)
  {
    assert item in [item];
    SearchNameLine(lines[n], item, operators);
    var op := operators[FirstMatch(lines[n], Names(operators))];
    assert op in operators;
    NamesMembers(operators);
    assert Literal(templates, op.version);
    MatchStep(lines, operators, templates, n);
    ReplaceVersionOfLine(lines[n + 1], item.key, item.version, op.version, templates(op.version).value);
  }

  lemma {:induction false} PatchOther(
      lines: seq<string>, n: nat, item: Item, operators: seq<Operator>, templates: Templates)
    requires OperatorsFit([item], operators, templates) && item.Other?
    requires LinesAre(lines, n, item) && Pending(lines, operators, n) == ""
    requires FirstMatch(lines[n], Names(operators)) == |operators|
    ensures Advances(lines, operators, templates, n, item)
  {
    assert item in [item];
    SearchNameLine(lines[n], item, operators);
    SearchRound(lines, operators, templates, n);
  }

  lemma {:induction false} PatchUnmatchedProduct(
      lines: seq<string>, n: nat, item: Item, operators: seq<Operator>, templates: Templates)
    requires OperatorsFit([item], operators, templates) && item.Product?
    requires LinesAre(lines, n, item) && Pending(lines, operators, n) == ""
    requires FirstMatch(lines[n], Names(operators)) == |operators|
    ensures Advances(lines, operators, templates, n, item)
  {
    assert item in [item];
    SearchNameLine(lines[n], item, operators);
    NamesMembers(operators);
    SearchVersionLine(lines[n + 1], item, Names(operators));
    NoMatchTwice(lines, operators, templates, n);
  }

  lemma {:induction false} NoMatchTwice(lines: seq<string>, operators: seq<Operator>, templates: Templates, n: nat)
    requires n + 1 < |lines| && Pending(lines, operators, n) == ""
    requires FirstMatch(lines[n], Names(operators)) == FirstMatch(lines[n + 1], Names(operators)) == |operators|
    ensures Pending(lines, operators, n + 2) == ""
    ensures BadVersion(lines, operators, templates, n + 2) == BadVersion(lines, operators, templates, n)
    ensures PatchedRelease(lines, operators, templates, n + 2)
            == PatchedRelease(lines, operators, templates, n) + [RStrip(lines[n]), RStrip(lines[n + 1])]
    ensures PatchedOps(lines, operators, n + 2) == PatchedOps(lines, operators, n)
  {
    SearchRound(lines, operators, templates, n);
    SearchRound(lines, operators, templates, n + 1);
    assert n + 1 + 1 == n + 2;
  }

  lemma {:induction false} LinesOfItem(lines: seq<string>, items: seq<Item>, k: nat)
    requires FileOf(lines, items) && k < |items|
    ensures LinesAre(lines, |RenderAll(items[..k])|, items[k])
  {
    LineOfItem(lines, items, k, 0);
    if items[k].Product? {
      LineOfItem(lines, items, k, 1);
    }
  }

  lemma {:induction false} UpToStep(
      lines: seq<string>, items: seq<Item>, operators: seq<Operator>, templates: Templates, k: nat)
    requires PatchedUpTo(lines, items, operators, templates, k) && k < |items|
    requires LinesAre(lines, |RenderAll(items[..k])|, items[k])
    requires Advances(lines, operators, templates, |RenderAll(items[..k])|, items[k])
    ensures PatchedUpTo(lines, items, operators, templates, k + 1)
  {
    var n, item := |RenderAll(items[..k])|, items[k];
    RenderSnoc(items, k);
    UpdateSnoc(items, operators, k);
    assert |RenderAll(items[..k + 1])| == n + |RenderItem(item)|;
    ProductNamesSnoc(items, k, Elems(Names(operators)));
  }

  lemma {:induction false} ProductNamesSnoc(items: seq<Item>, k: nat, names: set<string>)
    requires k < |items|
    ensures names * ProductNames(items[..k + 1])
            == names * ProductNames(items[..k])
               + if items[k].Product? && items[k].name in names then {items[k].name} else {}
  {
    assert items[..k + 1] == items[..k] + [items[k]];
  }

  lemma {:induction false} PatchItem(
      lines: seq<string>, items: seq<Item>, operators: seq<Operator>, templates: Templates, k: nat)
    requires FileOf(lines, items) && OperatorsFit(items, operators, templates) && PlainKeys(items)
    requires PatchedUpTo(lines, items, operators, templates, k) && k < |items|
    ensures PatchedUpTo(lines, items, operators, templates, k + 1)
  {
    var n, item := |RenderAll(items[..k])|, items[k];
    assert item in items;
    LinesOfItem(lines, items, k);
    if FirstMatch(lines[n], Names(operators)) < |operators| {
      PatchMatchedProduct(lines, n, item, operators, templates);
    } else if item.Product? {
      PatchUnmatchedProduct(lines, n, item, operators, templates);
    } else {
      PatchOther(lines, n, item, operators, templates);
    }
    UpToStep(lines, items, operators, templates, k);
  }

  lemma {:induction false} PatchAll(
      lines: seq<string>, items: seq<Item>, operators: seq<Operator>, templates: Templates, k: nat)
    requires FileOf(lines, items) && OperatorsFit(items, operators, templates) && PlainKeys(items) && k <= |items|
    ensures PatchedUpTo(lines, items, operators, templates, k)
  {
    if k > 0 {
      PatchAll(lines, items, operators, templates, k - 1);
      PatchItem(lines, items, operators, templates, k - 1);
    }
  }

  /** The first loop updates the versions of the named products and nothing else. */
  lemma {:induction false} PatchLoopUpdates(
      lines: seq<string>, items: seq<Item>, operators: seq<Operator>, templates: Templates)
    requires FileOf(lines, items) && OperatorsFit(items, operators, templates) && PlainKeys(items)
    ensures BadVersion(lines, operators, templates, |lines|) == None
    ensures PatchedRelease(lines, operators, templates, |lines|) == RenderAll(UpdateAll(items, operators))
    ensures PatchedOps(lines, operators, |lines|) == Elems(Names(operators)) * ProductNames(items)
  {
    PatchAll(lines, items, operators, templates, |items|);
    assert items[..|items|] == items;
    assert |Stripped(lines)| == |lines|;
  }

  /******* The filter loop, section by section *******/

  /** The state of the filter loop at the start of the k-th item. */
  ghost predicate FilteredUpTo(items: seq<Item>, skipOps: seq<string>, k: nat) {
    && k <= |items|
    && var release, n := RenderAll(items), |RenderAll(items[..k])|;
    && n <= |release|
    && SkipLines(release, skipOps, n) == 0
    && KeptLines(release, skipOps, n) == RenderAll(RemoveAll(items[..k], skipOps))
    && ValidSkipOps(release, skipOps, n) == Elems(skipOps) * ProductNames(items[..k])
  }

  ghost predicate ItemAt(release: seq<string>, n: nat, item: Item) {
    && n + |RenderItem(item)| <= |release|
    && release[n] == RenderItem(item)[0]
    && (item.Product? ==> release[n + 1] == RenderItem(item)[1])
  }

  ghost predicate FilterAdvances(release: seq<string>, skipOps: seq<string>, n: nat, item: Item)
    requires n + |RenderItem(item)| <= |release|
  {
    var m := n + |RenderItem(item)|;
    var skipped := item.Product? && item.name in skipOps;
    && SkipLines(release, skipOps, m) == 0
    && KeptLines(release, skipOps, m) == KeptLines(release, skipOps, n) + (if skipped then [] else RenderItem(item))
    && ValidSkipOps(release, skipOps, m) == ValidSkipOps(release, skipOps, n) + (if skipped then {item.name} else {})
  }

  lemma {:induction false} FilterNameLine(item: Item, skipOps: seq<string>)
    requires SkipsFit([item], skipOps)
    ensures var k := FirstMatch(RenderItem(item)[0], skipOps);
            if item.Product? && item.name in skipOps then k < |skipOps| && skipOps[k] == item.name else k == |skipOps|
    ensures item.Product? ==> FirstMatch(RenderItem(item)[1], skipOps) == |skipOps|
  {
    assert item in [item];
    forall j | 0 <= j < |skipOps| ensures OccursOnlyAtName(item, skipOps[j]) {
      assert skipOps[j] in skipOps;
    }
  }

  lemma {:induction false} FilterItem(release: seq<string>, skipOps: seq<string>, n: nat, item: Item)
    requires SkipsFit([item], skipOps) && ItemAt(release, n, item) && SkipLines(release, skipOps, n) == 0
    ensures FilterAdvances(release, skipOps, n, item)
  {
    FilterNameLine(item, skipOps);
    if item.Product? {
      assert n + 1 + 1 == n + 2;
      assert SkipLines(release, skipOps, n + 1) == if item.name in skipOps then 1 else 0;
    }
  }

  lemma {:induction false} FilterStep(items: seq<Item>, skipOps: seq<string>, k: nat)
    requires FilteredUpTo(items, skipOps, k) && k < |items|
    requires ItemAt(RenderAll(items), |RenderAll(items[..k])|, items[k])
    requires FilterAdvances(RenderAll(items), skipOps, |RenderAll(items[..k])|, items[k])
    ensures FilteredUpTo(items, skipOps, k + 1)
  {
    RenderSnoc(items, k);
    RemoveSnoc(items, skipOps, k);
    ProductNamesSnoc(items, k, Elems(skipOps));
  }

  lemma {:induction false} RemoveSnoc(items: seq<Item>, skipOps: seq<string>, k: nat)
    requires k < |items|
    ensures RenderAll(RemoveAll(items[..k + 1], skipOps))
            == RenderAll(RemoveAll(items[..k], skipOps))
               + if items[k].Product? && items[k].name in skipOps then [] else RenderItem(items[k])
  {
    assert items[..k + 1][..k] == items[..k];
    var kept := RemoveAll(items[..k], skipOps);
    assert (kept + [items[k]])[..|kept|] == kept;
    assert kept + [] == kept;
  }

  lemma {:induction false} ItemsAreThere(items: seq<Item>, k: nat)
    requires k < |items|
    ensures ItemAt(RenderAll(items), |RenderAll(items[..k])|, items[k])
  {
    RenderAt(items, k, 0);
    if items[k].Product? {
      RenderAt(items, k, 1);
    }
  }

  lemma {:induction false} FilterNext(items: seq<Item>, skipOps: seq<string>, k: nat)
    requires SkipsFit(items, skipOps) && FilteredUpTo(items, skipOps, k) && k < |items|
    ensures FilteredUpTo(items, skipOps, k + 1)
  {
    assert items[k] in items;
    ItemsAreThere(items, k);
    FilterItem(RenderAll(items), skipOps, |RenderAll(items[..k])|, items[k]);
    FilterStep(items, skipOps, k);
  }

  lemma {:induction false} FilterAll(items: seq<Item>, skipOps: seq<string>, k: nat)
    requires SkipsFit(items, skipOps) && k <= |items|
    ensures FilteredUpTo(items, skipOps, k)
  {
    if k > 0 {
      FilterAll(items, skipOps, k - 1);
      FilterNext(items, skipOps, k - 1);
    }
  }

  /** The second loop removes the skipped products and nothing else. */
  lemma {:induction false} FilterLoopRemoves(items: seq<Item>, skipOps: seq<string>)
    requires SkipsFit(items, skipOps)
    ensures var release := RenderAll(items);
            && KeptLines(release, skipOps, |release|) == RenderAll(RemoveAll(items, skipOps))
            && ValidSkipOps(release, skipOps, |release|) == Elems(skipOps) * ProductNames(items)
  {
    FilterAll(items, skipOps, |items|);
    assert items[..|items|] == items;
  }

  /******* Both loops *******/

  /** Updating versions does not bring in a skipped name. */
  lemma {:induction false} UpdateItemFits(item: Item, operators: seq<Operator>, name: string)
    requires OccursOnlyAtName(item, name)
    requires NoChar(name, ':') && NoChar(name, ' ') && forall op :: op in operators ==> !Contains(op.version, name)
    ensures OccursOnlyAtName(UpdateItem(item, operators), name)
    decreases |operators|
  {
    if item.Product? && operators != [] {
      if operators[0].name == item.name {
        assert operators[0] in operators;
        NewVersionLineFits(item.key, item.version, operators[0].version, name);
      } else {
        UpdateItemFits(item, operators[1..], name);
      }
    }
  }

  lemma {:induction false} NewVersionLineFits(key: string, prior: string, version: string, name: string)
    requires !Contains(key + ": " + prior, name) && !Contains(version, name)
    requires NoChar(name, ':') && NoChar(name, ' ')
    ensures !Contains(key + ": " + version, name)
  {
    assert "" + key + (": " + prior) == key + ": " + prior;
    if Contains(key, name) {
      ContainsMiddle("", key, ": " + prior, name);
    }
    if Contains("", name) {
      assert OccursAt(version, name, 0);
    }
    if Contains(key + ": " + version, name) {
      assert key + ": " + version == key + [':'] + (" " + version);
      ContainsAcross(key, ':', " " + version, name);
      assert " " + version == "" + [' '] + version;
      ContainsAcross("", ' ', version, name);
    }
  }

  lemma {:induction false} UpdateAllMember(items: seq<Item>, operators: seq<Operator>, updated: Item)
    ensures updated in UpdateAll(items, operators) <==>
            exists item :: item in items && updated == UpdateItem(item, operators)
  {
    if items != [] {
      var init, last := items[..|items| - 1], items[|items| - 1];
      UpdateAllMember(init, operators, updated);
      assert items == init + [last] && last in items;
      assert updated in UpdateAll(items, operators) <==>
        updated in UpdateAll(init, operators) || updated == UpdateItem(last, operators);
      assert forall item :: item in items <==> item in init || item == last;
    }
  }

  lemma {:induction false} UpdateItemKeepsName(item: Item, operators: seq<Operator>)
    ensures var updated := UpdateItem(item, operators);
            updated.Product? == item.Product? && (item.Product? ==> updated.name == item.name)
    decreases |operators|
  {
    if item.Product? && operators != [] && operators[0].name != item.name {
      UpdateItemKeepsName(item, operators[1..]);
    }
  }

  lemma {:induction false} UpdateKeepsNames(items: seq<Item>, operators: seq<Operator>)
    ensures ProductNames(UpdateAll(items, operators)) == ProductNames(items)
  {
    forall name ensures name in ProductNames(UpdateAll(items, operators)) <==> name in ProductNames(items) {
      if name in ProductNames(items) {
        var item :| item in items && item.Product? && item.name == name;
        UpdateAllMember(items, operators, UpdateItem(item, operators));
        UpdateItemKeepsName(item, operators);
        assert UpdateItem(item, operators) in UpdateAll(items, operators);
      }
      if name in ProductNames(UpdateAll(items, operators)) {
        var updated :| updated in UpdateAll(items, operators) && updated.Product? && updated.name == name;
        UpdateAllMember(items, operators, updated);
        var item :| item in items && updated == UpdateItem(item, operators);
        UpdateItemKeepsName(item, operators);
      }
    }
  }

  lemma {:induction false} UpdatedFits(items: seq<Item>, operators: seq<Operator>, skipOps: seq<string>)
    requires SkipsFit(items, skipOps) && SafeVersions(operators, skipOps)
    ensures SkipsFit(UpdateAll(items, operators), skipOps)
  {
    forall updated, name | updated in UpdateAll(items, operators) && name in skipOps
      ensures OccursOnlyAtName(updated, name)
    {
      UpdateAllMember(items, operators, updated);
      var item :| item in items && updated == UpdateItem(item, operators);
      assert OccursOnlyAtName(item, name);
      UpdateItemFits(item, operators, name);
    }
  }

  /** The intended rewrite: update these versions, then remove these products; unknown names are errors. */
  ghost function Rewritten(items: seq<Item>, operators: seq<Operator>, skipOps: seq<string>): Result<string, Error> {
    var unknown := Elems(Names(operators)) - ProductNames(items);
    var unknownSkipped := Elems(skipOps) - ProductNames(items);
    if unknown != {} then Failure(OperatorsNotFound(unknown))
    else if unknownSkipped != {} then Failure(SkippedNotFound(unknownSkipped))
    else Success(Join(RenderAll(RemoveAll(UpdateAll(items, operators), skipOps)), "\n"))
  }

  /** On a file of sections the two line loops compute exactly the intended rewrite. */
  lemma {:induction false} LoopsRefineSections(
      text: string, items: seq<Item>, operators: seq<Operator>, templates: Templates, skipOps: seq<string>)
    requires Stripped(ReadLines(text)) == RenderAll(items)
    requires PlainKeys(items) && OperatorsFit(items, operators, templates)
    requires SkipsFit(items, skipOps) && SafeVersions(operators, skipOps)
    ensures Patched(ReadLines(text), operators, skipOps, templates) == Rewritten(items, operators, skipOps)
  {
    var lines, updated := ReadLines(text), UpdateAll(items, operators);
    ReadLinesRoundTrip(text);
    PatchLoopUpdates(lines, items, operators, templates);
    UpdatedFits(items, operators, skipOps);
    UpdateKeepsNames(items, operators);
    FilterLoopRemoves(updated, skipOps);
    var names, skips, products := Elems(Names(operators)), Elems(skipOps), ProductNames(items);
    assert names - names * products == names - products;
    assert skips - skips * products == skips - products;
  }

  function Unlines(lines: seq<string>): seq<string> {
    seq(|lines|, i requires 0 <= i < |lines| => lines[i] + "\n")
  }

  lemma {:induction false} UnlinesAreLines(lines: seq<string>)
    requires forall i :: 0 <= i < |lines| ==> NoChar(lines[i], '\n')
    ensures AreLines(Unlines(lines))
  {
    forall i | 0 <= i < |lines| ensures IsLine(Unlines(lines)[i]) {
      assert NoChar(lines[i], '\n');
    }
  }

  lemma {:induction false} RStripOfNewline(line: string)
    requires NoChar(line, '\n')
    ensures RStrip(line + "\n") == line
  {
    assert (line + "\n")[..|line|] == line;
    assert RStrip(line) == line;
  }

  /** Every list of newline-free lines is the content of some file. */
  lemma {:induction false} EveryRenderingIsAFile(lines: seq<string>)
    requires forall i :: 0 <= i < |lines| ==> NoChar(lines[i], '\n')
    ensures Stripped(ReadLines(Concat(Unlines(lines)))) == lines
  {
    UnlinesAreLines(lines);
    ReadLinesOfConcat(Unlines(lines));
    forall i | 0 <= i < |lines| ensures Stripped(Unlines(lines))[i] == lines[i] {
      RStripOfNewline(lines[i]);
    }
  }
}
