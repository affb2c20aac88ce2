/**
 * `blocksToDsl`: one line per block, `name: (months, flow), … xN`, and the
 * round trip: reading back the printed text gives the blocks back, with no
 * error, for every block the DSL can express.
 */
module PeriodsDslPrint {
  import opened Wrappers
  import opened JsStrings
  import opened JsNumbers
  import opened Periods
  import opened PeriodsDsl

  // ---------------------------------------------------------------------
  // Printing
  // ---------------------------------------------------------------------

  /** `${months}, ${flow}`. */
  function Fields(p: Period): (r: string) {
    IntToString(p.months) + ", " + IntToString(p.flow)
  }

  /** `(${months}, ${flow})`. */
  function GroupText(p: Period): (r: string) {
    "(" + Fields(p) + ")"
  }

  /** The group texts of a pattern, in order. */
  function GroupTexts(pattern: seq<Period>): (r: seq<string>)
    ensures |r| == |pattern|
  {
    seq(|pattern|, k requires 0 <= k < |pattern| => GroupText(pattern[k]))
  }

  /** The groups joined by `", "`. */
  function PatternText(pattern: seq<Period>): (r: string) {
    Join(GroupTexts(pattern), ", ")
  }

  /** The group texts after the first are those of the other periods. */
  lemma GroupTextsTail(ps: seq<Period>)
    requires ps != []
    ensures GroupTexts(ps)[1..] == GroupTexts(ps[1..])
  {
    var texts, tail := GroupTexts(ps), GroupTexts(ps[1..]);
    forall k | 0 <= k < |tail|
      ensures texts[1..][k] == tail[k]
    {
      assert ps[1..][k] == ps[k + 1];
    }
  }

  /** Joining two or more parts puts the separator after the first. */
  lemma JoinCons(parts: seq<string>, sep: string)
    requires |parts| > 1
    ensures Join(parts, sep) == parts[0] + (sep + Join(parts[1..], sep))
  {
    assert parts[0] + sep + Join(parts[1..], sep) == parts[0] + (sep + Join(parts[1..], sep));
  }

  /** A pattern of two or more periods prints as its first group, `", "` and the rest. */
  lemma PatternTextCons(ps: seq<Period>)
    requires |ps| > 1
    ensures PatternText(ps) == GroupText(ps[0]) + (", " + PatternText(ps[1..]))
  {
    GroupTextsTail(ps);
    JoinCons(GroupTexts(ps), ", ");
  }

  /** A name prefix only for a name that is present and not empty. */
  function NamePrefix(name: Option<string>): (r: string) {
    if name.Some? && name.value != "" then name.value + ": " else ""
  }

  /** `${patternText} x${repeatYears}`. */
  function Body(b: PeriodBlock): (r: string) {
    PatternText(b.pattern) + " x" + IntToString(b.repeatYears)
  }

  /** `${namePrefix}${patternText} x${repeatYears}`. */
  function BlockLine(b: PeriodBlock): (r: string) {
    NamePrefix(b.name) + Body(b)
  }

  /** The lines of the blocks, in order. */
  function BlockLines(blocks: seq<PeriodBlock>): (r: seq<string>)
    ensures |r| == |blocks|
  {
    seq(|blocks|, k requires 0 <= k < |blocks| => BlockLine(blocks[k]))
  }

  /** The block lines joined by line breaks. */
  function BlocksToDsl(blocks: seq<PeriodBlock>): (r: string) {
    Join(BlockLines(blocks), "\n")
  }

  // ---------------------------------------------------------------------
  // What the printed text is made of
  // ---------------------------------------------------------------------

  /** The characters of printed numbers and of the pattern's punctuation. */
  predicate PatternChar(c: char) {
    IsDigit(c) || c == '-' || c == '(' || c == ')' || c == ',' || c == ' '
  }

  predicate PatternChars(s: string) {
    forall k :: 0 <= k < |s| ==> PatternChar(s[k])
  }

  /** The characters of the printed fields of a group. */
  predicate FieldChar(c: char) {
    IsDigit(c) || c == '-' || c == ',' || c == ' '
  }

  /** The fields of a group: printed numbers, a comma and a space. */
  lemma FieldsChars(p: Period)
    ensures |Fields(p)| >= 4 && forall k :: 0 <= k < |Fields(p)| ==> FieldChar(Fields(p)[k])
  {
    IntToStringChars(p.months);
    IntToStringChars(p.flow);
  }

  /** A group text: `(`, printed numbers and punctuation, `)`. */
  lemma GroupTextChars(p: Period)
    ensures |GroupText(p)| >= 6 && GroupText(p)[0] == '(' && GroupText(p)[|GroupText(p)| - 1] == ')'
    ensures PatternChars(GroupText(p))
  {
    FieldsChars(p);
    var g, f := GroupText(p), Fields(p);
    assert forall k :: 1 <= k < |g| - 1 ==> g[k] == f[k - 1];
  }

  /** Joining pattern-character texts with `", "` gives pattern characters. */
  lemma {:induction false} PatternTextChars(ps: seq<Period>)
    requires ps != []
    ensures var t := PatternText(ps); |t| > 0 && t[0] == '(' && t[|t| - 1] == ')' && PatternChars(t)
    decreases |ps|
  {
    var texts := GroupTexts(ps);
    GroupTextChars(ps[0]);
    if |ps| > 1 {
      PatternTextChars(ps[1..]);
      PatternTextCons(ps);
    }
  }

  // ---------------------------------------------------------------------
  // Reading back one group
  // ---------------------------------------------------------------------

  /** Reading the groups of a group text followed by more text finds that group first. */
  lemma GroupsOfGroup(p: Period, t: string)
    ensures Groups(GroupText(p) + t) == [GroupText(p)] + Groups(t)
  {
    var f := Fields(p);
    var g := GroupText(p);
    var s := g + t;
    FieldsChars(p);
    var j := |f| + 1;
    assert s[j] == ')';
    assert forall k :: 1 <= k < j ==> s[k] == f[k - 1];
    assert NextIndex(s, ')', 1) == j;
    assert s[..j + 1] == g;
    assert s[j + 1..] == t;
  }

  /** The separator between groups holds no group. */
  lemma GroupsAfterSeparator(t: string)
    ensures Groups(", " + t) == Groups(t)
  {
    var s := ", " + t;
    assert s[1..][1..] == t;
  }

  /** The groups of a printed pattern are its group texts. */
  lemma {:induction false} GroupsOfPattern(ps: seq<Period>)
    requires ps != []
    ensures Groups(PatternText(ps)) == GroupTexts(ps)
    decreases |ps|
  {
    var texts, g := GroupTexts(ps), GroupText(ps[0]);
    if |ps| == 1 {
      GroupsOfGroup(ps[0], "");
      assert g + "" == g;
      assert texts == [g];
    } else {
      var rest := PatternText(ps[1..]);
      PatternTextCons(ps);
      GroupsOfGroup(ps[0], ", " + rest);
      GroupsAfterSeparator(rest);
      GroupsOfPattern(ps[1..]);
      GroupTextsTail(ps);
      ConsTail(texts);
    }
  }

  /** A non-empty list is its first element followed by the rest. */
  lemma ConsTail<T>(xs: seq<T>)
    requires xs != []
    ensures [xs[0]] + xs[1..] == xs
  {
  }

  /** Without its brackets, a group text is the months and, after a comma, a space and the flow. */
  lemma GroupPieces(p: Period)
    ensures Split(RemoveChars(GroupText(p), {'(', ')'}), {','}) == [IntToString(p.months), " " + IntToString(p.flow)]
  {
    var fields := Fields(p);
    FieldsChars(p);
    assert NoneOf(fields, {'(', ')'});
    RemoveBrackets(fields);
    FieldsSplit(p);
  }

  /** The months and flow text split at its one comma into the months and the rest. */
  lemma FieldsSplit(p: Period)
    ensures Split(Fields(p), {','}) == [IntToString(p.months), " " + IntToString(p.flow)]
  {
    var m, f := IntToString(p.months), IntToString(p.flow);
    IntToStringChars(p.months);
    IntToStringChars(p.flow);
    assert NoneOf(m, {','});
    assert Fields(p) == m + [','] + (" " + f);
    SplitAfterPrefix(m, ',', " " + f, {','});
    SplitNoSeparator(" " + f, {','});
  }

  /** Dropping the brackets around text without brackets gives the text. */
  lemma RemoveBrackets(inner: string)
    requires NoneOf(inner, {'(', ')'})
    ensures RemoveChars("(" + inner + ")", {'(', ')'}) == inner
  {
    RemoveCharsConcat("(", inner + ")", {'(', ')'});
    RemoveCharsConcat(inner, ")", {'(', ')'});
    assert "(" + inner + ")" == "(" + (inner + ")");
  }

  /** The printed months and flow read back as the period when the months are positive. */
  lemma FieldsParse(p: Period)
    requires p.months > 0
    ensures GroupFields([IntToString(p.months), " " + IntToString(p.flow)]) == Ok(p)
  {
    MonthsFieldReads(p.months);
    FlowFieldReads(p.flow);
    FieldsRead(IntToString(p.months), " " + IntToString(p.flow), p);
  }

  /** Two fields that read as a period's months and flow make that period. */
  lemma FieldsRead(a: string, b: string, p: Period)
    requires p.months > 0
    requires Number(Trim(a)) == Finite(p.months as real)
    requires Number(RemoveChars(Trim(b), {'+'})) == Finite(p.flow as real)
    ensures GroupFields([a, b]) == Ok(p)
  {
    var months, flow := p.months as real, p.flow as real;
    assert months.Floor == p.months;
    assert Trunc(flow) == p.flow;
  }

  /** A written-out count of months reads back as itself. */
  lemma MonthsFieldReads(m: int)
    ensures Number(Trim(IntToString(m))) == Finite(m as real)
  {
    IntToStringChars(m);
    TrimTrimmed(IntToString(m));
    NumberOfIntToString(m);
  }

  /** A written-out flow after a space reads back as itself once trimmed and stripped of `+`. */
  lemma FlowFieldReads(f: int)
    ensures Number(RemoveChars(Trim(" " + IntToString(f)), {'+'})) == Finite(f as real)
  {
    var t := IntToString(f);
    IntToStringChars(f);
    TrimLeadingSpace(t);
    assert RemoveChars(t, {'+'}) == t;
    NumberOfIntToString(f);
  }

  /** A group text reads back as its period when the months are positive. */
  lemma GroupParses(p: Period)
    requires p.months > 0
    ensures ParseGroup(GroupText(p)) == Ok(p)
  {
    GroupPieces(p);
    FieldsParse(p);
  }

  /** The group texts of a pattern of positive months read back as the pattern. */
  lemma {:induction false} GroupsParse(ps: seq<Period>)
    requires Positive(ps)
    ensures ParseGroups(GroupTexts(ps)) == Ok(ps)
    decreases |ps|
  {
    if ps != [] {
      var texts := GroupTexts(ps);
      GroupTextsTail(ps);
      GroupParses(ps[0]);
      assert Positive(ps[1..]);
      GroupsParse(ps[1..]);
      ParseGroupsCons(texts, ps[0], ps[1..]);
      ConsTail(ps);
    }
  }

  // ---------------------------------------------------------------------
  // Reading back one line
  // ---------------------------------------------------------------------

  /**
   * A block the printer and the parser agree on: well formed, and a name
   * that is absent, empty, or trimmed and free of `:` and line breaks.
   */
  predicate Printable(b: PeriodBlock) {
    WellFormed(b)
    && (b.name.None? || b.name.value == "" || (IsTrimmed(b.name.value) && NoneOf(b.name.value, {':', '\n'})))
  }

  /** The blocks as they read back: each with an empty name turned into no name. */
  function NormalNames(bs: seq<PeriodBlock>): (r: seq<PeriodBlock>)
    ensures |r| == |bs| && forall k :: 0 <= k < |bs| ==> r[k] == NormalName(bs[k])
  {
    seq(|bs|, k requires 0 <= k < |bs| => NormalName(bs[k]))
  }

  /** An empty name prints no prefix, so it reads back as no name. */
  function NormalName(b: PeriodBlock): (r: PeriodBlock) {
    if b.name == Some("") then b.(name := None) else b
  }

  /** The characters after the name: the pattern's, and the `x`. */
  predicate BodyChar(c: char) {
    PatternChar(c) || c == 'x'
  }

  /** The printed body starts with `(`, ends with a digit and splits at its single `x`. */
  lemma BodyFacts(b: PeriodBlock)
    requires WellFormed(b)
    ensures var body := Body(b);
            |body| > 0 && body[0] == '(' && IsDigit(body[|body| - 1]) && IsTrimmed(body)
            && forall k :: 0 <= k < |body| ==> BodyChar(body[k])
    ensures Split(Body(b), {'x', 'X'}) == [PatternText(b.pattern) + " ", IntToString(b.repeatYears)]
  {
    var pt, ry := PatternText(b.pattern), IntToString(b.repeatYears);
    PatternTextChars(b.pattern);
    IntToStringChars(b.repeatYears);
    var body := Body(b);
    assert body == (pt + " ") + ['x'] + ry;
    assert NoneOf(pt + " ", {'x', 'X'});
    assert NoneOf(ry, {'x', 'X'});
    SplitAfterPrefix(pt + " ", 'x', ry, {'x', 'X'});
    SplitNoSeparator(ry, {'x', 'X'});
  }

  /** What the printer puts after the name. */
  predicate BodyShape(body: string) {
    |body| > 0 && body[0] == '(' && IsTrimmed(body) && forall k :: 0 <= k < |body| ==> BodyChar(body[k])
  }

  /** A printed name is read back from before the `:`. */
  lemma WorkingNamed(n: string, body: string)
    requires n != [] && IsTrimmed(n) && NoneOf(n, {':', '\n'}) && BodyShape(body)
    ensures Working(n + ": " + body) == (Some(n), body)
  {
    var rest := " " + body;
    assert n + ": " + body == n + ":" + rest;
    RestSingleLine(body);
    NameSplitNamed(n, rest);
    assert rest[1] == '(';
    TrimLeadingSpace(body);
  }

  /** The text after the printed `": "` holds no line terminator. */
  lemma RestSingleLine(body: string)
    requires BodyShape(body)
    ensures SingleLine(" " + body)
  {
    var rest := " " + body;
    forall k | 0 <= k < |rest|
      ensures !IsLineTerminator(rest[k])
    {
      if k > 0 {
        assert rest[k] == body[k - 1] && BodyChar(body[k - 1]);
      }
    }
  }

  /** A line with a non-empty name free of `:`, a `:` and a single-line rest splits there. */
  lemma NameSplitNamed(n: string, rest: string)
    requires n != [] && NoneOf(n, {':'}) && SingleLine(rest)
    ensures NameSplit(n + ":" + rest) == Some((n, rest))
  {
    var line := n + ":" + rest;
    assert line[|n|] == ':';
    assert forall k :: 0 <= k < |n| ==> line[k] == n[k];
    NextIndexAt(line, ':', 0, |n|);
    assert line[..|n|] == n && line[|n| + 1..] == rest;
  }

  /** Without a name the whole line is the body. */
  lemma WorkingUnnamed(body: string)
    requires BodyShape(body)
    ensures Working(body) == (None, body)
  {
    assert NextIndex(body, ':', 0) == |body|;
  }

  /** The name and the body are told apart as printed. */
  lemma WorkingOfLine(b: PeriodBlock)
    requires Printable(b)
    ensures Working(BlockLine(b)) == (NormalName(b).name, Body(b))
  {
    BodyFacts(b);
    if b.name.Some? && b.name.value != "" {
      WorkingNamed(b.name.value, Body(b));
    } else {
      assert BlockLine(b) == Body(b);
      WorkingUnnamed(Body(b));
    }
  }

  /** The body reads back as the block's pattern and repeat count. */
  lemma BodyParses(b: PeriodBlock, name: Option<string>)
    requires WellFormed(b)
    ensures ParseWorking(name, Body(b)) == Ok(b.(name := name))
  {
    var pt, ry := PatternText(b.pattern), IntToString(b.repeatYears);
    BodyFacts(b);
    PatternTextChars(b.pattern);
    IntToStringChars(b.repeatYears);
    TrimAround("", pt, " ");
    assert "" + pt + " " == pt + " ";
    NumberOfIntToString(b.repeatYears);
    GroupsOfPattern(b.pattern);
    GroupsParse(b.pattern);
    ParseWorkingOk(name, Body(b), pt, ry, b.repeatYears, GroupTexts(b.pattern), b.pattern);
  }

  /** A printable block's line reads back as the block. */
  lemma LineParses(b: PeriodBlock)
    requires Printable(b)
    ensures ParseLine(BlockLine(b)) == Ok(NormalName(b))
  {
    WorkingOfLine(b);
    BodyParses(b, NormalName(b).name);
  }

  // ---------------------------------------------------------------------
  // Reading back the whole text
  // ---------------------------------------------------------------------

  /** The body holds no line break. */
  lemma BodySingleLine(body: string)
    requires BodyShape(body)
    ensures NoneOf(body, {'\n'})
  {
    forall k | 0 <= k < |body|
      ensures body[k] != '\n'
    {
      assert BodyChar(body[k]);
    }
  }

  /** A named line is trimmed and holds no line break. */
  lemma NamedLineFacts(n: string, body: string)
    requires n != [] && IsTrimmed(n) && NoneOf(n, {':', '\n'}) && BodyShape(body)
    ensures IsTrimmed(n + ": " + body) && NoneOf(n + ": " + body, {'\n'})
  {
    var line := n + ": " + body;
    BodySingleLine(body);
    forall k | 0 <= k < |line|
      ensures line[k] != '\n'
    {
      if k < |n| {
        assert line[k] == n[k];
      } else if k >= |n| + 2 {
        assert line[k] == body[k - |n| - 2];
      }
    }
    assert line[0] == n[0];
    assert line[|line| - 1] == body[|body| - 1];
  }

  /** A printed line is trimmed, not empty and holds no line break. */
  lemma LineFacts(b: PeriodBlock)
    requires Printable(b)
    ensures BlockLine(b) != [] && IsTrimmed(BlockLine(b)) && NoneOf(BlockLine(b), {'\n'})
  {
    BodyFacts(b);
    if b.name.Some? && b.name.value != "" {
      NamedLineFacts(b.name.value, Body(b));
    } else {
      assert BlockLine(b) == Body(b);
      BodySingleLine(Body(b));
    }
  }

  /** The lines of the printed text are the block lines. */
  lemma LinesOfDsl(bs: seq<PeriodBlock>)
    requires forall k :: 0 <= k < |bs| ==> Printable(bs[k])
    ensures Lines(BlocksToDsl(bs)) == BlockLines(bs)
  {
    var lines := BlockLines(bs);
    if bs == [] {
      assert Split(BlocksToDsl(bs), {'\n'}) == [""];
    } else {
      forall k | 0 <= k < |lines|
        ensures lines[k] != [] && IsTrimmed(lines[k]) && NoneOf(lines[k], {'\n'})
      {
        LineFacts(bs[k]);
      }
      SplitJoin(lines, '\n', {'\n'});
      TrimmedNonEmptyKeeps(lines);
    }
  }

  /**
   * Printing blocks and reading the text back gives the same blocks, in
   * order, and no error; an empty name comes back as no name.
   */
  lemma ParsePrinted(bs: seq<PeriodBlock>)
    requires forall k :: 0 <= k < |bs| ==> Printable(bs[k])
    ensures ParseDsl(BlocksToDsl(bs)) == Parsed(NormalNames(bs), [])
  {
    var expected := NormalNames(bs);
    LinesOfDsl(bs);
    PrintedLinesParse(bs);
    CollectedOk(LineResults(BlockLines(bs)), expected, |bs|);
    assert expected[..|bs|] == expected;
  }

  /** Each printed line reads back as its block, an empty name becoming no name. */
  lemma PrintedLinesParse(bs: seq<PeriodBlock>)
    requires forall k :: 0 <= k < |bs| ==> Printable(bs[k])
    ensures forall i :: 0 <= i < |bs| ==> LineResults(BlockLines(bs))[i] == Ok(NormalNames(bs)[i])
  {
    forall i | 0 <= i < |bs|
      ensures LineResults(BlockLines(bs))[i] == Ok(NormalNames(bs)[i])
    {
      LineParses(bs[i]);
    }
  }
}
