/**
 * The block DSL: one block per non-blank line, written
 * `name: (months, flow), (months, flow) xN`. `ParseDslToBlocks` reads the
 * text line by line, collecting the blocks and one error per rejected line;
 * `BlocksToDsl` prints blocks back, and printing then parsing gives the
 * blocks back.
 */
module PeriodsDsl {
  import opened Wrappers
  import opened JsStrings
  import opened JsNumbers
  import opened Periods

  // ---------------------------------------------------------------------
  // Reading one line
  // ---------------------------------------------------------------------

  /** Why a line is rejected. */
  datatype Reason =
    | MissingRepeat   // no `xN` part, or nothing before it
    | BadRepeat       // the repeat count is not a positive integer
    | NoGroups        // no `( … )` group
    | MissingFlow     // a group without a comma: reading its flow throws a TypeError
    | BadMonths       // months that are not a positive integer
    | BadFlow         // a flow that is not a finite number

  /** The message reported for each reason. */
  function Message(r: Reason): (res: string) {
    match r
    case MissingRepeat => "xN の形式で繰り返し年数を指定してください"
    case BadRepeat => "繰り返し年数は正の整数で入力してください"
    case NoGroups => "(months, flow) の形式で指定してください"
    case MissingFlow => "Cannot read properties of undefined (reading 'replace')"
    case BadMonths => "months は 1 以上の整数で入力してください"
    case BadFlow => "flow は数値で入力してください"
  }

  /** `${lineNumber} 行目: ${message}`. */
  function ErrorText(lineNumber: nat, r: Reason): (res: string) {
    NatToString(lineNumber) + " 行目: " + Message(r)
  }

  /**
   * The lines of the text: split at line breaks, trimmed, blank ones
   * dropped. A `\r` before a `\n` is white space the trim removes.
   */
  function Lines(text: string): (r: seq<string>) {
    TrimmedNonEmpty(Split(text, {'\n'}))
  }

  /**
   * `line.match(/^([^:]+):(.*)$/)`: the text before the first `:` (not
   * empty) and the text after it (no line terminator), if the line has
   * that shape.
   */
  function NameSplit(line: string): (r: Option<(string, string)>)
    ensures r.Some? ==> line == r.value.0 + ":" + r.value.1 && r.value.0 != [] && ':' !in r.value.0
  {
    var c := NextIndex(line, ':', 0);
    if 0 < c < |line| && SingleLine(line[c + 1..]) then
      assert line == line[..c] + ":" + line[c + 1..];
      Some((line[..c], line[c + 1..]))
    else None
  }

  /**
   * The block's name and the rest of the line: the text before the first
   * `:` becomes the name only when the text after it holds a `(`.
   */
  function Working(line: string): (r: (Option<string>, string))
    ensures r.0.None? ==> r.1 == line
    ensures r.0.Some? <==> NameSplit(line).Some? && '(' in NameSplit(line).value.1
    ensures r.0.Some? ==> r == (Some(Trim(NameSplit(line).value.0)), Trim(NameSplit(line).value.1))
  {
    match NameSplit(line)
    case Some((name, rest)) =>
      if '(' in rest then (Some(Trim(name)), Trim(rest)) else (None, line)
    case None => (None, line)
  }

  /**
   * `s.match(/\([^\)]+\)/g)`: from left to right, every `(` followed by at
   * least one character other than `)` and then a `)`; an empty list when
   * there is none.
   */
  function Groups(s: string): (r: seq<string>)
    ensures forall k :: 0 <= k < |r| ==> |r[k]| >= 3 && r[k][0] == '('
    decreases |s|
  {
    if s == [] then []
    else if s[0] == '(' && 1 < NextIndex(s, ')', 1) < |s| then
      var j := NextIndex(s, ')', 1);
      [s[..j + 1]] + Groups(s[j + 1..])
    else Groups(s[1..])
  }

  /** `Number.isInteger(n) && n > 0`. */
  predicate PositiveInteger(n: JsNum) {
    IsInteger(n) && n.value > 0.0
  }

  /** The reasons a single group can be rejected for. */
  predicate GroupReason(e: Reason) {
    e.MissingFlow? || e.BadMonths? || e.BadFlow?
  }

  /**
   * One `(months, flow)` group: the brackets are dropped and the text cut at
   * commas; `months` must read as a positive integer and `flow`, with its
   * `+` signs removed, as a finite number, which is truncated.
   */
  function ParseGroup(token: string): (r: Result<Period, Reason>)
    ensures r.Ok? ==> r.value.months > 0
    ensures r.Err? ==> GroupReason(r.error)
  {
    GroupFields(Split(RemoveChars(token, {'(', ')'}), {','}))
  }

  /** The months field of a group cut at commas: the first piece, trimmed, as a number. */
  function MonthsField(pieces: seq<string>): (r: JsNum)
    requires |pieces| >= 1
  {
    Number(Trim(pieces[0]))
  }

  /** The flow field of a group cut at commas: the second piece, trimmed and without `+`, as a number. */
  function FlowField(pieces: seq<string>): (r: JsNum)
    requires |pieces| >= 2
  {
    Number(RemoveChars(Trim(pieces[1]), {'+'}))
  }

  /**
   * The fields of a group cut at commas: `months` is the first, `flow` the
   * second. A missing flow is found first (reading it throws), then bad
   * months, then a bad flow.
   */
  function GroupFields(pieces: seq<string>): (r: Result<Period, Reason>)
    ensures |pieces| < 2 ==> r == Err(MissingFlow)
    ensures r.Ok? <==> |pieces| >= 2 && PositiveInteger(MonthsField(pieces)) && FlowField(pieces).Finite?
    ensures r == Err(BadMonths) <==> |pieces| >= 2 && !PositiveInteger(MonthsField(pieces))
    ensures r == Err(BadFlow) <==> |pieces| >= 2 && PositiveInteger(MonthsField(pieces)) && !FlowField(pieces).Finite?
    ensures r.Ok? ==> r.value.months > 0 && r.value.months as real == MonthsField(pieces).value
    ensures r.Ok? ==> r.value.flow == Trunc(FlowField(pieces).value)
    ensures r.Err? ==> GroupReason(r.error)
  {
    if |pieces| < 2 then Err(MissingFlow)
    else
      var months, flow := MonthsField(pieces), FlowField(pieces);
      if !PositiveInteger(months) then Err(BadMonths)
      else if !flow.Finite? then Err(BadFlow)
      else Ok(Period(months.value.Floor, Trunc(flow.value)))
  }

  /**
   * `tokens.map(read)` where `read` may throw: each token read in order,
   * the first one that fails deciding the error.
   */
  function ReadEach(tokens: seq<string>, read: string -> Result<Period, Reason>): (r: Result<seq<Period>, Reason>)
    ensures r.Ok? ==> |r.value| == |tokens|
  {
    if tokens == [] then Ok([])
    else
      var head, rest := read(tokens[0]), ReadEach(tokens[1..], read);
      if head.Err? then Err(head.error)
      else if rest.Err? then Err(rest.error)
      else Ok([head.value] + rest.value)
  }

  /** When every token reads, the result holds each token's value, in order. */
  lemma {:induction false} ReadEachOk(tokens: seq<string>, read: string -> Result<Period, Reason>)
    requires ReadEach(tokens, read).Ok?
    ensures forall k :: 0 <= k < |tokens| ==> read(tokens[k]) == Ok(ReadEach(tokens, read).value[k])
  {
    if tokens != [] {
      var rest := tokens[1..];
      var head, tail := read(tokens[0]), ReadEach(rest, read);
      ReadEachOk(rest, read);
      var r := ReadEach(tokens, read).value;
      assert r == [head.value] + tail.value;
      forall k | 0 <= k < |tokens|
        ensures read(tokens[k]) == Ok(r[k])
      {
        if k > 0 {
          assert tokens[k] == rest[k - 1] && r[k] == tail.value[k - 1];
        }
      }
    }
  }

  /** When some token fails, the error is that of the first token that fails. */
  lemma {:induction false} ReadEachFirstError(tokens: seq<string>, read: string -> Result<Period, Reason>)
    requires ReadEach(tokens, read).Err?
    ensures exists k :: 0 <= k < |tokens| && read(tokens[k]) == Err(ReadEach(tokens, read).error) &&
                        forall j :: 0 <= j < k ==> read(tokens[j]).Ok?
  {
    var rest := tokens[1..];
    var e := ReadEach(tokens, read).error;
    if read(tokens[0]).Err? {
      assert read(tokens[0]) == Err(e);
    } else {
      ReadEachFirstError(rest, read);
      var k :| 0 <= k < |rest| && read(rest[k]) == Err(ReadEach(rest, read).error) &&
               forall j :: 0 <= j < k ==> read(rest[j]).Ok?;
      assert read(tokens[k + 1]) == Err(e);
      assert forall j :: 1 <= j < k + 1 ==> tokens[j] == rest[j - 1];
    }
  }

  /** The groups of a pattern, read in order; the first bad one decides the error. */
  function ParseGroups(tokens: seq<string>): (r: Result<seq<Period>, Reason>)
    ensures r.Ok? ==> |r.value| == |tokens| && Positive(r.value)
    ensures r.Err? ==> GroupReason(r.error)
  {
    var r := ReadEach(tokens, ParseGroup);
    if r.Ok? then
      ReadEachOk(tokens, ParseGroup);
      r
    else
      ReadEachFirstError(tokens, ParseGroup);
      r
  }

  /**
   * A pattern reads exactly when each of its groups does, and then holds
   * their periods in order; otherwise its error is that of the first group
   * that does not read.
   */
  lemma ParseGroupsMeaning(tokens: seq<string>)
    ensures ParseGroups(tokens).Ok? <==> forall k :: 0 <= k < |tokens| ==> ParseGroup(tokens[k]).Ok?
    ensures ParseGroups(tokens).Ok? ==>
      forall k :: 0 <= k < |tokens| ==> ParseGroup(tokens[k]) == Ok(ParseGroups(tokens).value[k])
    ensures ParseGroups(tokens).Err? ==>
      exists k :: 0 <= k < |tokens| && ParseGroup(tokens[k]) == Err(ParseGroups(tokens).error) &&
                  forall j :: 0 <= j < k ==> ParseGroup(tokens[j]).Ok?
  {
    if ParseGroups(tokens).Ok? {
      ReadEachOk(tokens, ParseGroup);
    } else {
      ReadEachFirstError(tokens, ParseGroup);
    }
  }

  /** When the first group and the rest read, the pattern is the first period and the rest. */
  lemma ParseGroupsCons(tokens: seq<string>, p: Period, ps: seq<Period>)
    requires tokens != [] && ParseGroup(tokens[0]) == Ok(p) && ParseGroups(tokens[1..]) == Ok(ps)
    ensures ParseGroups(tokens) == Ok([p] + ps)
  {
  }

  /**
   * One trimmed, non-blank line: an optional name, then the rest read by
   * `ParseWorking`.
   */
  function ParseLine(line: string): (r: Result<PeriodBlock, Reason>)
    ensures r.Ok? ==> r.value.repeatYears > 0 && r.value.pattern != [] && Positive(r.value.pattern)
    ensures r.Ok? && r.value.name.Some? ==> ':' in line
  {
    var (name, working) := Working(line);
    ParseWorking(name, working)
  }

  /** The pattern text: what comes before the first `x` or `X`, trimmed. */
  function PatternPart(working: string): (r: string) {
    Trim(Split(working, {'x', 'X'})[0])
  }

  /**
   * The repeat text: what lies between the first and any second `x` or
   * `X`, trimmed; empty (`undefined`) when there is no `x`.
   */
  function RepeatPart(working: string): (r: string) {
    var parts := Split(working, {'x', 'X'});
    if |parts| < 2 then [] else Trim(parts[1])
  }

  /**
   * The pattern text and the repeat count on either side of the first `x`
   * or `X` (anything after a second one is ignored). The checks run in the
   * source's order: both parts are present, the repeat count is a positive
   * integer, there is a group, every group is well formed.
   */
  function ParseWorking(name: Option<string>, working: string): (r: Result<PeriodBlock, Reason>)
    ensures r == Err(MissingRepeat) <==> PatternPart(working) == [] || RepeatPart(working) == []
    ensures r == Err(BadRepeat) <==>
      PatternPart(working) != [] && RepeatPart(working) != [] && !PositiveInteger(Number(RepeatPart(working)))
    ensures r == Err(NoGroups) <==>
      PatternPart(working) != [] && PositiveInteger(Number(RepeatPart(working))) && Groups(PatternPart(working)) == []
    ensures r.Ok? <==>
      PatternPart(working) != [] && PositiveInteger(Number(RepeatPart(working))) && Groups(PatternPart(working)) != [] &&
      ParseGroups(Groups(PatternPart(working))).Ok?
    ensures r.Err? && GroupReason(r.error) ==> ParseGroups(Groups(PatternPart(working))) == Err(r.error)
    ensures r.Ok? ==> r.value.pattern == ParseGroups(Groups(PatternPart(working))).value
    ensures r.Ok? ==> r.value.repeatYears > 0 && r.value.repeatYears as real == Number(RepeatPart(working)).value
    ensures r.Ok? ==> r.value.pattern != [] && Positive(r.value.pattern)
    ensures r.Ok? ==> r.value.name == name
  {
    var patternPart, repeatPart := PatternPart(working), RepeatPart(working);
    if patternPart == [] || repeatPart == [] then Err(MissingRepeat)
    else
      var repeat := Number(repeatPart);
      if !PositiveInteger(repeat) then Err(BadRepeat)
      else
        var groups := Groups(patternPart);
        if groups == [] then Err(NoGroups)
        else
          match ParseGroups(groups)
          case Err(e) => Err(e)
          case Ok(pattern) => Ok(PeriodBlock(pattern, repeat.value.Floor, name))
  }

  /** A group's text cut at its one comma, brackets dropped. */
  lemma GroupPiecesOf(a: string, b: string)
    requires NoneOf(a, {'(', ')', ','}) && NoneOf(b, {'(', ')', ','})
    ensures Split(RemoveChars("(" + a + "," + b + ")", {'(', ')'}), {','}) == [a, b]
  {
    var cs := {'(', ')'};
    var inner := a + [','] + b;
    assert "(" + a + "," + b + ")" == "(" + (inner + ")");
    assert NoneOf(inner, cs);
    RemoveCharsConcat("(", inner + ")", cs);
    RemoveCharsConcat(inner, ")", cs);
    assert RemoveChars("(", cs) == [] && RemoveChars(")", cs) == [];
    assert RemoveChars("(" + a + "," + b + ")", cs) == a + [','] + b;
    SplitAfterPrefix(a, ',', b, {','});
    SplitNoSeparator(b, {','});
  }

  /**
   * Months are never rounded: a group whose months do not read as a
   * positive integer is rejected, whatever its flow.
   */
  lemma MonthsNotRounded(a: string, b: string)
    requires NoneOf(a, {'(', ')', ','}) && NoneOf(b, {'(', ')', ','})
    requires !PositiveInteger(Number(Trim(a)))
    ensures ParseGroup("(" + a + "," + b + ")") == Err(BadMonths)
  {
    GroupPiecesOf(a, b);
  }

  /** The working text holds no character the line does not. */
  lemma WorkingWithout(line: string, cs: set<char>)
    requires NoneOf(line, cs)
    ensures NoneOf(Working(line).1, cs)
  {
    if NameSplit(line).Some? {
      var c := NextIndex(line, ':', 0);
      assert NoneOf(line[c + 1..], cs);
    }
  }

  /** Working text with no `x` or `X` has no repeat count. */
  lemma NoRepeatPart(name: Option<string>, working: string)
    requires NoneOf(working, {'x', 'X'})
    ensures ParseWorking(name, working) == Err(MissingRepeat)
  {
    SplitNoSeparator(working, {'x', 'X'});
    assert RepeatPart(working) == [];
  }

  /** A line with no `x` or `X` has no repeat count and is rejected for it. */
  lemma LineWithoutRepeat(line: string)
    requires NoneOf(line, {'x', 'X'})
    ensures ParseLine(line) == Err(MissingRepeat)
  {
    WorkingWithout(line, {'x', 'X'});
    NoRepeatPart(Working(line).0, Working(line).1);
  }

  /** A group without a comma has no flow to read, and reading it throws. */
  lemma GroupWithoutComma(a: string)
    requires NoneOf(a, {'(', ')', ','})
    ensures ParseGroup("(" + a + ")") == Err(MissingFlow)
  {
    var cs := {'(', ')'};
    assert "(" + a + ")" == "(" + (a + ")");
    assert NoneOf(a, cs);
    RemoveCharsConcat("(", a + ")", cs);
    RemoveCharsConcat(a, ")", cs);
    assert RemoveChars("(", cs) == [] && RemoveChars(")", cs) == [];
    assert RemoveChars("(" + a + ")", cs) == a;
    SplitNoSeparator(a, {','});
  }

  /** `Number("1.5")` is one and a half. */
  lemma OneAndAHalf()
    ensures Number(Trim("1.5")) == Finite(1.5)
  {
    var t := "1.5";
    assert IsTrimmed(t) by {
      assert !IsJsSpace(t[0]) && !IsJsSpace(t[2]);
    }
    TrimTrimmed(t);
    assert ScanDecimal(t, 0, false, false, 0, 0) == ScanDecimal(t, 3, true, true, 15, 1) == Finite(1.5);
  }

  /** `(1.5, 2)` is rejected rather than read as one month. */
  lemma FractionalMonthsRejected()
    ensures ParseGroup("(" + "1.5" + "," + " 2" + ")") == Err(BadMonths)
  {
    var a, b := "1.5", " 2";
    OneAndAHalf();
    assert (1.5).Floor == 1;
    assert NoneOf(a, {'(', ')', ','}) && NoneOf(b, {'(', ')', ','});
    MonthsNotRounded(a, b);
  }

  // ---------------------------------------------------------------------
  // parseDslToBlocks
  // ---------------------------------------------------------------------

  /** A rejected line: its 1-based position among the non-blank lines, and why. */
  datatype LineError = LineError(line: nat, reason: Reason)

  /** The blocks read and the lines rejected. */
  datatype Parsed = Parsed(blocks: seq<PeriodBlock>, errors: seq<LineError>)

  /** The error messages of the rejected lines, in order. */
  function Rendered(errors: seq<LineError>): (r: seq<string>)
    ensures |r| == |errors|
  {
    seq(|errors|, k requires 0 <= k < |errors| => ErrorText(errors[k].line, errors[k].reason))
  }

  /** What each line parses to, in order. */
  function LineResults(lines: seq<string>): (r: seq<Result<PeriodBlock, Reason>>)
    ensures |r| == |lines|
  {
    seq(|lines|, i requires 0 <= i < |lines| => ParseLine(lines[i]))
  }

  /**
   * The outcome of the first `n` line results: each adds its block, or an
   * error naming its 1-based position among the non-blank lines.
   */
  function Collected(results: seq<Result<PeriodBlock, Reason>>, n: nat): (r: Parsed)
    requires n <= |results|
    ensures |r.blocks| + |r.errors| == n
  {
    if n == 0 then Parsed([], []) else Record(Collected(results, n - 1), results[n - 1], n)
  }

  /** The outcome after one more line result, the line being the `lineNumber`-th. */
  function Record(before: Parsed, result: Result<PeriodBlock, Reason>, lineNumber: nat): (r: Parsed)
    ensures |r.blocks| + |r.errors| == |before.blocks| + |before.errors| + 1
  {
    match result
    case Ok(b) => before.(blocks := before.blocks + [b])
    case Err(e) => before.(errors := before.errors + [LineError(lineNumber, e)])
  }

  /** Rendering one more error adds its message. */
  lemma RenderedSnoc(errors: seq<LineError>, e: LineError)
    ensures Rendered(errors + [e]) == Rendered(errors) + [ErrorText(e.line, e.reason)]
  {
  }

  /** The lines of a text read in order. */
  function ParseDsl(text: string): (r: Parsed) {
    var lines := Lines(text);
    Collected(LineResults(lines), |lines|)
  }

  /** A block the DSL can express: a pattern of periods of a month or more, repeated a positive number of years. */
  predicate WellFormed(b: PeriodBlock) {
    b.repeatYears > 0 && b.pattern != [] && Positive(b.pattern)
  }

  /** Every successful result is a well-formed block. */
  predicate OnlyWellFormed(results: seq<Result<PeriodBlock, Reason>>) {
    forall i :: 0 <= i < |results| && results[i].Ok? ==> WellFormed(results[i].value)
  }

  /** `b` is one of the first `n` results. */
  predicate ReadFrom(results: seq<Result<PeriodBlock, Reason>>, n: nat, b: PeriodBlock)
    requires n <= |results|
  {
    exists i :: 0 <= i < n && results[i] == Ok(b)
  }

  /** Every collected block is well formed and is one of the line results. */
  lemma {:induction false} CollectedBlocks(results: seq<Result<PeriodBlock, Reason>>, n: nat)
    requires n <= |results| && OnlyWellFormed(results)
    ensures forall k :: 0 <= k < |Collected(results, n).blocks| ==> WellFormed(Collected(results, n).blocks[k])
    ensures forall k :: 0 <= k < |Collected(results, n).blocks| ==> ReadFrom(results, n, Collected(results, n).blocks[k])
  {
    if n > 0 {
      CollectedBlocks(results, n - 1);
      var before, after := Collected(results, n - 1), Collected(results, n);
      forall k | 0 <= k < |after.blocks|
        ensures WellFormed(after.blocks[k]) && ReadFrom(results, n, after.blocks[k])
      {
        if k < |before.blocks| {
          var i :| 0 <= i < n - 1 && results[i] == Ok(before.blocks[k]);
          assert after.blocks[k] == before.blocks[k];
          assert 0 <= i < n && results[i] == Ok(after.blocks[k]);
        } else {
          assert results[n - 1] == Ok(after.blocks[k]);
        }
      }
    }
  }

  /** A line that fails adds an error with its position and reason, and later lines are still read. */
  lemma {:induction false} CollectedErrors(results: seq<Result<PeriodBlock, Reason>>, n: nat, i: nat)
    requires i < n <= |results| && results[i].Err?
    ensures LineError(i + 1, results[i].error) in Collected(results, n).errors
  {
    if n - 1 > i {
      CollectedErrors(results, n - 1, i);
    }
  }

  /** The rest of a line reads as a block when each of its parts reads. */
  lemma ParseWorkingOk(name: Option<string>, working: string, patternPart: string, repeatPart: string,
                       repeatYears: int, groups: seq<string>, pattern: seq<Period>)
    requires Split(working, {'x', 'X'}) == [patternPart + " ", repeatPart]
    requires patternPart != [] && Trim(patternPart + " ") == patternPart
    requires repeatPart != [] && Trim(repeatPart) == repeatPart
    requires Number(repeatPart) == Finite(repeatYears as real) && repeatYears > 0
    requires Groups(patternPart) == groups && groups != [] && ParseGroups(groups) == Ok(pattern)
    ensures ParseWorking(name, working) == Ok(PeriodBlock(pattern, repeatYears, name))
  {
    var repeat := repeatYears as real;
    assert repeat.Floor == repeatYears;
  }

  /** When every line parses, the blocks are collected in order and there is no error. */
  lemma {:induction false} CollectedOk(results: seq<Result<PeriodBlock, Reason>>, blocks: seq<PeriodBlock>, n: nat)
    requires n <= |results| == |blocks|
    requires forall i :: 0 <= i < |results| ==> results[i] == Ok(blocks[i])
    ensures Collected(results, n) == Parsed(blocks[..n], [])
  {
    if n > 0 {
      CollectedOk(results, blocks, n - 1);
      assert blocks[..n] == blocks[..n - 1] + [blocks[n - 1]];
    }
  }

  /** Every line that parses gives a well-formed block. */
  lemma LineResultsWellFormed(lines: seq<string>)
    ensures OnlyWellFormed(LineResults(lines))
  {
  }

  /**
   * Reading a text gives one block or one error per non-blank line, and
   * only well-formed blocks.
   */
  lemma ParseDslMeaning(text: string)
    ensures |ParseDsl(text).blocks| + |ParseDsl(text).errors| == |Lines(text)|
    ensures forall k :: 0 <= k < |ParseDsl(text).blocks| ==> WellFormed(ParseDsl(text).blocks[k])
  {
    var lines := Lines(text);
    LineResultsWellFormed(lines);
    CollectedBlocks(LineResults(lines), |lines|);
  }

  /**
   * Adds one line's outcome to the blocks read so far, or its error
   * message to the messages so far.
   */
  method AddLine(result: Result<PeriodBlock, Reason>, lineNumber: nat, blocks: seq<PeriodBlock>, errors: seq<string>,
                 ghost rejected: seq<LineError>)
    returns (blocks': seq<PeriodBlock>, errors': seq<string>, ghost rejected': seq<LineError>)
    requires errors == Rendered(rejected)
    ensures result.Ok? ==> blocks' == blocks + [result.value] && errors' == errors
    ensures result.Err? ==> blocks' == blocks && errors' == errors + [ErrorText(lineNumber, result.error)]
    ensures Parsed(blocks', rejected') == Record(Parsed(blocks, rejected), result, lineNumber)
    ensures errors' == Rendered(rejected')
  {
    match result
    case Ok(b) =>
      blocks', errors', rejected' := blocks + [b], errors, rejected;
    case Err(e) =>
      RenderedSnoc(rejected, LineError(lineNumber, e));
      blocks', errors', rejected' := blocks, errors + [ErrorText(lineNumber, e)], rejected + [LineError(lineNumber, e)];
  }

  /** What `parse` makes of each line, in order. */
  function Results(lines: seq<string>, parse: string -> Result<PeriodBlock, Reason>): (r: seq<Result<PeriodBlock, Reason>>)
    ensures |r| == |lines|
  {
    seq(|lines|, i requires 0 <= i < |lines| => parse(lines[i]))
  }

  /** Reading the lines with `ParseLine` gives the line results. */
  lemma ResultsOfParseLine(lines: seq<string>)
    ensures Results(lines, ParseLine) == LineResults(lines)
  {
  }

  /**
   * The loop over the lines: each line read with `parse` either adds its
   * block or adds an error naming the line's position.
   */
  method CollectLines(lines: seq<string>, parse: string -> Result<PeriodBlock, Reason>)
    returns (blocks: seq<PeriodBlock>, errors: seq<string>)
    ensures blocks == Collected(Results(lines, parse), |lines|).blocks
    ensures errors == Rendered(Collected(Results(lines, parse), |lines|).errors)
  {
    ghost var results := Results(lines, parse);
    blocks := [];
    errors := [];
    ghost var rejected: seq<LineError> := [];
    for idx := 0 to |lines|
      invariant Parsed(blocks, rejected) == Collected(results, idx) && errors == Rendered(rejected)
    {
      blocks, errors, rejected := AddLine(parse(lines[idx]), idx + 1, blocks, errors, rejected);
    }
  }

  /**
   * Reads the DSL text: every non-blank line either becomes a block or adds
   * an error, in line order.
   */
  method ParseDslToBlocks(dslText: string) returns (blocks: seq<PeriodBlock>, errors: seq<string>)
    ensures blocks == ParseDsl(dslText).blocks && errors == Rendered(ParseDsl(dslText).errors)
  {
    var lines := Lines(dslText);
    blocks, errors := CollectLines(lines, ParseLine);
    ResultsOfParseLine(lines);
  }
}
