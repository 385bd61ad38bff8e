/**
 * `parseDSL`: a single pass over the lines of a runbook that builds a
 * `Procedure` or stops at the first error.
 *
 * The functions `Advance` and `Run` state what one line does to the
 * parser's state and what the whole pass yields; the method `Parse` is the
 * loop of the original, with its nested block-scalar loop, proved to
 * compute `ParseLines`.
 */
module Parser {
  import opened Text
  import opened Runbook
  import opened LineClassifier

  /** The state the loop carries from line to line: the procedure built so
      far (title, description, finished steps), the open step
      (`currentStep`, `None` for `null`) and the counter `stepIndex`. */
  datatype ParseState = ParseState(
    title: string,
    description: string,
    steps: seq<Step>,
    current: Option<Step>,
    stepIndex: nat)

  const Initial: ParseState := ParseState(DefaultTitle, "", [], None, 0)

  /** `finalizeCurrentStep`: an open step is pushed when it has a command
      and is an error when it has none; without an open step nothing
      happens. */
  function Finalize(st: ParseState): (r: Result<ParseState>)
    ensures r.Err? <==> st.current.Some? && |st.current.value.commands| == 0
    ensures r.Err? ==> r.error == StepWithoutCommands(st.current.value.title)
    ensures r.Ok? ==> r.value.current.None?
    ensures r.Ok? ==> r.value.steps == st.steps + (if st.current.Some? then [st.current.value] else [])
    ensures r.Ok? ==> r.value.(steps := st.steps, current := st.current) == st
  {
    match st.current
    case None => Ok(st)
    case Some(s) =>
      if |s.commands| == 0 then Err(StepWithoutCommands(s.title))
      else Ok(st.(steps := st.steps + [s], current := None))
  }

  /** A line that ends a `command: |` block: the empty line, or one that
      does not start with a space or a tab. */
  predicate EndsBlock(raw: string)
  {
    raw == "" || !HasIndent(raw)
  }

  /** What a line inside a block contributes: "" for a line that is blank
      after trimming, otherwise the line without its leading spaces and
      tabs. */
  function BlockLine(raw: string): (r: string)
    ensures r == "" <==> AllWhitespace(raw)
    ensures |r| <= |raw| && r == raw[|raw| - |r|..]
    ensures !AllWhitespace(raw) ==> AllIndent(raw[..|raw| - |r|]) && !HasIndent(r)
  {
    if AllWhitespace(raw) then "" else StripIndent(raw)
  }

  /** The lines of a block and the index of the first line after it. */
  datatype Block = Block(body: seq<string>, end: nat)

  /** The block starting at index `from`: the lines up to the first one
      that ends a block, each turned into its `BlockLine`. */
  function CollectBlock(lines: seq<string>, from: nat): (b: Block)
    requires from <= |lines|
    ensures from <= b.end <= |lines|
    ensures |b.body| == b.end - from
  {
    CollectFromBounds(lines, from, []);
    CollectFrom(lines, from, [])
  }

  /** The lines already collected, `acc`, followed by the block that
      starts at index `k`. */
  function CollectFrom(lines: seq<string>, k: nat, acc: seq<string>): Block
    requires k <= |lines|
    decreases |lines| - k
  {
    if k == |lines| || EndsBlock(lines[k]) then Block(acc, k)
    else CollectFrom(lines, k + 1, acc + [BlockLine(lines[k])])
  }

  /** Collecting goes forward from `k`, and adds one line per line it
      consumes. */
  lemma {:induction false} CollectFromBounds(lines: seq<string>, k: nat, acc: seq<string>)
    requires k <= |lines|
    ensures k <= CollectFrom(lines, k, acc).end <= |lines|
    ensures |CollectFrom(lines, k, acc).body| == |acc| + (CollectFrom(lines, k, acc).end - k)
    decreases |lines| - k
  {
    if k < |lines| && !EndsBlock(lines[k]) {
      CollectFromBounds(lines, k + 1, acc + [BlockLine(lines[k])]);
    }
  }

  /** Collecting from `k` consumes lines that do not end a block, and stops
      at the end of input or at a line that ends one. */
  lemma {:induction false} CollectFromStops(lines: seq<string>, k: nat, acc: seq<string>)
    requires k <= |lines|
    ensures k <= CollectFrom(lines, k, acc).end <= |lines|
    ensures forall m :: k <= m < CollectFrom(lines, k, acc).end ==> !EndsBlock(lines[m])
    ensures CollectFrom(lines, k, acc).end == |lines| || EndsBlock(lines[CollectFrom(lines, k, acc).end])
    decreases |lines| - k
  {
    if k < |lines| && !EndsBlock(lines[k]) {
      CollectFromStops(lines, k + 1, acc + [BlockLine(lines[k])]);
    }
  }

  /** `f` applied to each of the lines at indices `k` up to `e`. */
  function MapLines(f: string -> string, lines: seq<string>, k: nat, e: nat): (r: seq<string>)
    requires k <= e <= |lines|
    ensures |r| == e - k
    decreases e - k
  {
    if k == e then [] else [f(lines[k])] + MapLines(f, lines, k + 1, e)
  }

  /** The `j`-th entry of a mapped range comes from the `j`-th line. */
  lemma {:induction false} MapLinesAt(f: string -> string, lines: seq<string>, k: nat, e: nat, j: nat)
    requires k <= e <= |lines| && j < e - k
    ensures MapLines(f, lines, k, e)[j] == f(lines[k + j])
    decreases j
  {
    if j > 0 {
      MapLinesAt(f, lines, k + 1, e, j - 1);
    }
  }

  /** What the lines at indices `k` up to `e` contribute to a block. */
  function BlockLines(lines: seq<string>, k: nat, e: nat): (r: seq<string>)
    requires k <= e <= |lines|
    ensures |r| == e - k
  {
    MapLines(BlockLine, lines, k, e)
  }

  /** The lines collected from `k` are those already collected, followed by
      what each consumed line contributes. */
  lemma {:induction false} CollectFromBody(lines: seq<string>, k: nat, acc: seq<string>)
    requires k <= |lines|
    ensures k <= CollectFrom(lines, k, acc).end <= |lines|
    ensures CollectFrom(lines, k, acc).body == acc + BlockLines(lines, k, CollectFrom(lines, k, acc).end)
    decreases |lines| - k
  {
    CollectFromBounds(lines, k, acc);
    if k < |lines| && !EndsBlock(lines[k]) {
      var acc' := acc + [BlockLine(lines[k])];
      CollectFromBody(lines, k + 1, acc');
      var e := CollectFrom(lines, k + 1, acc').end;
      assert CollectFrom(lines, k, acc) == CollectFrom(lines, k + 1, acc');
      assert acc' + BlockLines(lines, k + 1, e) == acc + BlockLines(lines, k, e);
    }
  }

  /** A block is the longest run of lines from `from` on that do not end a
      block; it stops at the end of input or at a line that ends it, which
      it does not consume, and each of its lines contributes its
      `BlockLine`. */
  lemma CollectBlockIsMaximalRun(lines: seq<string>, from: nat)
    requires from <= |lines|
    ensures forall k :: from <= k < CollectBlock(lines, from).end ==> !EndsBlock(lines[k])
    ensures CollectBlock(lines, from).end == |lines| || EndsBlock(lines[CollectBlock(lines, from).end])
    ensures CollectBlock(lines, from).body == BlockLines(lines, from, CollectBlock(lines, from).end)
  {
    CollectFromStops(lines, from, []);
    CollectFromBody(lines, from, []);
    assert [] + BlockLines(lines, from, CollectBlock(lines, from).end)
      == BlockLines(lines, from, CollectBlock(lines, from).end);
  }

  /** The open step with one more command, identified by its position. */
  function AddCommand(st: ParseState, text: string): (r: ParseState)
    requires st.current.Some?
    ensures r.current.Some? && r.(current := st.current) == st
    ensures var before, after := st.current.value, r.current.value;
      && after.(commands := before.commands) == before
      && |after.commands| == |before.commands| + 1
      && after.commands[..|before.commands|] == before.commands
      && after.commands[|before.commands|] == Command(CommandId(before.id, |before.commands|), text)
  {
    var s := st.current.value;
    st.(current := Some(s.(commands := s.commands + [Command(CommandId(s.id, |s.commands|), text)])))
  }

  /** Where the loop goes next: the index of the next line to read and the
      new state. */
  datatype Next = Next(index: nat, state: ParseState)

  /** What processing the line at index `i` does. Every error it raises
      cites line `i + 1`, except the one for a step closed without
      commands. */
  function Advance(lines: seq<string>, i: nat, st: ParseState): (r: Result<Next>)
    requires i < |lines|
    ensures r.Ok? ==> i < r.value.index <= |lines|
    ensures r.Err? && r.error.HasLine() ==> r.error.line == i + 1
    ensures r.Err? && !r.error.HasLine() ==> r.error.StepWithoutCommands?
    ensures Classify(lines[i]) == NoDelimiter ==> r == Err(Unparsable(i + 1, lines[i]))
  {
    match Classify(lines[i])
    case Blank =>
      (match Finalize(st)
       case Err(e) => Err(e)
       case Ok(closed) => Ok(Next(i + 1, closed)))
    case Comment => Ok(Next(i + 1, st))
    case NoDelimiter => Err(Unparsable(i + 1, lines[i]))
    case Directive(keyword, value) => ApplyDirective(lines, i, st, keyword, value)
  }

  /** The `switch (keyword)` of the directive on the line at index `i`. */
  function ApplyDirective(lines: seq<string>, i: nat, st: ParseState, keyword: string, value: string): (r: Result<Next>)
    requires i < |lines|
    ensures r.Ok? ==> i < r.value.index <= |lines|
    ensures r.Err? && r.error.HasLine() ==> r.error.line == i + 1
    ensures r.Err? && !r.error.HasLine() ==> r.error.StepWithoutCommands?
    ensures keyword == "title" ==>
      && r.Ok? && r.value.index == i + 1
      && r.value.state.title == (if value == "" then UntitledTitle else value)
      && r.value.state.(title := st.title) == st
    ensures keyword == "description" ==>
      && r.Ok? && r.value.index == i + 1
      && r.value.state.description == value
      && r.value.state.(description := st.description) == st
    ensures keyword == "note" ==> (r.Ok? <==> st.current.Some?)
    ensures keyword == "note" && r.Ok? ==>
      && r.value.index == i + 1
      && r.value.state.current == Some(st.current.value.(note := value))
      && r.value.state.(current := st.current) == st
    ensures keyword == "step" ==> r == ApplyStep(i, st, value)
    ensures keyword == "command" ==> r == ApplyCommand(lines, i, st, value)
    ensures keyword !in KnownKeywords ==> r == Err(UnknownKeyword(i + 1, keyword))
  {
    if keyword == "title" then
      Ok(Next(i + 1, st.(title := if value == "" then UntitledTitle else value)))
    else if keyword == "description" then
      Ok(Next(i + 1, st.(description := value)))
    else if keyword == "step" then
      ApplyStep(i, st, value)
    else if keyword == "note" then
      if st.current.None? then Err(NoteWithoutStep(i + 1))
      else Ok(Next(i + 1, st.(current := Some(st.current.value.(note := value)))))
    else if keyword == "command" then
      ApplyCommand(lines, i, st, value)
    else Err(UnknownKeyword(i + 1, keyword))
  }

  /** A `step:` directive with value `value` on the line at index `i`:
      the open step is closed first, then a step with the next ordinal is
      opened. */
  function ApplyStep(i: nat, st: ParseState, value: string): (r: Result<Next>)
    ensures r.Ok? <==> Finalize(st).Ok? && value != ""
    ensures Finalize(st).Err? ==> r == Err(Finalize(st).error)
    ensures Finalize(st).Ok? && value == "" ==> r == Err(MissingStepTitle(i + 1))
    ensures r.Ok? ==> r.value.index == i + 1
    ensures r.Ok? ==> var after := r.value.state;
      && after.current == Some(Step(StepId(st.stepIndex), value, "", []))
      && after.stepIndex == st.stepIndex + 1
      && after.steps == Finalize(st).value.steps
      && after.title == st.title && after.description == st.description
  {
    match Finalize(st)
    case Err(e) => Err(e)
    case Ok(closed) =>
      if value == "" then Err(MissingStepTitle(i + 1))
      else
        var newStep := Step(StepId(closed.stepIndex), value, "", []);
        Ok(Next(i + 1, closed.(current := Some(newStep), stepIndex := closed.stepIndex + 1)))
  }

  /** A `command:` directive with value `value` on the line at index `i`. */
  function ApplyCommand(lines: seq<string>, i: nat, st: ParseState, value: string): (r: Result<Next>)
    requires i < |lines|
    ensures r.Ok? ==> i < r.value.index <= |lines|
    ensures r.Ok? ==> st.current.Some? && value != ""
    ensures r.Err? ==>
      r.error == (if st.current.None? then CommandWithoutStep(i + 1)
                  else if value == "" then EmptyCommand(i + 1)
                  else EmptyBlock(i + 1))
  {
    if st.current.None? then Err(CommandWithoutStep(i + 1))
    else if value == "" then Err(EmptyCommand(i + 1))
    else if value == "|" then
      var block := CollectBlock(lines, i + 1);
      if |block.body| == 0 then Err(EmptyBlock(i + 1))
      else Ok(Next(block.end, AddCommand(st, Join(block.body, '\n'))))
    else Ok(Next(i + 1, AddCommand(st, value)))
  }

  /** After the last line: close the open step, then require a step. */
  function Finish(st: ParseState): (r: Result<Procedure>)
    ensures Finalize(st).Err? ==> r == Err(Finalize(st).error)
    ensures Finalize(st).Ok? ==> var closed := Finalize(st).value;
      if |closed.steps| == 0 then r == Err(NoSteps)
      else r == Ok(Procedure(st.title, st.description, closed.steps))
  {
    match Finalize(st)
    case Err(e) => Err(e)
    case Ok(closed) =>
      if |closed.steps| == 0 then Err(NoSteps)
      else Ok(Procedure(closed.title, closed.description, closed.steps))
  }

  /** The result of the pass that starts at index `i` in state `st`. */
  function Run(lines: seq<string>, i: nat, st: ParseState): (r: Result<Procedure>)
    requires i <= |lines|
    ensures r.Ok? ==> |r.value.steps| >= 1
    ensures r.Err? && r.error.HasLine() ==> i < r.error.line <= |lines|
    decreases |lines| - i
  {
    if i == |lines| then Finish(st)
    else
      match Advance(lines, i, st)
      case Err(e) => Err(e)
      case Ok(next) => Run(lines, next.index, next.state)
  }

  /** The result of `parseDSL` on the given lines. */
  function ParseLines(lines: seq<string>): (r: Result<Procedure>)
    ensures r.Ok? ==> |r.value.steps| >= 1
    ensures r.Err? && r.error.HasLine() ==> 1 <= r.error.line <= |lines|
  {
    Run(lines, 0, Initial)
  }

  /** `source.replace(/\r\n/g, "\n").split("\n")`: the pieces of the
      source between its line feeds, each but the last without the carriage
      return right before its line feed; any other carriage return stays. */
  function SourceLines(source: string): (lines: seq<string>)
    ensures |lines| == Count(source, '\n') + 1
    ensures forall l :: l in lines ==> '\n' !in l
    ensures |lines| == |Split(source, '\n')|
    ensures forall k :: 0 <= k < |lines| ==>
      lines[k] == (if k < |lines| - 1 then WithoutTrailingCarriageReturn(Split(source, '\n')[k]) else Split(source, '\n')[k])
  {
    SplitCount(NormalizeNewlines(source), '\n');
    NormalizeKeepsLineBreaks(source);
    SplitNormalized(source);
    forall k | 0 <= k < |Split(source, '\n')|
      ensures RewrittenLines(Split(source, '\n'))[k]
        == (if k < |Split(source, '\n')| - 1 then WithoutTrailingCarriageReturn(Split(source, '\n')[k]) else Split(source, '\n')[k])
    {
      RewrittenLinesAt(Split(source, '\n'), k);
    }
    Split(NormalizeNewlines(source), '\n')
  }

  /** The closure `finalizeCurrentStep`, on the finished steps and the open
      step: the open step is pushed when it has a command, it is an error
      when it has none, and it is never dropped. */
  method FinalizeCurrentStep(steps: seq<Step>, currentStep: Option<Step>) returns (r: Result<seq<Step>>)
    ensures r.Err? <==> currentStep.Some? && |currentStep.value.commands| == 0
    ensures r.Err? ==> r.error == StepWithoutCommands(currentStep.value.title)
    ensures r.Ok? && currentStep.None? ==> r.value == steps
    ensures r.Ok? && currentStep.Some? ==> r.value == steps + [currentStep.value]
  {
    if currentStep.None? {
      return Ok(steps);
    }
    if |currentStep.value.commands| == 0 {
      return Err(StepWithoutCommands(currentStep.value.title));
    }
    r := Ok(steps + [currentStep.value]);
  }

  /** The lookahead of the block loop, on a line and its trimmed text:
      whether the text before the first `:` names a known keyword. It
      holds exactly when the main loop would read the line as a directive
      with a known keyword. */
  method StartsKnownDirective(blockRaw: string, blockTrimmed: string) returns (b: bool)
    requires blockTrimmed == Trim(blockRaw)
    ensures b <==> Classify(blockRaw).Directive? && Classify(blockRaw).keyword in KnownKeywords
  {
    var possibleDelimiter := IndexOf(blockTrimmed, ':');
    if possibleDelimiter.None? {
      return false;
    }
    var d := possibleDelimiter.value;
    var possibleKeyword := ToLowerAscii(Trim(blockTrimmed[..d]));
    b := possibleKeyword in KnownKeywords;
    assert possibleKeyword == KeywordOf(blockTrimmed[..d]);
    if IsCommentText(blockTrimmed) {
      assert Classify(blockRaw) == Comment;
      CommentStart(blockTrimmed);
      assert d > 0 ==> blockTrimmed[..d][0] == blockTrimmed[0];
      CommentHeadNotKnown(blockTrimmed[..d]);
    } else {
      SplitAtColon(blockTrimmed, d);
      DirectiveSplit(blockRaw, blockTrimmed[..d], blockTrimmed[d + 1..]);
    }
  }

  /** The inner loop of a `command: |` directive, from the line at index
      `from`: it collects lines until the end of input, an empty line or a
      line without indentation (the lookahead for a known keyword stops the
      block too, so it changes nothing), and returns them with the index of
      the first line it did not consume. */
  method CollectBlockLines(lines: seq<string>, from: nat) returns (blockLines: seq<string>, blockIndex: nat)
    requires from <= |lines|
    ensures Block(blockLines, blockIndex) == CollectBlock(lines, from)
  {
    blockLines := [];
    blockIndex := from;
    while blockIndex < |lines|
      invariant from <= blockIndex <= |lines|
      invariant CollectFrom(lines, blockIndex, blockLines) == CollectBlock(lines, from)
      decreases |lines| - blockIndex
    {
      var blockRaw := lines[blockIndex];
      if blockRaw == "" {
        break;
      }
      var hasIndent := HasIndent(blockRaw);
      var blockTrimmed := Trim(blockRaw);
      if !hasIndent {
        if blockTrimmed != "" {
          var isDirective := StartsKnownDirective(blockRaw, blockTrimmed);
          if isDirective {
            break;
          }
        }
        break;
      }
      if blockTrimmed == "" {
        blockLines := blockLines + [""];
        blockIndex := blockIndex + 1;
        continue;
      }
      blockLines := blockLines + [StripIndent(blockRaw)];
      blockIndex := blockIndex + 1;
    }
  }

  /** One iteration of the pass: `Run` continues from where `Advance`
      leads, or stops with its error. */
  lemma RunStep(lines: seq<string>, i: nat, st: ParseState)
    requires i < |lines|
    ensures Advance(lines, i, st).Err? ==> Run(lines, i, st) == Err(Advance(lines, i, st).error)
    ensures Advance(lines, i, st).Ok? ==>
      Run(lines, i, st) == Run(lines, Advance(lines, i, st).value.index, Advance(lines, i, st).value.state)
  {
  }

  /** The `switch (keyword)` of the loop, for the directive on the line at
      index `lineIndex`: it updates the title, the description or the open
      step, opens a step, or reads a command (a block for `command: |`). */
  method ApplyDirectiveLine(lines: seq<string>, lineIndex: nat, state: ParseState, keyword: string, value: string)
    returns (r: Result<Next>)
    requires lineIndex < |lines|
    ensures r == ApplyDirective(lines, lineIndex, state, keyword, value)
  {
    var lineNumber := lineIndex + 1;
    if keyword == "title" {
      return Ok(Next(lineIndex + 1, state.(title := if value == "" then UntitledTitle else value)));
    } else if keyword == "description" {
      return Ok(Next(lineIndex + 1, state.(description := value)));
    } else if keyword == "step" {
      var closed := FinalizeCurrentStep(state.steps, state.current);
      if closed.Err? {
        return Err(closed.error);
      }
      if value == "" {
        return Err(MissingStepTitle(lineNumber));
      }
      var newStep := Step(StepId(state.stepIndex), value, "", []);
      return Ok(Next(lineIndex + 1, state.(steps := closed.value, current := Some(newStep), stepIndex := state.stepIndex + 1)));
    } else if keyword == "note" {
      if state.current.None? {
        return Err(NoteWithoutStep(lineNumber));
      }
      return Ok(Next(lineIndex + 1, state.(current := Some(state.current.value.(note := value)))));
    } else if keyword == "command" {
      if state.current.None? {
        return Err(CommandWithoutStep(lineNumber));
      }
      if value == "" {
        return Err(EmptyCommand(lineNumber));
      }
      var commandText := value;
      var nextIndex := lineIndex + 1;
      if value == "|" {
        var blockLines, blockIndex := CollectBlockLines(lines, lineIndex + 1);
        if |blockLines| == 0 {
          return Err(EmptyBlock(lineNumber));
        }
        commandText, nextIndex := Join(blockLines, '\n'), blockIndex;
      }
      var step := state.current.value;
      var commandId := CommandId(step.id, |step.commands|);
      var command := Command(commandId, commandText);
      return Ok(Next(nextIndex, state.(current := Some(step.(commands := step.commands + [command])))));
    }
    return Err(UnknownKeyword(lineNumber, keyword));
  }

  /** The body of the loop for the line at index `lineIndex`: skip blank
      lines (closing the open step) and comments, reject a line without
      `:`, and hand a directive to the `switch`. */
  method ReadLine(lines: seq<string>, lineIndex: nat, state: ParseState) returns (r: Result<Next>)
    requires lineIndex < |lines|
    ensures r == Advance(lines, lineIndex, state)
  {
    var kind := Classify(lines[lineIndex]);
    match kind {
      case Blank =>
        var closed := FinalizeCurrentStep(state.steps, state.current);
        if closed.Err? {
          return Err(closed.error);
        }
        return Ok(Next(lineIndex + 1, state.(steps := closed.value, current := None)));
      case Comment =>
        return Ok(Next(lineIndex + 1, state));
      case NoDelimiter =>
        return Err(Unparsable(lineIndex + 1, lines[lineIndex]));
      case Directive(keyword, value) =>
        r := ApplyDirectiveLine(lines, lineIndex, state, keyword, value);
    }
  }

  /** `parseDSL` on the lines of the source, as the original computes it:
      one pass that carries the title, the description, the finished
      steps, the open step and the step counter from line to line, then
      closes the open step and requires at least one step. */
  method Parse(lines: seq<string>) returns (r: Result<Procedure>)
    ensures r == ParseLines(lines)
  {
    var state := Initial;
    var lineIndex: nat := 0;
    while lineIndex < |lines|
      invariant lineIndex <= |lines|
      invariant Run(lines, lineIndex, state) == ParseLines(lines)
      decreases |lines| - lineIndex
    {
      RunStep(lines, lineIndex, state);
      var next := ReadLine(lines, lineIndex, state);
      if next.Err? {
        return Err(next.error);
      }
      lineIndex, state := next.value.index, next.value.state;
    }

    var closed := FinalizeCurrentStep(state.steps, state.current);
    if closed.Err? {
      return Err(closed.error);
    }
    if |closed.value| == 0 {
      return Err(NoSteps);
    }
    r := Ok(Procedure(state.title, state.description, closed.value));
  }

  /** `parseDSL(source)`: normalise line ends, split into lines, parse. */
  method ParseDsl(source: string) returns (r: Result<Procedure>)
    ensures r == ParseLines(SourceLines(source))
  {
    var lines := Split(NormalizeNewlines(source), '\n');
    r := Parse(lines);
  }
}
