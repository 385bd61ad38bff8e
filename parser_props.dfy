/**
 * What `parseDSL` guarantees about its result and its errors, proved about
 * the functions `Advance` and `Run` that the method `Parse` computes.
 */
module ParserProperties {
  import opened Text
  import opened Runbook
  import opened LineClassifier
  import opened Parser

  /** What holds of the loop's state between lines: a non-empty title,
      finished steps shaped by their ordinal and each with a command, and a
      step counter that is the ordinal of the next step to open. */
  predicate Consistent(st: ParseState)
  {
    && st.title != ""
    && (forall k :: 0 <= k < |st.steps| ==> StepShaped(st.steps[k], k) && |st.steps[k].commands| >= 1)
    && (st.current.None? ==> st.stepIndex == |st.steps|)
    && (st.current.Some? ==> st.stepIndex == |st.steps| + 1 && StepShaped(st.current.value, |st.steps|))
  }

  lemma InitialConsistent()
    ensures Consistent(Initial)
  {
  }

  /** Closing the open step keeps the state consistent and leaves no step
      open. */
  lemma FinalizeKeepsConsistent(st: ParseState)
    requires Consistent(st) && Finalize(st).Ok?
    ensures Consistent(Finalize(st).value) && Finalize(st).value.current.None?
  {
    if st.current.Some? {
      var closed := Finalize(st).value;
      assert closed.steps == st.steps + [st.current.value];
      forall k | 0 <= k < |closed.steps|
        ensures StepShaped(closed.steps[k], k) && |closed.steps[k].commands| >= 1
      {
        if k < |st.steps| {
          assert closed.steps[k] == st.steps[k];
        }
      }
    }
  }

  /** A command added to the open step gets the id of its position. */
  lemma AddCommandKeepsConsistent(st: ParseState, text: string)
    requires Consistent(st) && st.current.Some?
    ensures Consistent(AddCommand(st, text))
    ensures |AddCommand(st, text).current.value.commands| >= 1
  {
    var s := st.current.value;
    var s' := AddCommand(st, text).current.value;
    forall j | 0 <= j < |s'.commands| ensures s'.commands[j].id == CommandId(s'.id, j) {
      if j < |s.commands| {
        assert s'.commands[j] == s.commands[j];
      }
    }
  }

  lemma ApplyStepKeepsConsistent(i: nat, st: ParseState, value: string)
    requires Consistent(st) && ApplyStep(i, st, value).Ok?
    ensures Consistent(ApplyStep(i, st, value).value.state)
  {
    FinalizeKeepsConsistent(st);
  }

  lemma ApplyCommandKeepsConsistent(lines: seq<string>, i: nat, st: ParseState, value: string)
    requires i < |lines| && Consistent(st) && ApplyCommand(lines, i, st, value).Ok?
    ensures Consistent(ApplyCommand(lines, i, st, value).value.state)
  {
    if value == "|" {
      AddCommandKeepsConsistent(st, Join(CollectBlock(lines, i + 1).body, '\n'));
    } else {
      AddCommandKeepsConsistent(st, value);
    }
  }

  lemma ApplyDirectiveKeepsConsistent(lines: seq<string>, i: nat, st: ParseState, keyword: string, value: string)
    requires i < |lines| && Consistent(st) && ApplyDirective(lines, i, st, keyword, value).Ok?
    ensures Consistent(ApplyDirective(lines, i, st, keyword, value).value.state)
  {
    if keyword == "step" {
      ApplyStepKeepsConsistent(i, st, value);
    } else if keyword == "command" {
      ApplyCommandKeepsConsistent(lines, i, st, value);
    }
  }

  /** Every line keeps the state consistent. */
  lemma AdvanceKeepsConsistent(lines: seq<string>, i: nat, st: ParseState)
    requires i < |lines| && Consistent(st) && Advance(lines, i, st).Ok?
    ensures Consistent(Advance(lines, i, st).value.state)
  {
    match Classify(lines[i])
    case Blank =>
      FinalizeKeepsConsistent(st);
    case Comment =>
    case NoDelimiter =>
    case Directive(keyword, value) =>
      ApplyDirectiveKeepsConsistent(lines, i, st, keyword, value);
  }

  lemma FinishWellFormed(st: ParseState)
    requires Consistent(st) && Finish(st).Ok?
    ensures WellFormed(Finish(st).value)
  {
    FinalizeKeepsConsistent(st);
  }

  lemma {:induction false} RunWellFormed(lines: seq<string>, i: nat, st: ParseState)
    requires i <= |lines| && Consistent(st) && Run(lines, i, st).Ok?
    ensures WellFormed(Run(lines, i, st).value)
    decreases |lines| - i
  {
    if i == |lines| {
      FinishWellFormed(st);
    } else {
      var next := Advance(lines, i, st).value;
      AdvanceKeepsConsistent(lines, i, st);
      RunWellFormed(lines, next.index, next.state);
    }
  }

  /** A successful parse has a non-empty title and at least one step; the
      step at position k has id `step-k`, a non-empty title and at least
      one command; the command at position j of a step has the id
      `<step id>__cmd_j`; and no two steps or commands share an id. */
  lemma ParseLinesWellFormed(lines: seq<string>)
    requires ParseLines(lines).Ok?
    ensures WellFormed(ParseLines(lines).value)
    ensures var p := ParseLines(lines).value;
      && (forall k1, k2 :: 0 <= k1 < k2 < |p.steps| ==> p.steps[k1].id != p.steps[k2].id)
      && (forall k1, j1, k2, j2 ::
            && 0 <= k1 < |p.steps| && 0 <= j1 < |p.steps[k1].commands|
            && 0 <= k2 < |p.steps| && 0 <= j2 < |p.steps[k2].commands|
            && (k1 != k2 || j1 != j2)
            ==> p.steps[k1].commands[j1].id != p.steps[k2].commands[j2].id)
  {
    InitialConsistent();
    RunWellFormed(lines, 0, Initial);
    WellFormedIdsUnique(ParseLines(lines).value);
  }

  /** What a directive with `keyword` and `value` must be for the error
      `e` to be its fault; a block error's directive is also followed by a
      line that ends the block (or by the end of input). */
  predicate DirectiveShows(lines: seq<string>, e: ParseError, keyword: string, value: string)
  {
    match e
    case UnknownKeyword(_, kw) => keyword == kw && kw !in KnownKeywords
    case MissingStepTitle(_) => keyword == "step" && value == ""
    case NoteWithoutStep(_) => keyword == "note"
    case CommandWithoutStep(_) => keyword == "command"
    case EmptyCommand(_) => keyword == "command" && value == ""
    case EmptyBlock(n) => keyword == "command" && value == "|" && (n == |lines| || (n < |lines| && EndsBlock(lines[n])))
    case _ => false
  }

  /** The line an error cites shows the fault the error names: the line
      is there, and it is the unparsable line or the directive the error
      is about. A step closed without commands is named by its
      (non-empty) title. */
  predicate LineShows(lines: seq<string>, e: ParseError)
  {
    match e
    case Unparsable(n, raw) => 1 <= n <= |lines| && raw == lines[n - 1] && Classify(raw) == NoDelimiter
    case StepWithoutCommands(title) => title != ""
    case NoSteps => true
    case _ =>
      && 1 <= e.line <= |lines|
      && Classify(lines[e.line - 1]).Directive?
      && DirectiveShows(lines, e, Classify(lines[e.line - 1]).keyword, Classify(lines[e.line - 1]).value)
  }

  lemma FinalizeErrorNamesStep(st: ParseState)
    requires Consistent(st) && Finalize(st).Err?
    ensures Finalize(st).error.StepWithoutCommands? && Finalize(st).error.stepTitle != ""
  {
  }

  /** On a directive line, `Advance` is the `switch` on its keyword. */
  lemma AdvanceOnDirective(lines: seq<string>, i: nat, st: ParseState, keyword: string, value: string)
    requires i < |lines| && Classify(lines[i]) == Directive(keyword, value)
    ensures Advance(lines, i, st) == ApplyDirective(lines, i, st, keyword, value)
  {
  }

  lemma ApplyCommandErrorShowsLine(lines: seq<string>, i: nat, st: ParseState, value: string)
    requires i < |lines| && ApplyCommand(lines, i, st, value).Err?
    ensures DirectiveShows(lines, ApplyCommand(lines, i, st, value).error, "command", value)
  {
    if st.current.Some? && value != "" {
      CollectBlockIsMaximalRun(lines, i + 1);
    }
  }

  /** The error of a directive's `switch` shows in the directive, or names
      the step it closed. */
  lemma ApplyDirectiveErrorShowsLine(lines: seq<string>, i: nat, st: ParseState, keyword: string, value: string)
    requires i < |lines| && Consistent(st) && ApplyDirective(lines, i, st, keyword, value).Err?
    ensures var e := ApplyDirective(lines, i, st, keyword, value).error;
      if e.HasLine() then DirectiveShows(lines, e, keyword, value) else e.StepWithoutCommands? && e.stepTitle != ""
  {
    if keyword == "step" {
      if Finalize(st).Err? {
        FinalizeErrorNamesStep(st);
      }
    } else if keyword == "command" {
      ApplyCommandErrorShowsLine(lines, i, st, value);
    }
  }

  /** An error raised while reading line i + 1 names that line and the
      fault it shows. */
  lemma AdvanceErrorShowsLine(lines: seq<string>, i: nat, st: ParseState)
    requires i < |lines| && Consistent(st) && Advance(lines, i, st).Err?
    ensures LineShows(lines, Advance(lines, i, st).error)
  {
    match Classify(lines[i])
    case Blank =>
      BlankErrorShowsStep(lines, i, st);
    case Comment =>
      CommentKeepsState(lines, i, st);
    case NoDelimiter =>
      UnparsableErrorShowsLine(lines, i, st);
    case Directive(keyword, value) =>
      DirectiveErrorShowsLine(lines, i, st, keyword, value);
  }

  lemma BlankErrorShowsStep(lines: seq<string>, i: nat, st: ParseState)
    requires i < |lines| && Classify(lines[i]) == Blank
    requires Consistent(st) && Advance(lines, i, st).Err?
    ensures LineShows(lines, Advance(lines, i, st).error)
  {
    AdvanceOnBlank(lines, i, st);
    FinalizeErrorNamesStep(st);
  }

  lemma UnparsableErrorShowsLine(lines: seq<string>, i: nat, st: ParseState)
    requires i < |lines| && Classify(lines[i]) == NoDelimiter
    ensures LineShows(lines, Advance(lines, i, st).error)
  {
    assert lines[(i + 1) - 1] == lines[i];
  }

  lemma DirectiveErrorShowsLine(lines: seq<string>, i: nat, st: ParseState, keyword: string, value: string)
    requires i < |lines| && Classify(lines[i]) == Directive(keyword, value)
    requires Consistent(st) && Advance(lines, i, st).Err?
    ensures LineShows(lines, Advance(lines, i, st).error)
  {
    AdvanceOnDirective(lines, i, st, keyword, value);
    ApplyDirectiveErrorShowsLine(lines, i, st, keyword, value);
    assert lines[(i + 1) - 1] == lines[i];
  }

  lemma {:induction false} RunErrorShowsLine(lines: seq<string>, i: nat, st: ParseState)
    requires i <= |lines| && Consistent(st) && Run(lines, i, st).Err?
    ensures LineShows(lines, Run(lines, i, st).error)
    decreases |lines| - i
  {
    if i == |lines| {
      if Finalize(st).Err? {
        FinalizeErrorNamesStep(st);
      }
    } else if Advance(lines, i, st).Err? {
      AdvanceErrorShowsLine(lines, i, st);
    } else {
      var next := Advance(lines, i, st).value;
      AdvanceKeepsConsistent(lines, i, st);
      RunErrorShowsLine(lines, next.index, next.state);
    }
  }

  /** Every error of a parse cites a line that exists and shows the fault
      the message describes, or names a step by its title. */
  lemma ParseLinesErrorShowsLine(lines: seq<string>)
    requires ParseLines(lines).Err?
    ensures LineShows(lines, ParseLines(lines).error)
  {
    InitialConsistent();
    RunErrorShowsLine(lines, 0, Initial);
  }

  /** A comment line changes nothing, not even the open step: a step may
      continue after comments. */
  lemma CommentKeepsState(lines: seq<string>, i: nat, st: ParseState)
    requires i < |lines| && Classify(lines[i]) == Comment
    ensures Run(lines, i, st) == Run(lines, i + 1, st)
  {
  }

  /** On a blank line, `Advance` closes the open step. */
  lemma AdvanceOnBlank(lines: seq<string>, i: nat, st: ParseState)
    requires i < |lines| && Classify(lines[i]) == Blank
    ensures Finalize(st).Err? ==> Advance(lines, i, st) == Err(Finalize(st).error)
    ensures Finalize(st).Ok? ==> Advance(lines, i, st) == Ok(Next(i + 1, Finalize(st).value))
  {
  }

  /** Without an open step, `note:` and `command:` are errors that cite
      their line. */
  lemma StepDirectiveWithoutStep(lines: seq<string>, i: nat, st: ParseState, keyword: string, value: string)
    requires i < |lines| && st.current.None? && keyword in {"note", "command"}
    ensures ApplyDirective(lines, i, st, keyword, value)
      == Err(if keyword == "note" then NoteWithoutStep(i + 1) else CommandWithoutStep(i + 1))
  {
  }

  /** A blank line closes the open step, so a `note:` or `command:` right
      after it is an error: either the closed step had no command, or the
      directive has no step. */
  lemma BlankLineClosesStep(lines: seq<string>, i: nat, st: ParseState)
    requires i + 1 < |lines| && Classify(lines[i]) == Blank
    requires Classify(lines[i + 1]).Directive? && Classify(lines[i + 1]).keyword in {"note", "command"}
    ensures Run(lines, i, st).Err?
    ensures Run(lines, i, st).error in
      {NoteWithoutStep(i + 2), CommandWithoutStep(i + 2)} + (if st.current.Some? then {StepWithoutCommands(st.current.value.title)} else {})
  {
    AdvanceOnBlank(lines, i, st);
    if Finalize(st).Ok? {
      var closed := Finalize(st).value;
      var kind := Classify(lines[i + 1]);
      assert Run(lines, i, st) == Run(lines, i + 1, closed);
      AdvanceOnDirective(lines, i + 1, closed, kind.keyword, kind.value);
      StepDirectiveWithoutStep(lines, i + 1, closed, kind.keyword, kind.value);
      assert Run(lines, i + 1, closed) == Err(Advance(lines, i + 1, closed).error);
    }
  }

  /** The state in which the pass that starts at index `i` in state `st`
      reaches index `j` at the start of a line, or `None` when it stops with
      an error first or steps over `j` (inside a block). */
  function Reach(lines: seq<string>, i: nat, st: ParseState, j: nat): Option<ParseState>
    requires i <= j <= |lines|
    decreases j - i
  {
    if i == j then Some(st)
    else
      match Advance(lines, i, st)
      case Err(_) => None
      case Ok(next) => if next.index <= j then Reach(lines, next.index, next.state, j) else None
  }

  /** Where the pass reaches a line, the rest of the pass goes on from
      there. */
  lemma {:induction false} RunThrough(lines: seq<string>, i: nat, st: ParseState, j: nat)
    requires i <= j <= |lines| && Reach(lines, i, st, j).Some?
    ensures Run(lines, i, st) == Run(lines, j, Reach(lines, i, st, j).value)
    decreases j - i
  {
    if i < j {
      var next := Advance(lines, i, st).value;
      RunThrough(lines, next.index, next.state, j);
    }
  }

  /** A line the pass reads that is neither blank, nor a comment, nor
      has a `:` makes the whole parse fail, citing that line and its text. */
  lemma UnparsableLineFails(lines: seq<string>, k: nat)
    requires k < |lines| && Reach(lines, 0, Initial, k).Some?
    requires Classify(lines[k]) == NoDelimiter
    ensures ParseLines(lines) == Err(Unparsable(k + 1, lines[k]))
  {
    RunThrough(lines, 0, Initial, k);
    RunStep(lines, k, Reach(lines, 0, Initial, k).value);
  }

  /** Reaching `k` by way of `j` is reaching `k`. */
  lemma {:induction false} ReachCompose(lines: seq<string>, i: nat, st: ParseState, j: nat, k: nat)
    requires i <= j <= k <= |lines| && Reach(lines, i, st, j).Some?
    ensures Reach(lines, i, st, k) == Reach(lines, j, Reach(lines, i, st, j).value, k)
    decreases j - i
  {
    if i < j {
      var next := Advance(lines, i, st).value;
      ReachCompose(lines, next.index, next.state, j, k);
    }
  }

  /** The lines the pass reaches after its first line are lines the pass
      reaches from the start. */
  lemma ReachedLater(lines: seq<string>, i: nat, st: ParseState, n: nat)
    requires i < |lines| && Advance(lines, i, st).Ok? && n == Advance(lines, i, st).value.index
    ensures forall k :: n <= k <= |lines| ==> Reach(lines, n, Advance(lines, i, st).value.state, k) == Reach(lines, i, st, k)
  {
  }

  /** The lines the pass reaches after the line at index `j`, which it
      reaches from the start, are lines it reaches from the start. */
  lemma ReachedAfter(lines: seq<string>, j: nat, n: nat)
    requires j < |lines| && Reach(lines, 0, Initial, j).Some?
    requires Advance(lines, j, Reach(lines, 0, Initial, j).value).Ok?
    requires n == Advance(lines, j, Reach(lines, 0, Initial, j).value).value.index
    ensures forall k :: n <= k <= |lines| ==>
      Reach(lines, n, Advance(lines, j, Reach(lines, 0, Initial, j).value).value.state, k) == Reach(lines, 0, Initial, k)
  {
    var at := Reach(lines, 0, Initial, j).value;
    ReachedLater(lines, j, at, n);
    forall k | n <= k <= |lines|
      ensures Reach(lines, n, Advance(lines, j, at).value.state, k) == Reach(lines, 0, Initial, k)
    {
      ReachCompose(lines, 0, Initial, j, k);
      assert Reach(lines, 0, Initial, k) == Reach(lines, j, at, k);
    }
  }

  /** A line that is not a `title:` directive leaves the title as it is. */
  predicate NotTitleLine(line: string)
  {
    !(Classify(line).Directive? && Classify(line).keyword == "title")
  }

  lemma ApplyDirectiveKeepsTitle(lines: seq<string>, i: nat, st: ParseState, keyword: string, value: string)
    requires i < |lines| && keyword != "title" && ApplyDirective(lines, i, st, keyword, value).Ok?
    ensures ApplyDirective(lines, i, st, keyword, value).value.state.title == st.title
  {
  }

  lemma AdvanceKeepsTitle(lines: seq<string>, i: nat, st: ParseState)
    requires i < |lines| && NotTitleLine(lines[i]) && Advance(lines, i, st).Ok?
    ensures Advance(lines, i, st).value.state.title == st.title
  {
    match Classify(lines[i])
    case Blank =>
      AdvanceOnBlank(lines, i, st);
    case Comment =>
    case NoDelimiter =>
    case Directive(keyword, value) =>
      AdvanceOnDirective(lines, i, st, keyword, value);
      ApplyDirectiveKeepsTitle(lines, i, st, keyword, value);
  }

  lemma {:induction false} RunKeepsTitle(lines: seq<string>, i: nat, st: ParseState)
    requires i <= |lines| && (forall k :: i <= k < |lines| && Reach(lines, i, st, k).Some? ==> NotTitleLine(lines[k]))
    requires Run(lines, i, st).Ok?
    ensures Run(lines, i, st).value.title == st.title
    decreases |lines| - i
  {
    if i < |lines| {
      var next := Advance(lines, i, st).value;
      assert Reach(lines, i, st, i).Some?;
      AdvanceKeepsTitle(lines, i, st);
      ReachedLater(lines, i, st, next.index);
      RunKeepsTitle(lines, next.index, next.state);
    }
  }

  /** Without a `title:` line the procedure is titled "手順一覧". */
  lemma DefaultTitleWithoutTitleLine(lines: seq<string>)
    requires forall k :: 0 <= k < |lines| && Reach(lines, 0, Initial, k).Some? ==> NotTitleLine(lines[k])
    requires ParseLines(lines).Ok?
    ensures ParseLines(lines).value.title == DefaultTitle
  {
    RunKeepsTitle(lines, 0, Initial);
  }

  lemma BlockLineHasNoLineFeed(raw: string)
    requires '\n' !in raw
    ensures '\n' !in BlockLine(raw)
  {
    var r := BlockLine(raw);
    assert forall k :: 0 <= k < |r| ==> r[k] == raw[|raw| - |r| + k];
  }

  /** The text of a `command: |` command is its block's lines joined with
      line feeds; for lines of a source, splitting the text at line feeds
      gives those lines back. */
  lemma BlockTextRecoversLines(lines: seq<string>, from: nat)
    requires from <= |lines|
    requires forall l :: l in lines ==> '\n' !in l
    requires |CollectBlock(lines, from).body| >= 1
    ensures Split(Join(CollectBlock(lines, from).body, '\n'), '\n') == CollectBlock(lines, from).body
  {
    var body := CollectBlock(lines, from).body;
    CollectBlockIsMaximalRun(lines, from);
    forall l | l in body ensures '\n' !in l {
      var j :| 0 <= j < |body| && body[j] == l;
      MapLinesAt(BlockLine, lines, from, CollectBlock(lines, from).end, j);
      assert lines[from + j] in lines;
      BlockLineHasNoLineFeed(lines[from + j]);
    }
    SplitJoin(body, '\n');
  }

  /** A `command: |` block whose only line is indented white space is
      accepted and gives a command with empty text, while `command:` with an
      empty value is an error. */
  lemma BlankBlockGivesEmptyCommand(lines: seq<string>, i: nat, st: ParseState)
    requires i + 1 < |lines| && st.current.Some?
    requires HasIndent(lines[i + 1]) && AllWhitespace(lines[i + 1])
    requires i + 2 == |lines| || EndsBlock(lines[i + 2])
    ensures ApplyCommand(lines, i, st, "|") == Ok(Next(i + 2, AddCommand(st, "")))
    ensures ApplyCommand(lines, i, st, "") == Err(EmptyCommand(i + 1))
  {
    assert BlockLine(lines[i + 1]) == "";
    assert CollectFrom(lines, i + 1, []) == CollectFrom(lines, i + 2, [""]) == Block([""], i + 2);
  }

  /** `command: <text>` appends one command to the open step: the text
      itself, identified by its position; nothing else changes. */
  lemma InlineCommandText(lines: seq<string>, i: nat, st: ParseState, value: string)
    requires i < |lines| && value != "|" && ApplyCommand(lines, i, st, value).Ok?
    ensures var next, s := ApplyCommand(lines, i, st, value).value, st.current.value;
      && next.index == i + 1
      && next.state.current == Some(s.(commands := s.commands + [Command(CommandId(s.id, |s.commands|), value)]))
      && next.state.(current := st.current) == st
  {
  }

  /** `command: |` appends one command to the open step whose text is the
      lines from the next one up to the first line that ends the block (or
      the end of input), each as `BlockLine` gives it, joined with line
      feeds; the pass resumes at that line, and nothing else changes. */
  lemma BlockCommandText(lines: seq<string>, i: nat, st: ParseState, e: nat)
    requires i < |lines| && ApplyCommand(lines, i, st, "|").Ok?
    requires i + 1 <= e <= |lines|
    requires forall m :: i + 1 <= m < e ==> !EndsBlock(lines[m])
    requires e == |lines| || EndsBlock(lines[e])
    ensures var next, s := ApplyCommand(lines, i, st, "|").value, st.current.value;
      && i + 1 < e
      && next.index == e
      && next.state.current
        == Some(s.(commands := s.commands + [Command(CommandId(s.id, |s.commands|), Join(BlockLines(lines, i + 1, e), '\n'))]))
      && next.state.(current := st.current) == st
  {
    CollectBlockIsMaximalRun(lines, i + 1);
    assert CollectBlock(lines, i + 1).end == e;
  }

  /** A `step:` line the pass reads opens a step with the next ordinal,
      titled by the value, with an empty note and no command yet. */
  lemma StepLineOpensStep(lines: seq<string>, i: nat, st: ParseState, value: string)
    requires i < |lines| && Classify(lines[i]) == Directive("step", value)
    requires Advance(lines, i, st).Ok?
    ensures Advance(lines, i, st).value.state.current == Some(Step(StepId(st.stepIndex), value, "", []))
  {
    AdvanceOnDirective(lines, i, st, "step", value);
  }

  /** A line that is not a `note:` directive. */
  predicate NotNoteLine(line: string)
  {
    !(Classify(line).Directive? && Classify(line).keyword == "note")
  }

  /** `b` is step `a` later in the pass: same id, title and note, and the
      commands of `a` first. */
  predicate SameStep(a: Step, b: Step)
  {
    a.id == b.id && a.title == b.title && a.note == b.note && a.commands <= b.commands
  }

  /** A line that is not a `note:` directive keeps the finished steps, and
      the open step either stays open as the same step or is finished as
      it is. */
  lemma AdvanceKeepsSteps(lines: seq<string>, i: nat, st: ParseState)
    requires i < |lines| && NotNoteLine(lines[i]) && Advance(lines, i, st).Ok?
    ensures var after := Advance(lines, i, st).value.state;
      && st.steps <= after.steps
      && (st.current.Some? ==>
            || (after.steps == st.steps && after.current.Some? && SameStep(st.current.value, after.current.value))
            || after.steps == st.steps + [st.current.value])
  {
    match Classify(lines[i])
    case Blank =>
      AdvanceOnBlank(lines, i, st);
    case Comment =>
    case NoDelimiter =>
    case Directive(keyword, value) =>
      AdvanceOnDirective(lines, i, st, keyword, value);
      ApplyDirectiveKeepsSteps(lines, i, st, keyword, value);
  }

  lemma ApplyDirectiveKeepsSteps(lines: seq<string>, i: nat, st: ParseState, keyword: string, value: string)
    requires i < |lines| && keyword != "note" && ApplyDirective(lines, i, st, keyword, value).Ok?
    ensures var after := ApplyDirective(lines, i, st, keyword, value).value.state;
      && st.steps <= after.steps
      && (st.current.Some? ==>
            || (after.steps == st.steps && after.current.Some? && SameStep(st.current.value, after.current.value))
            || after.steps == st.steps + [st.current.value])
  {
    if keyword == "command" {
      var after := ApplyCommand(lines, i, st, value).value.state;
      assert st.current.value.commands <= after.current.value.commands;
    }
  }

  /** At line `k`, the pass from line `i` in state `st` has the step `id`
      open. */
  predicate OpenAt(lines: seq<string>, i: nat, st: ParseState, k: nat, id: string)
    requires i <= k <= |lines|
  {
    Reach(lines, i, st, k).Some? && Reach(lines, i, st, k).value.current.Some?
    && Reach(lines, i, st, k).value.current.value.id == id
  }

  /** Every line keeps the finished steps in front: only a blank line or a
      `step:` line adds one, at the end. */
  lemma AdvanceKeepsFinished(lines: seq<string>, i: nat, st: ParseState)
    requires i < |lines| && Advance(lines, i, st).Ok?
    ensures st.steps <= Advance(lines, i, st).value.state.steps
  {
    match Classify(lines[i])
    case Blank =>
      AdvanceOnBlank(lines, i, st);
    case Comment =>
    case NoDelimiter =>
    case Directive(keyword, value) =>
      AdvanceOnDirective(lines, i, st, keyword, value);
      if keyword != "note" {
        ApplyDirectiveKeepsSteps(lines, i, st, keyword, value);
      }
  }

  /** The finished steps of any state the pass passes through are the
      first steps of the result. */
  lemma {:induction false} RunKeepsFinished(lines: seq<string>, i: nat, st: ParseState)
    requires i <= |lines| && Run(lines, i, st).Ok?
    ensures st.steps <= Run(lines, i, st).value.steps
    decreases |lines| - i
  {
    if i < |lines| {
      var next := Advance(lines, i, st).value;
      RunStep(lines, i, st);
      AdvanceKeepsFinished(lines, i, st);
      RunKeepsFinished(lines, next.index, next.state);
      PrefixTransitive(st.steps, next.state.steps, Run(lines, i, st).value.steps);
    }
  }

  lemma PrefixTransitive(a: seq<Step>, b: seq<Step>, c: seq<Step>)
    requires a <= b && b <= c
    ensures a <= c
  {
    assert a == b[..|a|];
    assert b == c[..|b|];
  }

  /** While the open step stays open, only a `note:` line changes it: when
      the pass reads no `note:` line while the step open in `st` is open,
      that step reaches the result, after the finished steps of `st`, with
      its id, title and note, and with more commands perhaps. */
  lemma {:induction false} RunKeepsOpenStep(lines: seq<string>, i: nat, st: ParseState)
    requires i <= |lines| && st.current.Some?
    requires forall k :: i <= k < |lines| && OpenAt(lines, i, st, k, st.current.value.id) ==> NotNoteLine(lines[k])
    requires Run(lines, i, st).Ok?
    ensures st.steps <= Run(lines, i, st).value.steps
    ensures |st.steps| < |Run(lines, i, st).value.steps| && SameStep(st.current.value, Run(lines, i, st).value.steps[|st.steps|])
    decreases |lines| - i
  {
    if i < |lines| {
      var next := Advance(lines, i, st).value;
      var result := Run(lines, i, st).value.steps;
      assert OpenAt(lines, i, st, i, st.current.value.id);
      AdvanceKeepsSteps(lines, i, st);
      RunStep(lines, i, st);
      ReachedLater(lines, i, st, next.index);
      if next.state.steps == st.steps && next.state.current.Some? && SameStep(st.current.value, next.state.current.value) {
        assert forall k :: next.index <= k <= |lines| ==>
          OpenAt(lines, next.index, next.state, k, st.current.value.id) == OpenAt(lines, i, st, k, st.current.value.id);
        RunKeepsOpenStep(lines, next.index, next.state);
        StepsCompose(st, next.state, result);
      } else {
        RunKeepsFinished(lines, next.index, next.state);
        PrefixTransitive(st.steps, next.state.steps, result);
        assert result[|st.steps|] == next.state.steps[|st.steps|];
      }
    }
  }

  /** Keeping the steps composes: what one line keeps and the rest of the
      pass keeps, the whole pass keeps. */
  lemma StepsCompose(st: ParseState, after: ParseState, result: seq<Step>)
    requires st.steps <= after.steps
    requires st.current.Some? ==>
      || (after.steps == st.steps && after.current.Some? && SameStep(st.current.value, after.current.value))
      || after.steps == st.steps + [st.current.value]
    requires after.steps <= result
    requires after.current.Some? ==> |after.steps| < |result| && SameStep(after.current.value, result[|after.steps|])
    ensures st.steps <= result
    ensures st.current.Some? ==> |st.steps| < |result| && SameStep(st.current.value, result[|st.steps|])
  {
    assert st.steps <= result by {
      assert st.steps == after.steps[..|st.steps|];
      assert after.steps == result[..|after.steps|];
    }
    if st.current.Some? && after.steps == st.steps + [st.current.value] {
      assert result[|st.steps|] == after.steps[|st.steps|];
    }
  }

  /** A `title:`, `description:`, `note:` or `step:` line that a successful pass
      reads: the pass goes on from the next line in the state the directive
      gives, and reaches from there only lines it reaches from the start. */
  lemma ReadDirectiveLine(lines: seq<string>, j: nat, keyword: string, value: string) returns (after: ParseState)
    requires j < |lines| && Reach(lines, 0, Initial, j).Some?
    requires Classify(lines[j]) == Directive(keyword, value) && keyword in {"title", "description", "note", "step"}
    requires ParseLines(lines).Ok?
    ensures Advance(lines, j, Reach(lines, 0, Initial, j).value) == Ok(Next(j + 1, after))
    ensures after == ApplyDirective(lines, j, Reach(lines, 0, Initial, j).value, keyword, value).value.state
    ensures ParseLines(lines) == Run(lines, j + 1, after)
    ensures forall k :: j + 1 <= k <= |lines| ==> Reach(lines, j + 1, after, k) == Reach(lines, 0, Initial, k)
  {
    var at := Reach(lines, 0, Initial, j).value;
    RunThrough(lines, 0, Initial, j);
    AdvanceOnDirective(lines, j, at, keyword, value);
    RunStep(lines, j, at);
    after := Advance(lines, j, at).value.state;
    ReachedAfter(lines, j, j + 1);
  }

  /** At line `k`, the pass still has open the step that was open at line
      `j`. */
  predicate StillOpen(lines: seq<string>, j: nat, k: nat)
    requires j <= k <= |lines|
  {
    Reach(lines, 0, Initial, j).Some? && Reach(lines, 0, Initial, j).value.current.Some?
    && OpenAt(lines, 0, Initial, k, Reach(lines, 0, Initial, j).value.current.value.id)
  }

  /** The last `note:` line read while a step is open gives that step's
      note: when the pass reads no further `note:` line before the step
      at index `j` is closed, the step ends up in the result with that
      note. */
  lemma LastNoteWins(lines: seq<string>, j: nat, value: string)
    requires j < |lines| && Reach(lines, 0, Initial, j).Some?
    requires Classify(lines[j]) == Directive("note", value)
    requires forall k :: j < k < |lines| && StillOpen(lines, j, k) ==> NotNoteLine(lines[k])
    requires ParseLines(lines).Ok?
    ensures var at, result := Reach(lines, 0, Initial, j).value, ParseLines(lines).value;
      && at.current.Some?
      && |at.steps| < |result.steps|
      && result.steps[|at.steps|].id == at.current.value.id
      && result.steps[|at.steps|].note == value
  {
    var after := ReadDirectiveLine(lines, j, "note", value);
    NoteRunKeepsStep(lines, j, after);
  }

  lemma NoteRunKeepsStep(lines: seq<string>, j: nat, after: ParseState)
    requires j < |lines| && Reach(lines, 0, Initial, j).Some?
    requires Reach(lines, 0, Initial, j).value.current.Some? && after.current.Some?
    requires after.current.value.id == Reach(lines, 0, Initial, j).value.current.value.id
    requires forall k :: j + 1 <= k <= |lines| ==> Reach(lines, j + 1, after, k) == Reach(lines, 0, Initial, k)
    requires forall k :: j < k < |lines| && StillOpen(lines, j, k) ==> NotNoteLine(lines[k])
    requires Run(lines, j + 1, after).Ok?
    ensures |after.steps| < |Run(lines, j + 1, after).value.steps|
    ensures SameStep(after.current.value, Run(lines, j + 1, after).value.steps[|after.steps|])
  {
    forall k | j + 1 <= k < |lines| && OpenAt(lines, j + 1, after, k, after.current.value.id)
      ensures NotNoteLine(lines[k])
    {
      assert StillOpen(lines, j, k);
    }
    RunKeepsOpenStep(lines, j + 1, after);
  }

  /** A step in which the pass reads no `note:` line ends up in the result
      with the note "": the `step:` line at index `j` opens it with the
      next ordinal and its value as title. */
  lemma UnnotedStepHasEmptyNote(lines: seq<string>, j: nat, value: string)
    requires j < |lines| && Reach(lines, 0, Initial, j).Some?
    requires Classify(lines[j]) == Directive("step", value)
    requires forall k :: j < k < |lines| && StillOpen(lines, j + 1, k) ==> NotNoteLine(lines[k])
    requires ParseLines(lines).Ok?
    ensures Reach(lines, 0, Initial, j + 1).Some?
    ensures var started, result := Reach(lines, 0, Initial, j + 1).value, ParseLines(lines).value;
      && |started.steps| < |result.steps|
      && result.steps[|started.steps|].id == StepId(Reach(lines, 0, Initial, j).value.stepIndex)
      && result.steps[|started.steps|].title == value
      && result.steps[|started.steps|].note == ""
  {
    var at := Reach(lines, 0, Initial, j).value;
    var after := ReadDirectiveLine(lines, j, "step", value);
    assert Reach(lines, j + 1, after, j + 1) == Some(after);
    assert after.current == Some(Step(StepId(at.stepIndex), value, "", []));
    forall k | j + 1 <= k < |lines| && OpenAt(lines, j + 1, after, k, after.current.value.id)
      ensures NotNoteLine(lines[k])
    {
      assert StillOpen(lines, j + 1, k);
    }
    RunKeepsOpenStep(lines, j + 1, after);
  }

  /** The last `title:` line the pass reads gives the title: its value, or
      "無題の手順" when the value is empty. */
  lemma LastTitleWins(lines: seq<string>, j: nat, value: string)
    requires j < |lines| && Reach(lines, 0, Initial, j).Some?
    requires Classify(lines[j]) == Directive("title", value)
    requires forall k :: j < k < |lines| && Reach(lines, 0, Initial, k).Some? ==> NotTitleLine(lines[k])
    requires ParseLines(lines).Ok?
    ensures ParseLines(lines).value.title == if value == "" then UntitledTitle else value
  {
    var after := ReadDirectiveLine(lines, j, "title", value);
    RunKeepsTitle(lines, j + 1, after);
  }

  /** A line that is not a `description:` directive. */
  predicate NotDescriptionLine(line: string)
  {
    !(Classify(line).Directive? && Classify(line).keyword == "description")
  }

  lemma AdvanceKeepsDescription(lines: seq<string>, i: nat, st: ParseState)
    requires i < |lines| && NotDescriptionLine(lines[i]) && Advance(lines, i, st).Ok?
    ensures Advance(lines, i, st).value.state.description == st.description
  {
    match Classify(lines[i])
    case Blank =>
      AdvanceOnBlank(lines, i, st);
    case Comment =>
    case NoDelimiter =>
    case Directive(keyword, value) =>
      AdvanceOnDirective(lines, i, st, keyword, value);
      ApplyDirectiveKeepsDescription(lines, i, st, keyword, value);
  }

  lemma ApplyDirectiveKeepsDescription(lines: seq<string>, i: nat, st: ParseState, keyword: string, value: string)
    requires i < |lines| && keyword != "description" && ApplyDirective(lines, i, st, keyword, value).Ok?
    ensures ApplyDirective(lines, i, st, keyword, value).value.state.description == st.description
  {
  }

  lemma {:induction false} RunKeepsDescription(lines: seq<string>, i: nat, st: ParseState)
    requires i <= |lines| && (forall k :: i <= k < |lines| && Reach(lines, i, st, k).Some? ==> NotDescriptionLine(lines[k]))
    requires Run(lines, i, st).Ok?
    ensures Run(lines, i, st).value.description == st.description
    decreases |lines| - i
  {
    if i < |lines| {
      var next := Advance(lines, i, st).value;
      assert Reach(lines, i, st, i).Some?;
      AdvanceKeepsDescription(lines, i, st);
      ReachedLater(lines, i, st, next.index);
      RunKeepsDescription(lines, next.index, next.state);
    }
  }

  /** The last `description:` line the pass reads gives the description. */
  lemma LastDescriptionWins(lines: seq<string>, j: nat, value: string)
    requires j < |lines| && Reach(lines, 0, Initial, j).Some?
    requires Classify(lines[j]) == Directive("description", value)
    requires forall k :: j < k < |lines| && Reach(lines, 0, Initial, k).Some? ==> NotDescriptionLine(lines[k])
    requires ParseLines(lines).Ok?
    ensures ParseLines(lines).value.description == value
  {
    var after := ReadDirectiveLine(lines, j, "description", value);
    RunKeepsDescription(lines, j + 1, after);
  }
}
