/**
 * The procedure tree `parseDSL` builds, the identifiers it gives steps and
 * commands, and the errors it raises with their messages.
 */
module Runbook {
  import opened Text
  import opened Decimal

  /** One command of a step: `{id, text}`. */
  datatype Command = Command(id: string, text: string)

  /** One step: `{id, title, note, commands}`; `note` holds the value of the
      step's last `note:` line, or "" when it has none. */
  datatype Step = Step(id: string, title: string, note: string, commands: seq<Command>)

  /** The parse result: `{title, description, steps}`. */
  datatype Procedure = Procedure(title: string, description: string, steps: seq<Step>)

  /** Title of a procedure that has no `title:` line. */
  const DefaultTitle: string := "手順一覧"

  /** Title of a procedure whose `title:` line has an empty value. */
  const UntitledTitle: string := "無題の手順"

  /** Identifier of the step opened with 0-based ordinal `index`. */
  function StepId(index: nat): (id: string)
    ensures |id| > 5 && id[..5] == "step-" && '_' !in id
    ensures AllDigits(id[5..]) && DigitsValue(id[5..]) == index
  {
    DigitsHaveNoUnderscore(index);
    ValueOfNatToString(index);
    var id := "step-" + NatToString(index);
    assert id[5..] == NatToString(index);
    id
  }

  /** Identifier of the command at 0-based `position` in the step `stepId`. */
  function CommandId(stepId: string, position: nat): (id: string)
    ensures |id| > |stepId| + 6 && id[..|stepId|] == stepId && id[|stepId|..|stepId| + 6] == "__cmd_"
    ensures AllDigits(id[|stepId| + 6..]) && DigitsValue(id[|stepId| + 6..]) == position
  {
    ValueOfNatToString(position);
    var id := stepId + "__cmd_" + NatToString(position);
    assert id[|stepId| + 6..] == NatToString(position);
    id
  }

  /** The shape every step of a result has: the id of its ordinal, a
      non-empty title, and each command identified by its position. */
  predicate StepShaped(s: Step, index: nat)
  {
    && s.id == StepId(index)
    && s.title != ""
    && forall j :: 0 <= j < |s.commands| ==> s.commands[j].id == CommandId(s.id, j)
  }

  /** What every successful parse result satisfies. */
  predicate WellFormed(p: Procedure)
  {
    && p.title != ""
    && |p.steps| >= 1
    && forall k :: 0 <= k < |p.steps| ==> StepShaped(p.steps[k], k) && |p.steps[k].commands| >= 1
  }

  /** A text without `_` followed by one that starts with `_` splits in
      only one way. */
  lemma NoUnderscoreInPrefix(a: string, b: string, x: string, y: string)
    requires '_' !in a && '_' !in b
    requires |x| > 0 && x[0] == '_' && |y| > 0 && y[0] == '_'
    requires a + x == b + y
    ensures a == b && x == y
  {
    var s := a + x;
    assert |a| == |b| by {
      assert forall k :: 0 <= k < |a| ==> s[k] == a[k] != '_';
      assert forall k :: 0 <= k < |b| ==> s[k] == b[k] != '_';
      assert s[|a|] == '_' && s[|b|] == '_';
    }
    assert a == s[..|a|] == b;
    assert x == s[|a|..] == y;
  }

  lemma DigitsHaveNoUnderscore(n: nat)
    ensures '_' !in NatToString(n)
  {
    var d := NatToString(n);
    forall k | 0 <= k < |d| ensures d[k] != '_' {
      assert IsDigit(d[k]);
    }
  }

  /** Steps with different ordinals have different ids. */
  lemma StepIdsDistinct(a: nat, b: nat)
    requires a != b
    ensures StepId(a) != StepId(b)
  {
  }

  /** Commands at different (step, position) pairs have different ids. */
  lemma CommandIdsDistinct(a: nat, i: nat, b: nat, j: nat)
    requires a != b || i != j
    ensures CommandId(StepId(a), i) != CommandId(StepId(b), j)
  {
    if CommandId(StepId(a), i) == CommandId(StepId(b), j) {
      CommandIdParts(a, i, b, j);
    }
  }

  /** Equal command ids have equal step ids, since a step id has no `_`. */
  lemma CommandIdParts(a: nat, i: nat, b: nat, j: nat)
    requires CommandId(StepId(a), i) == CommandId(StepId(b), j)
    ensures StepId(a) == StepId(b)
  {
    var sa, sb := StepId(a), StepId(b);
    var c := CommandId(sa, i);
    CommandIdAfterStep(sa, i);
    CommandIdAfterStep(sb, j);
    NoUnderscoreInPrefix(sa, sb, c[|sa|..], c[|sb|..]);
  }

  /** A command id is its step id followed by text that starts with `_`. */
  lemma CommandIdAfterStep(stepId: string, position: nat)
    ensures var c := CommandId(stepId, position);
      c == stepId + c[|stepId|..] && c[|stepId|] == '_'
  {
    var c := CommandId(stepId, position);
    assert c[|stepId|] == c[|stepId|..|stepId| + 6][0];
  }

  /** No command id is also a step id. */
  lemma StepAndCommandIdsDiffer(a: nat, b: nat, j: nat)
    ensures StepId(a) != CommandId(StepId(b), j)
  {
    var c := CommandId(StepId(b), j);
    var db := NatToString(b);
    assert c[5 + |db|] == '_';
    assert forall k :: 5 <= k < |StepId(a)| ==> IsDigit(StepId(a)[k]);
  }

  /** In a well-formed procedure every step id and every command id is
      different from every other id, so ids can key per-command records. */
  lemma WellFormedIdsUnique(p: Procedure)
    requires WellFormed(p)
    ensures forall k1, k2 :: 0 <= k1 < k2 < |p.steps| ==> p.steps[k1].id != p.steps[k2].id
    ensures forall k1, j1, k2, j2 ::
      && 0 <= k1 < |p.steps| && 0 <= j1 < |p.steps[k1].commands|
      && 0 <= k2 < |p.steps| && 0 <= j2 < |p.steps[k2].commands|
      && (k1 != k2 || j1 != j2)
      ==> p.steps[k1].commands[j1].id != p.steps[k2].commands[j2].id
    ensures forall k1, k2, j2 ::
      && 0 <= k1 < |p.steps| && 0 <= k2 < |p.steps| && 0 <= j2 < |p.steps[k2].commands|
      ==> p.steps[k1].id != p.steps[k2].commands[j2].id
  {
    forall k1, k2 | 0 <= k1 < k2 < |p.steps| ensures p.steps[k1].id != p.steps[k2].id {
      assert StepShaped(p.steps[k1], k1) && StepShaped(p.steps[k2], k2);
      StepIdsDistinct(k1, k2);
    }
    forall k1, j1, k2, j2 |
      && 0 <= k1 < |p.steps| && 0 <= j1 < |p.steps[k1].commands|
      && 0 <= k2 < |p.steps| && 0 <= j2 < |p.steps[k2].commands|
      && (k1 != k2 || j1 != j2)
      ensures p.steps[k1].commands[j1].id != p.steps[k2].commands[j2].id
    {
      assert StepShaped(p.steps[k1], k1) && StepShaped(p.steps[k2], k2);
      CommandIdsDistinct(k1, j1, k2, j2);
    }
    forall k1, k2, j2 | 0 <= k1 < |p.steps| && 0 <= k2 < |p.steps| && 0 <= j2 < |p.steps[k2].commands|
      ensures p.steps[k1].id != p.steps[k2].commands[j2].id
    {
      assert StepShaped(p.steps[k1], k1) && StepShaped(p.steps[k2], k2);
      StepAndCommandIdsDiffer(k1, k2, j2);
    }
  }

  /** The failures `parseDSL` throws. `line` is the 1-based number of the
      offending line; the two structural failures carry no line number. */
  datatype ParseError =
    | Unparsable(line: nat, raw: string)
    | UnknownKeyword(line: nat, keyword: string)
    | MissingStepTitle(line: nat)
    | NoteWithoutStep(line: nat)
    | CommandWithoutStep(line: nat)
    | EmptyCommand(line: nat)
    | EmptyBlock(line: nat)
    | StepWithoutCommands(stepTitle: string)
    | NoSteps
  {
    predicate HasLine()
    {
      !StepWithoutCommands? && !NoSteps?
    }
  }

  datatype Result<+T> = Ok(value: T) | Err(error: ParseError)

  /** The text of the thrown `Error`, as shown to the user. */
  function Message(e: ParseError): (m: string)
    ensures e.HasLine() ==> StartsWith(m, NatToString(e.line) + " 行目")
    ensures e.StepWithoutCommands? ==> StartsWith(m, "step \"" + e.stepTitle + "\"")
  {
    if e.HasLine() then NatToString(e.line) + " 行目" + LineDetail(e)
    else if e.StepWithoutCommands? then "step \"" + e.stepTitle + "\" に command が定義されていません。"
    else "step が1つも定義されていません。"
  }

  /** What follows "<n> 行目" in the message of an error that cites a line. */
  function LineDetail(e: ParseError): string
    requires e.HasLine()
  {
    match e
    case Unparsable(_, raw) => "の構文を解釈できませんでした: \"" + raw + "\""
    case UnknownKeyword(_, kw) => "のキーワード \"" + kw + "\" は未対応です。"
    case MissingStepTitle(_) => "の step にタイトルがありません。"
    case NoteWithoutStep(_) => "で note が定義されていますが、直前に step がありません。"
    case CommandWithoutStep(_) => "で command が定義されていますが、直前に step がありません。"
    case EmptyCommand(_) => "の command が空です。"
    case EmptyBlock(_) => "の command ブロックに内容がありません。"
  }

  /** A message that cites a line starts with that line's number, and the
      number can be read back from it. */
  lemma MessageCitesLine(e: ParseError)
    requires e.HasLine()
    ensures DigitsValue(LeadingDigits(Message(e))) == e.line
  {
    var n, m := NatToString(e.line), Message(e);
    assert m[..|n| + 1] == (n + " 行目")[..|n| + 1] == n + " ";
    LeadingNumber(e.line, m);
  }

  /** A message without a line number starts with a letter, never a digit. */
  lemma MessageWithoutLine(e: ParseError)
    requires !e.HasLine()
    ensures LeadingDigits(Message(e)) == ""
  {
  }
}
