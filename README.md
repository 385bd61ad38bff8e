# Runbook DSL parser, modelled in Dafny

The application turns a small line-oriented runbook language into a
procedure that a user works through step by step:

```
title: Deploy
description: Roll out the new build
step: Build
note: run from the repository root
command: make build
step: Upload
command: |
  scp build.tar host:
  ssh host ./install.sh
```

`parseDSL` (app.js) reads the source one line at a time and yields either
`{title, description, steps: [{id, title, note, commands: [{id, text}]}]}` or
an error whose message cites the 1-based number of the offending line. This
project models that parser and the small per-command ledger of copy
timestamps and evidence records kept beside a rendered procedure.

Modules:

- `Text` (text.dfy): the string operations the parser uses — `trim` over the
  ECMAScript white-space and line-terminator characters, `indexOf`,
  `startsWith`, ASCII lower-casing, stripping a leading run of spaces and
  tabs, `split`/`join` on one character and the `\r\n` to `\n` rewrite —
  with their round trips (`Join(Split(s)) == s`, `Split(Join(parts)) == parts`).
- `Decimal` (decimal.dfy): decimal rendering of natural numbers, its inverse
  and its injectivity (used for step ids, command ids and line numbers).
- `Runbook` (runbook.dfy): the result tree, the id scheme `step-<n>` /
  `<stepId>__cmd_<k>`, the errors with their messages, and `WellFormed`,
  the shape every successful result has.
- `LineClassifier` (classifier.dfy): what one line is — blank, comment,
  a line without `:`, or a `keyword: value` directive.
- `Parser` (parser.dfy): the parser. Its meaning is given by functions —
  `Advance` (what one line does to the state), `Run` (the rest of the pass),
  `ParseLines` — and the method `Parse` is the loop of the original, with
  the nested `command: |` block loop in `CollectBlockLines` and the closure
  `finalizeCurrentStep` in `FinalizeCurrentStep`, proved to compute
  `ParseLines`.
- `ParserProperties` (parser_props.dfy): what a parse guarantees — every
  step has a command, there is at least one step, ids are distinct and
  follow the scheme, every error cites a line that exists and shows the
  fault, an unparsable line read fails the parse, blank lines close a step
  while comments do not, the last `title:` and `description:` line read
  is the one that counts, a step's note is its last `note:` line's value
  or "" without one, what a `command:` line appends, and block text splits
  back into its lines.
- `ExecutionLedger` (ledger.dfy): the class `Ledger` with the two maps
  `copyHistory` and `evidenceRecords`, their newest-first updates and the
  five-entry display cap.

The parser's closure locals (`procedure`, `currentStep`, `stepIndex`) are
carried as one `ParseState` value from line to line; `procedure.steps` and
`currentStep.commands` grow by appending, exactly as `push` grows them.

Behaviour of the code worth knowing, which the model keeps:

- Only `title`, `description`, `step`, `note` and `command` are keywords;
  anything else, `env:` and `warn:` included, is an unknown-keyword error.
  There are no placeholders, warnings or Markdown export.
- A step has one `note`; each `note:` line replaces it.
- The "step without commands" and "no steps" errors carry no line number.
- A `command: |` block of indented lines that are all white space is
  accepted: each such line contributes `""`, so the command's text consists
  of line feeds only, one fewer than the block has lines, and is empty for a
  one-line block (`ParserProperties.BlankBlockGivesEmptyCommand`), although
  an inline `command:` with an empty value is an error.
- A comment line that is not indented ends a `command: |` block like any
  other unindented line; an indented one is part of the block text.

## Model

| member | source | states |
|---|---|---|
| Text.Trim | app.js:89 | the trimmed line is empty exactly when the line is all white space, and otherwise starts and ends with a non-white-space character |
| Text.TrimLower | app.js:104 | trimming and ASCII lower-casing give the same result in either order |
| Text.TrimKeepsChar | app.js:99 | trimming keeps every non-white-space character, so a line has a `:` exactly when its trimmed text has one |
| Text.TrimTrim | app.js:267 | trimming twice is trimming once |
| Text.IndexOf | app.js:99 | `None` exactly when the character is absent; otherwise the index of its first occurrence |
| Text.ToLowerAscii | app.js:104 | same length, each character lowered, no capital letter left |
| Text.StripIndent | app.js:169 | the result is a suffix of the line, what was removed is spaces and tabs, and the result starts with neither |
| Text.Split | app.js:62 | a split has at least one part and no part holds the separator |
| Text.Join | app.js:175 | joining parts that hold no separator puts exactly one separator between neighbours: the result holds one fewer separator than there are parts |
| Text.JoinSplit | app.js:62 | joining the split parts with the separator gives back the text |
| Text.SplitJoin | app.js:175 | splitting joined parts that hold no separator gives back the parts |
| Text.SplitCount | app.js:62 | a text splits into one more part than it has separators |
| Text.SplitNormalized | app.js:62 | splitting the source at line feeds after the `\r\n` rewrite gives the pieces of the original source between its line feeds, with the carriage return right before each line feed dropped |
| Text.NormalizeLine | app.js:62 | the rewrite of a text whose first line feed is at position i is that first line without the carriage return right before the line feed, the line feed, and the rewrite of the rest |
| Text.RewrittenLinesAt | app.js:62 | every piece but the last loses a trailing carriage return and the last piece is kept as it is |
| Text.NormalizeKeepsLineBreaks | app.js:62 | the `\r\n` rewrite keeps the number of line feeds |
| Text.NormalizeWithoutCarriageReturn | app.js:62 | a text without `\r` is left as it is |
| Decimal.ValueOfNatToString | app.js:101 | the decimal digits of a number read back as that number |
| Decimal.NatToString | app.js:120 | a number (step ordinal here, command position at app.js:176) renders as at least one decimal digit, with no leading zero unless the number is zero |
| Decimal.NatToStringInjective | app.js:120 | different numbers have different decimal renderings |
| Runbook.StepId | app.js:120 | a step id is `step-` followed by decimal digits that read back as the step's ordinal, and holds no `_` |
| Runbook.CommandId | app.js:176 | a command id is the step id, then `__cmd_`, then decimal digits that read back as the command's position in the step |
| Runbook.StepIdsDistinct | app.js:120 | steps with different ordinals get different ids |
| Runbook.CommandIdsDistinct | app.js:176-184 | commands at different (step, position) pairs get different ids |
| Runbook.StepAndCommandIdsDiffer | app.js:120-184 | no command id equals a step id |
| Runbook.WellFormedIdsUnique | app.js:119-188 | in a successful result all step ids and all command ids are pairwise distinct |
| Runbook.Message | app.js:79-199 | the message of an error that cites a line starts with that line's number and ` 行目`; the message of a step without commands starts with `step` and the step's title in quotes |
| Runbook.MessageCitesLine | app.js:101-191 | every message of a line error starts with the line number, which reads back from it |
| Runbook.MessageWithoutLine | app.js:79-199 | the two structural messages start with no digit |
| LineClassifier.KeywordOf | app.js:104 | the keyword is the head trimmed and lowered character by character: as long as the trimmed head, empty exactly when the head is all white space, with no `:` and no capital letter |
| LineClassifier.Classify | app.js:87-105 | a line is blank exactly when it is all white space, and a comment exactly when it is not blank and its trimmed text starts with `//` or `#` |
| LineClassifier.DirectiveIffColon | app.js:99-102 | any other line is a directive exactly when it contains `:`, and otherwise is the unparsable case |
| LineClassifier.DirectiveParts | app.js:99-105 | every directive comes from a split of its trimmed line at a `:` into a head without `:` and a tail, its keyword being the head trimmed and lowered and its value the tail trimmed |
| LineClassifier.DirectiveSplit | app.js:99-105 | conversely, a trimmed line `head:tail` with no `:` in the head and no comment prefix is the directive keyed by the head trimmed and lowered, with the tail trimmed as its value |
| LineClassifier.KeywordIgnoresCase | app.js:104 | heads that differ only in the ASCII case of their letters give the same keyword |
| LineClassifier.CommentIgnoresCase | app.js:91 | the case of a line's head does not decide whether the line is a comment |
| LineClassifier.DirectiveIgnoresCase | app.js:91-105 | two directive lines that differ only in the ASCII case of the text before the `:` classify alike |
| LineClassifier.CommentHeadNotKnown | app.js:151-160 | the text of a comment, cut at its first `:`, never gives a known keyword |
| Parser.Finalize | app.js:74-83 | an error exactly when an open step has no command, naming that step's title; otherwise the open step, if any, is appended to the finished steps, no step is open, and nothing else changes |
| Parser.BlockLine | app.js:164-169 | a block line contributes a suffix of itself, empty exactly when the line is all white space; otherwise what is dropped is spaces and tabs only and the rest starts with neither |
| Parser.CollectBlock | app.js:139-171 | the block ends within the input and has one line per line consumed |
| Parser.CollectFromBounds | app.js:142-171 | the accumulated block grows by one entry per line consumed |
| Parser.CollectFromStops | app.js:142-171 | collection consumes only lines that do not end a block, and stops at the end of input or at a line that ends one, which it does not consume |
| Parser.CollectFromBody | app.js:142-171 | the collected lines are those collected before, followed by what each consumed line contributes, in order |
| Parser.CollectBlockIsMaximalRun | app.js:142-171 | a block is the longest run of indented non-empty lines after a `command:` line whose value is the block marker, and its lines are, in order, "" for each blank one and the text without leading spaces and tabs for each other one |
| Parser.Advance | app.js:86-193 | reading a line moves forward within the input, and its error cites that line (1-based) or is the step-without-commands error; a line that is not blank, not a comment and has no `:` is the unparsable-line error citing the line and its text |
| ParserProperties.UnparsableLineFails | app.js:99-101 | a line the pass reads that is not blank, not a comment and has no `:` makes the whole parse fail with the unparsable-line error citing that line and its text |
| Parser.ApplyDirective | app.js:107-192 | `title:` sets only the title, to the value or 無題の手順 when the value is empty; `description:` sets only the description; `note:` fails without an open step and otherwise sets only the open step's note; `step:` and `command:` do what `ApplyStep` and `ApplyCommand` say; any other keyword is the unknown-keyword error citing the line; every successful directive moves forward within the input |
| Parser.ApplyStep | app.js:114-125 | a `step:` line succeeds exactly when the open step can be closed and the value is not empty; it then finishes the open step, opens the step `step-<n>` for the next ordinal n with the value as title, an empty note and no command, keeps title and description, and moves to the next line; otherwise the error is the closed step's or the missing-title error citing the line |
| Parser.ApplyCommand | app.js:132-189 | a `command:` line succeeds only with an open step and a non-empty value, and moves forward within the input; its error is, in that order, the no-step, the empty-command or the empty-block error, each citing the line; the command it appends is stated by InlineCommandText and BlockCommandText |
| Parser.AddCommand | app.js:176-188 | the open step gains exactly one command, last, identified by its position; its other commands and every other part of the state are unchanged |
| Parser.Finish | app.js:196-202 | after the last line the open step is closed; then an empty step list is the no-steps error, and otherwise the result has the state's title and description and the closed steps |
| Parser.Run | app.js:86-202 | a successful pass yields at least one step, and an error that cites a line cites a line from the one the pass starts at to the last |
| Parser.ParseLines | app.js:61-203 | a successful parse yields at least one step, and an error that cites a line cites an existing line |
| Parser.SourceLines | app.js:62 | a source has one line more than it has line feeds, whether it ends lines with LF or CRLF, and no line holds a line feed; line k is the k-th piece of the source between line feeds, without the carriage return right before its line feed, and any other carriage return stays |
| Parser.FinalizeCurrentStep | app.js:74-83 | an error exactly when an open step has no command, naming that step; otherwise the open step, if any, is appended |
| Parser.StartsKnownDirective | app.js:151-160 | the block loop's lookahead holds exactly when the main loop would read the line as a directive with a known keyword |
| Parser.CollectBlockLines | app.js:140-171 | the nested loop, keyword lookahead included, computes `CollectBlock`, so the lookahead has no effect |
| Parser.ApplyDirectiveLine | app.js:107-192 | the `switch` statement computes `ApplyDirective` |
| Parser.ReadLine | app.js:87-193 | one iteration of the main loop computes `Advance` |
| Parser.Parse | app.js:61-203 | the whole loop, the final `finalizeCurrentStep` and the no-step check compute `ParseLines` |
| Parser.ParseDsl | app.js:61-62 | parsing a source is parsing its normalised, split lines |
| ParserProperties.InitialConsistent | app.js:64-71 | the initial state (default title, no steps, no open step) satisfies the invariant of the loop: a non-empty title, finished steps shaped by their ordinals with a command each, and the next ordinal matching |
| ParserProperties.FinalizeKeepsConsistent | app.js:74-83 | closing a step keeps the state's invariant and leaves no open step |
| ParserProperties.AddCommandKeepsConsistent | app.js:176-188 | an added command gets the id of its position, and the open step then has a command |
| ParserProperties.ApplyStepKeepsConsistent | app.js:114-125 | a new step gets the id of its ordinal and a non-empty title |
| ParserProperties.ApplyCommandKeepsConsistent | app.js:132-189 | a `command:` line keeps the state's invariant |
| ParserProperties.ApplyDirectiveKeepsConsistent | app.js:107-192 | every directive keeps the state's invariant |
| ParserProperties.AdvanceKeepsConsistent | app.js:86-193 | every line keeps the state's invariant |
| ParserProperties.FinishWellFormed | app.js:196-202 | the end of input yields a well-formed procedure when it succeeds |
| ParserProperties.RunWellFormed | app.js:86-202 | every successful pass yields a well-formed procedure |
| ParserProperties.ParseLinesWellFormed | app.js:61-203 | a successful parse has a non-empty title, at least one step, every step has at least one command, ids follow `step-<n>` and `<stepId>__cmd_<k>`, and all ids are distinct |
| ParserProperties.FinalizeErrorNamesStep | app.js:78-80 | closing a step without commands names that step's non-empty title |
| ParserProperties.AdvanceOnDirective | app.js:104-107 | on a directive line the loop does the keyword switch |
| ParserProperties.ApplyCommandErrorShowsLine | app.js:133-174 | each `command:` error shows in its line: no open step, empty value, or an empty block |
| ParserProperties.ApplyDirectiveErrorShowsLine | app.js:107-192 | each error of the switch shows in its directive, or names a step left without commands |
| ParserProperties.AdvanceErrorShowsLine | app.js:99-191 | an error raised on a line cites that line and the line shows the fault |
| ParserProperties.DirectiveErrorShowsLine | app.js:104-191 | an error raised on a directive line cites that line and the line shows the fault |
| ParserProperties.UnparsableErrorShowsLine | app.js:99-101 | a line without `:` that fails cites itself as the line that cannot be parsed |
| ParserProperties.RunErrorShowsLine | app.js:86-200 | every error of a pass cites a line of the input that shows the fault |
| ParserProperties.ParseLinesErrorShowsLine | app.js:61-203 | every parse error cites an existing line showing its fault: no `:`, an unknown keyword, an empty step title, `note:`/`command:` without a step, an empty command or block |
| ParserProperties.CommentKeepsState | app.js:91-96 | a comment line changes nothing, not even the open step |
| ParserProperties.AdvanceOnBlank | app.js:91-96 | a blank line closes the open step |
| ParserProperties.StepDirectiveWithoutStep | app.js:126-135 | without an open step, `note:` and `command:` are errors citing the line |
| ParserProperties.BlankLineClosesStep | app.js:91-135 | a `note:` or `command:` right after a blank line always fails |
| ParserProperties.InlineCommandText | app.js:184-188 | `command: <text>` appends the command `<text>` with the id of its position to the open step, changes nothing else, and moves to the next line |
| ParserProperties.BlockCommandText | app.js:139-183 | `command:` with the block marker appends to the open step one command whose text is the lines up to the first one that ends the block, each as `BlockLine` gives it, joined with line feeds; it changes nothing else and resumes at that line |
| ParserProperties.StepLineOpensStep | app.js:114-125 | a `step:` line that is read opens the step with the next ordinal, titled by its value, with an empty note and no command |
| ParserProperties.RunThrough | app.js:85-97 | where the pass reaches a line, its result is that of the pass continued from there |
| ParserProperties.ReachCompose | app.js:74-202 | arriving at a line through an intermediate line the pass reads is arriving from that line's state |
| ParserProperties.ReadDirectiveLine | app.js:104-131 | a `title:`, `description:`, `note:` or `step:` line the pass reads moves it to the next line with the directive applied, and the rest of the pass reads the same lines as from the start |
| ParserProperties.StepsCompose | app.js:74-202 | keeping the finished steps and the open step over one line and over the rest of the pass keeps them over the whole pass |
| ParserProperties.ApplyDirectiveKeepsSteps | app.js:107-192 | a directive other than `note:` keeps the finished steps, and keeps the open step as the same step (same id, title and note, commands extended) or finishes it as it is |
| ParserProperties.AdvanceKeepsSteps | app.js:86-193 | a line that is not a `note:` directive keeps the finished steps, and keeps the open step as the same step or finishes it as it is |
| ParserProperties.AdvanceKeepsFinished | app.js:74-193 | every line keeps the finished steps in front |
| ParserProperties.RunKeepsFinished | app.js:74-202 | the finished steps of every state the pass goes through are the first steps of the result |
| ParserProperties.RunKeepsOpenStep | app.js:74-202 | when the pass reads no `note:` line while the open step stays open, that step reaches the result right after the finished steps, with its id, title and note and its commands in front |
| ParserProperties.NoteRunKeepsStep | app.js:126-131 | after a `note:` line, the step it noted reaches the result with the note it then has, when no further `note:` line is read while that step is open |
| ParserProperties.LastNoteWins | app.js:126-131 | a step's last `note:` line wins: when the pass reads no further `note:` line while the step open at a `note:` line is still open, that step ends up in the result, at its position, with that line's value as note; lines taken as block command text do not count |
| ParserProperties.UnnotedStepHasEmptyNote | app.js:114-125 | a step in which the pass reads no `note:` line ends up in the result with note "", with the id of its ordinal and the `step:` value as title |
| ParserProperties.ApplyDirectiveKeepsTitle | app.js:107-192 | only `title:` changes the title |
| ParserProperties.AdvanceKeepsTitle | app.js:86-193 | a line that is not a `title:` directive keeps the title |
| ParserProperties.RunKeepsTitle | app.js:86-202 | when no line the pass reads from a state is a `title:` directive, the result keeps that state's title |
| ParserProperties.DefaultTitleWithoutTitleLine | app.js:64-68 | when the pass reads no `title:` line, the procedure is titled 手順一覧 |
| ParserProperties.LastTitleWins | app.js:108-110 | when no later line the pass reads is a `title:` directive, the procedure's title is the value of the `title:` line it read, or 無題の手順 when the value is empty |
| ParserProperties.ApplyDirectiveKeepsDescription | app.js:107-192 | only `description:` changes the description |
| ParserProperties.AdvanceKeepsDescription | app.js:86-193 | a line that is not a `description:` directive keeps the description |
| ParserProperties.RunKeepsDescription | app.js:86-202 | when no line the pass reads from a state is a `description:` directive, the result keeps that state's description |
| ParserProperties.LastDescriptionWins | app.js:111-113 | when no later line the pass reads is a `description:` directive, the procedure's description is the value of the `description:` line it read |
| ParserProperties.BlankBlockGivesEmptyCommand | app.js:136-182 | a `command:` block whose only line is indented white space gives a command with empty text, while an empty inline value is an error |
| ParserProperties.BlockLineHasNoLineFeed | app.js:164-169 | a block line's contribution holds no line feed |
| ParserProperties.BlockTextRecoversLines | app.js:175 | the text of a block command splits back into exactly its collected lines |
| ExecutionLedger.ListOf | app.js:299 | `map.get(id) ?? []` (also at app.js:275): the list kept under the id, or the empty list when the id has none |
| ExecutionLedger.Shown | app.js:350 | at most five timestamps are shown, and they are the newest ones in order |
| ExecutionLedger.ShownAfterCopy | app.js:299-350 | after a copy its timestamp is shown first, followed by the previously shown ones less the oldest when five were shown |
| ExecutionLedger.EvidenceText | app.js:267-271 | evidence is refused exactly when the input is all white space; kept text has no surrounding white space |
| ExecutionLedger.EvidenceTextStable | app.js:267 | kept evidence text, submitted again, is kept unchanged |
| ExecutionLedger.Ledger.constructor | app.js:12-13 | both maps start empty |
| ExecutionLedger.Ledger.ShownHistory | app.js:344-350 | the shown timestamps of a command are a prefix of its history of at most five |
| ExecutionLedger.Ledger.Register | app.js:249-257 | a new command id gets empty lists; an id already present keeps its history and evidence |
| ExecutionLedger.Ledger.RecordCopy | app.js:299-301 | the copy's timestamp is put in front of the command's history, the rest of which is the old history; other commands' histories and the evidence are unchanged |
| ExecutionLedger.Ledger.SubmitEvidence | app.js:267-277 | blank input is refused and changes nothing; otherwise the trimmed text with its timestamps goes in front of the command's records, and the copy history is unchanged |

## Left out

- Rendering (`renderProcedure`, `buildStepElement`, `updateEvidenceRecords`, showing and hiding the evidence form, app.js:205-292 and 357-404): it only builds page elements from the parsed procedure and the ledger lists.
- The clipboard write and the button-state timers in `handleCopy` (app.js:294-342): browser calls. `RecordCopy` stands for the history update made after a successful write; a failed write changes no list.
- `formatTimestamp` and `Date`/`toISOString` (app.js:406-416, 272-274, 297): timestamps are opaque strings passed to the ledger methods.
- Event wiring, the example source text and page start-up (app.js:1-59, 418-422).
- Parser.Parse: the JavaScript `toLowerCase` is modelled as ASCII lower-casing; a non-ASCII keyword is an unknown keyword either way, so only the keyword echoed in that error's message can differ.
- Parser.ParseDsl: the input is a sequence of Unicode characters; UTF-16 surrogate pairs are not modelled, and no operation of the parser depends on them.
- ExecutionLedger.Ledger: the JavaScript arrays held in the maps are mutated in place and shared with the page; the model replaces the list stored under a key, which gives the same map contents.
