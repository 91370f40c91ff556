# Flowchart compiler: a Dafny model of `handleGenerate`

This project models the compiler at the heart of the chart maker editor. That compiler is the
`handleGenerate` handler of `src/App.js`. It reads a small line-oriented language:

- `FLOWCHART_NAME: text`
- `ORIENTATION: text`
- `STEP: id, name, type, shape, description...`
- `LINK: from, to, label`

From that text it builds the editor's state: name, orientation, steps, links, the error strings
and the Mermaid `flowchart` definition the preview renders.

The model has five modules, one per stage of the handler:

- `Text`: the string operations the handler relies on.
  - JavaScript's `\s` character set, `trim`.
  - `split(',')` and `split(/\r?\n/)`.
  - ASCII `toLowerCase` and `toUpperCase`.
  - Decimal rendering of line numbers.
- `Syntax`: the front end.
  - Directive recognition with `/^\s*KW\s*:/i`.
  - The first-occurrence line numbers of the header directives.
  - The header values.
  - STEP and LINK records with their 1-based line numbers.
  - `ParseText` puts all of these together in one `Parsed` value.
- `Diagnostics`: the checks, as the datatype `Diagnostic`.
  - Groups in push order: header checks, per-step field checks, id uniqueness and format, and
    isolated steps.
  - `Message` gives the exact error string of each diagnostic.
  - `Diagnose` is the specification; `Validate` and its loops are proved equal to it.
- `Mermaid`: the generator.
  - The header comes first, then one node statement per step that has an id and a name, then one
    edge statement per link with both ends.
  - Node and edge statements are indented by two spaces; the header is not. Every statement
    ends with a line break.
  - `Gen` is the specification; `EmitDefinition` and its two loops are proved equal to it.
- `App`: the component's state as the class `FlowchartEditor`.
  - `Generate` models the handler.

The definition depends on the previous render's state, exactly as in the source. React state
updates do not reach the closure that is running. So lines 149, 151 and 172 read the
orientation, steps and links of the previous input, not the ones just parsed.
`FlowchartEditor.Generate` states this in terms of `old(...)`. Two consequences are proved:

- `FirstGenerate`: the first Generate of a fresh editor stores an empty `flowchart LR` chart, or
  the empty string when the text has errors.
- `GenerateTwice`: generating twice from the same clean text draws that text's chart.

Where the source's header regex differs from what it evidently intends, the model logs the
difference under "Findings". It then derives the header value the intended way.

The model follows the code also where a stricter design of the language would differ:

- Unknown link endpoints are not reported.
- The orientation is free text.
- Duplicate steps are kept.
- A record with too few fields raises no parse error. It is kept; a STEP among them is reported
  only through the missing-fields check.
- An isolated step is an error and blocks generation.

## Model

| member | source | states |
|---|---|---|
| Text.SplitLines | src/App.js:33 | the lines contain no line feed; joined back with line feeds they give the input with each CR before a LF removed; the list is never empty |
| Text.LinesAreNormalisedPieces | src/App.js:33 | the lines are exactly the pieces between line feeds of the CR-normalised input |
| Text.Split | src/App.js:59 | the pieces contain no separator, there is at least one, and joining them with the separator gives back the input |
| Text.SplitUnique | src/App.js:59 | any separator-free list that joins to the input is the split of the input |
| Text.SplitJoin | src/App.js:59 | splitting a join of separator-free pieces gives back those pieces |
| Text.Trim | src/App.js:59 | the result starts and ends with no `\s` character, is no longer than the input and uses only its characters |
| Text.TrimIsInfix | src/App.js:59 | the trimmed text is a contiguous part of the input with only `\s` characters before and after it |
| Text.TrimEmpty | src/App.js:61-65 | trimming gives the empty string exactly when every character is a `\s` character |
| Text.TrimmedIsFixpoint | src/App.js:47 | trimming a trimmed string changes nothing |
| Text.LowerCases | src/App.js:89 | lower-casing keeps the length, leaves no capital letter, turns each capital into its small letter and keeps every other character |
| Text.LowerIdempotent | src/App.js:119 | lower-casing a lower-cased id changes nothing |
| Text.LowerOfUpper | src/App.js:89-92 | upper-casing before lower-casing makes no difference, so both cases of a letter compare equal |
| Text.UpperCases | src/App.js:90 | upper-casing keeps the length, leaves no small letter, turns each small letter into its capital and keeps every other character |
| Text.UpperOfLower | src/App.js:90 | lower-casing before upper-casing makes no difference |
| Text.TrimPadded | src/App.js:59 | trimming non-blank trimmed text padded on both sides with `\s` characters gives back exactly that text |
| Text.Decimal | src/App.js:50 | the rendered line number is a non-empty digit string whose value is the number |
| Text.LeadingDigitsOf | src/App.js:87 | the digit run at the start of digits followed by a non-digit is exactly those digits |
| Syntax.DirectiveMatchesPrefix | src/App.js:42-43 | a line carries a directive with rest `x` if and only if it starts with spaces, the keyword in any case, spaces and a colon, and `x` is what follows that colon |
| Syntax.PrefixIsDirective | src/App.js:59 | removing the matched directive prefix leaves the text after its colon |
| Syntax.CanonicalDirective | src/App.js:56 | `KW:` followed by any text is recognised, with that text as its rest |
| Syntax.CommentOrBlankIsNoDirective | src/App.js:56 | a blank line or one whose first non-space character is `/` carries no directive |
| Syntax.KeywordCharIsNoSpace | src/App.js:42 | no character that matches a keyword letter in any case is a `\s` character |
| Syntax.FirstDirectiveLine | src/App.js:41-44 | -1 exactly when no line carries the directive; otherwise a line number in range whose line carries it, with no earlier line doing so |
| Syntax.FirstPresent | src/App.js:42 | -1 exactly when no line carries the directive; otherwise the 1-based number of the first line that does |
| Syntax.FirstPresentUnique | src/App.js:42-43 | any number meeting the first-occurrence description is the one found |
| Syntax.LocateHeaders | src/App.js:40-44 | the loop finds the first-occurrence line number of both header directives, -1 when absent |
| Syntax.Present | src/App.js:54-56 | the kept lines are exactly lines carrying the directive, each with its rest, in increasing line order |
| Syntax.PresentComplete | src/App.js:54-56 | every line carrying the directive is kept |
| Syntax.HeaderRest | src/App.js:45 | absent exactly when no line carries the header directive; otherwise the rest of its first line |
| Syntax.FirstNonBlank | src/App.js:45 | the first line from a position on that holds a character other than `\s`, or -1 when all later lines are blank |
| Syntax.HeaderMatch | src/App.js:45-46 | the whole-text regex as written: absent when there is no header line; the value is always trimmed |
| Syntax.HeaderValue | src/App.js:45-48 | present exactly when the first header line has a non-blank rest, and then it is that rest trimmed, non-empty |
| Syntax.HeaderMatchOnItsLine | src/App.js:45-46 | when the first header line has a value, the regex as written and the intended value agree |
| Syntax.BlankHeaderTakesLaterLine | src/App.js:45-46 | when the first header line is blank after its colon and a later line is not, the regex as written takes that later line trimmed, while the intended value is absent |
| Syntax.EmptyNameSwallowsNextLine | src/App.js:45 | on `FLOWCHART_NAME:` followed by `ORIENTATION: TD`, the name regex as written yields `ORIENTATION: TD`, the intended value is absent |
| Syntax.BlankNameReadsAsEmpty | src/App.js:45-48 | on a lone `FLOWCHART_NAME: ` with a space after the colon, the name regex as written yields the empty name, while the intended value is absent |
| Syntax.Fields | src/App.js:59 | at least one field; each is trimmed and contains no comma |
| Syntax.FieldsOfJoin | src/App.js:59 | splitting comma-free pieces joined by `,` and trimming them gives back every piece, trimmed and in order |
| Syntax.ParseStep | src/App.js:59-67 | the step carries the given line; id, name, type and shape are trimmed and comma-free; a single-line rest gives single-line fields |
| Syntax.ParseLink | src/App.js:103-109 | the link carries the given line; from, to and label are trimmed and comma-free; a single-line rest gives single-line fields |
| Syntax.StepRoundTrip | src/App.js:59-67 | for a rest written as comma-free pieces joined by `,`, the untrimmed first four pieces, trimmed, are id, name, type and shape, `""` for each absent piece; the fifth and later pieces, trimmed and joined with `, `, are the description |
| Syntax.LinkRoundTrip | src/App.js:103-109 | for a rest written as comma-free pieces joined by `,`, the first three pieces, trimmed, are from, to and label, `""` for each absent piece; later pieces are dropped |
| Syntax.SpacedStepLine | src/App.js:59-67 | `STEP: a, B, start, circle`, one space after each colon and comma, gives exactly the step with those four fields and no description |
| Syntax.ParseStepLines | src/App.js:57-67 | one step per kept line, parsed from its rest with its 1-based number |
| Syntax.StepRecords | src/App.js:54-68 | every step comes from a STEP line, parsed from that line's rest, and steps are in increasing line order |
| Syntax.EveryStepLineCounts | src/App.js:54-56 | every STEP line yields a step carrying its line number |
| Syntax.ParseLinkLines | src/App.js:101-110 | one link per kept line, parsed from its rest with its 1-based number |
| Syntax.LinkRecords | src/App.js:98-110 | every link comes from a LINK line, parsed from that line's rest, and links are in increasing line order |
| Syntax.EveryLinkLineCounts | src/App.js:98-100 | every LINK line yields a link carrying its line number |
| Syntax.DirectiveSingleLine | src/App.js:59 | the rest of a line without line feeds has none either |
| Syntax.StepSingleLine | src/App.js:59-67 | a step parsed from a single line has single-line fields |
| Syntax.LinkSingleLine | src/App.js:103-109 | a link parsed from a single line has single-line fields |
| Syntax.StepRecordsSingleLine | src/App.js:54-68 | over split lines no step field contains a line feed |
| Syntax.LinkRecordsSingleLine | src/App.js:98-110 | over split lines no link field contains a line feed |
| Syntax.HeaderValueSingleLine | src/App.js:47-48 | over split lines the header value contains no line feed |
| Syntax.ParsedSingleLine | src/App.js:33-110 | nothing the front end extracts from a text contains a line feed |
| Syntax.ParseText | src/App.js:33-110 | a present header value has a line number of at least 1; steps and links come in strictly increasing line order |
| Diagnostics.MessageCitesLine | src/App.js:87 | every error string starts with `Line `, then the diagnostic's line number, read back exactly |
| Diagnostics.DetailQuotesId | src/App.js:89-139 | each message about a step with an id, for an invalid type or shape, a duplicate or malformed id or an isolated step, starts with `STEP ID ` (or `Node ID ` for an isolated step) followed by that id in single quotes |
| Diagnostics.CitedLineOf | src/App.js:50 | the number after `Line ` in a message is read back as the number rendered there |
| Diagnostics.HeaderErrors | src/App.js:50-51 | at most two header errors; the missing-name error, at the name line or line 1, is present exactly when there is no name, and the same for the orientation |
| Diagnostics.MissingHeaderReported | src/App.js:50-51 | in the full diagnostic list the missing-name and missing-orientation errors appear exactly when those values are absent |
| Diagnostics.MissingListContents | src/App.js:81-85 | ID, NAME, TYPE and SHAPE are each listed exactly when that field is empty |
| Diagnostics.MissingListOrdered | src/App.js:81-85 | the missing fields are listed in the order the source tests them, each at most once |
| Diagnostics.IncludesIsMembership | src/App.js:89 | `includes` holds exactly when the value is in the list |
| Diagnostics.TypeAllowedIncludes | src/App.js:89 | the type is allowed exactly when `includes` finds its lower-cased form in the allowed types |
| Diagnostics.ShapeAllowedIncludes | src/App.js:92 | the shape is allowed exactly when `includes` finds its lower-cased form in the allowed shapes |
| Diagnostics.StepFieldErrorsCiteStep | src/App.js:86-94 | every field error of a step cites that step's line |
| Diagnostics.StepFieldErrorsEmpty | src/App.js:80-95 | a step has no field errors exactly when its four fields are filled and its type and shape are allowed |
| Diagnostics.FieldErrorsMembers | src/App.js:80-95 | a diagnostic is a field error exactly when it is one of some step's field errors |
| Diagnostics.FieldErrorsFrom | src/App.js:80-95 | every field error was pushed in the turn of some step, which is found |
| Diagnostics.FieldErrorsInclude | src/App.js:80-95 | every error pushed in a step's turn is among the field errors |
| Diagnostics.FieldErrorsCountAt | src/App.js:80-95 | with steps in line order, an error citing a step's line occurs in the field errors as often as in that step's own errors |
| Diagnostics.FieldErrorsEmpty | src/App.js:80-95 | there are no field errors exactly when every step is complete and allowed |
| Diagnostics.FieldErrorsBeforeLast | src/App.js:80-95 | no earlier step produces an error at the last step's line |
| Diagnostics.FieldErrorsAt | src/App.js:80-95 | the field errors at a step's line are exactly that step's field errors |
| Diagnostics.StepMissingReport | src/App.js:86-88 | a step has the missing-fields error exactly when some field is missing, with the missing list and the step named by id or by `#` and its position, once |
| Diagnostics.StepTypeReport | src/App.js:89-91 | a step has the invalid-type error exactly when its type is non-empty and not allowed in any case, once |
| Diagnostics.StepShapeReport | src/App.js:92-94 | a step has the invalid-shape error exactly when its shape is non-empty and not allowed in any case, once |
| Diagnostics.MissingFieldsReported | src/App.js:86-88 | in the whole step list, the missing-fields error of step `k` occurs exactly once when that step misses a field, with its missing list and reference, and never otherwise |
| Diagnostics.InvalidTypeReported | src/App.js:89-91 | in the whole step list, the invalid-type error of step `k` occurs exactly once when its type is non-empty and not allowed, and never otherwise |
| Diagnostics.InvalidShapeReported | src/App.js:92-94 | in the whole step list, the invalid-shape error of step `k` occurs exactly once when its shape is non-empty and not allowed, and never otherwise |
| Diagnostics.SeenIdsMembers | src/App.js:116-124 | the seen set holds exactly the lower-cased non-empty ids of the steps visited |
| Diagnostics.FieldErrorsCite | src/App.js:86-94 | every field error cites the line of some step |
| Diagnostics.IdErrorsCite | src/App.js:121-126 | every id error cites the line of some step |
| Diagnostics.FieldErrorsKinds | src/App.js:86-94 | the field checks report only missing fields, invalid types and invalid shapes |
| Diagnostics.IdErrorsKinds | src/App.js:117-129 | the id checks report only duplicate and malformed ids |
| Diagnostics.IdErrorsBeforeLast | src/App.js:117-129 | no earlier step produces an id error at the last step's line |
| Diagnostics.IdErrorsAt | src/App.js:117-129 | the id errors at a step's line are exactly those of that step against the ids seen before it |
| Diagnostics.IdErrorsCountAt | src/App.js:115-129 | with steps in line order, an error citing a step's line occurs in the id errors as often as in that step's own turn |
| Diagnostics.StepIdErrorsElsewhere | src/App.js:118-128 | a step's turn of the id loop pushes nothing citing another line |
| Diagnostics.StepIdCounts | src/App.js:118-128 | one turn pushes the not-unique error once when the non-empty id was seen and the invalid-characters error once when it is malformed, never otherwise |
| Diagnostics.SeenBefore | src/App.js:116-124 | a non-empty id is in the seen set of the earlier steps exactly when an earlier step has the same id ignoring case |
| Diagnostics.DuplicateReported | src/App.js:119-124 | step `k` is reported as not unique, exactly once, when its id is non-empty and an earlier step has the same id ignoring case, and never otherwise |
| Diagnostics.MalformedReported | src/App.js:125-127 | step `k` is reported for invalid characters, exactly once, when its id is non-empty and not made of letters, digits, `_` and `-`, and never otherwise |
| Diagnostics.LinkedFromMembers | src/App.js:134 | the linked-from set holds exactly the non-empty lower-cased link sources |
| Diagnostics.LinkedToMembers | src/App.js:135 | the linked-to set holds exactly the non-empty lower-cased link targets |
| Diagnostics.LinkedSetsMention | src/App.js:134-138 | an id is in either link set exactly when some link names it, ignoring case, as a non-empty end |
| Diagnostics.IsolatedScanMembers | src/App.js:136-141 | the isolated errors are exactly those of the steps whose lower-cased id is in neither set |
| Diagnostics.IsolatedScanCountAt | src/App.js:136-141 | with steps in line order, step `k`'s isolated error occurs once when its lower-cased id is in neither set, and never otherwise |
| Diagnostics.IsolatedReported | src/App.js:132-142 | step `k` is reported as isolated, exactly once, when there are links and none of them names it, and never otherwise |
| Diagnostics.EmptyIdIsIsolated | src/App.js:137-139 | a step without an id is reported as isolated whenever there are links |
| Diagnostics.IsolatedErrorsEmpty | src/App.js:132-142 | there are no isolated errors exactly when there are no links or every step is named by some link |
| Diagnostics.IdErrorsEmpty | src/App.js:117-129 | there are no id errors exactly when the non-empty ids are well formed and distinct ignoring case |
| Diagnostics.DiagnoseEmptyIff | src/App.js:50-142 | the error list is empty exactly when both headers are present, every step is complete with an allowed type and shape, the ids are well formed and distinct, and no step is isolated |
| Diagnostics.GroupKinds | src/App.js:50-141 | the header checks report only missing headers, the field checks only missing fields, types and shapes, the id checks only duplicate and malformed ids, the isolation check only isolated steps |
| Diagnostics.DiagnoseCounts | src/App.js:50-142 | each kind of diagnostic occurs in the whole list as often as in the one group of checks that reports it |
| Diagnostics.IsolatedErrorsKinds | src/App.js:136-141 | the isolation check reports only isolated steps |
| Diagnostics.AppendAtLine | src/App.js:80-95 | appending a step's reports after reports at earlier lines keeps the line order |
| Diagnostics.FieldErrorsSorted | src/App.js:80-95 | the field errors are in line order |
| Diagnostics.IdErrorsSorted | src/App.js:117-129 | the id errors are in line order |
| Diagnostics.IsolatedScanSorted | src/App.js:136-141 | the isolated errors are in line order |
| Diagnostics.DiagnosticGroupsSorted | src/App.js:80-141 | within each group after the headers, errors are in line order |
| Diagnostics.DiagnosticsCiteStepsOrHeaders | src/App.js:50-141 | every error cites a header line or the line of some step |
| Diagnostics.CollectMissing | src/App.js:81-85 | the list of missing fields the four tests build is the specified missing list |
| Diagnostics.CheckStep | src/App.js:86-94 | the three tests on one step push exactly its specified field errors |
| Diagnostics.CheckSteps | src/App.js:80-95 | the loop over steps pushes exactly the specified field errors |
| Diagnostics.CheckId | src/App.js:118-128 | one turn of the id loop pushes exactly the step's specified id errors and adds its lower-cased id, when non-empty, to the seen set |
| Diagnostics.CheckIds | src/App.js:115-129 | the loop with the seen set pushes exactly the specified id errors |
| Diagnostics.CheckIsolated | src/App.js:131-142 | the guarded loop pushes exactly the specified isolated errors |
| Diagnostics.Validate | src/App.js:50-142 | the checks together push exactly the specified diagnostics, in order |
| Mermaid.Statements | src/App.js:149-150 | the first statement is the header with the orientation, `LR` when empty |
| Mermaid.Gen | src/App.js:147-178 | the definition starts with the header and a line break and ends with a line break |
| Mermaid.EdgeStatement | src/App.js:175 | an edge statement starts with two spaces, the source and ` -->`, and ends with a space and the target |
| Mermaid.Terminated | src/App.js:169 | every statement ends with a line break, so a non-empty definition ends with one |
| Mermaid.TerminatedAppend | src/App.js:169-175 | the text of two statement lists is the text of the first followed by the text of the second |
| Mermaid.TerminatedIsJoin | src/App.js:169-175 | the definition is its statements joined by line feeds, with a final line feed |
| Mermaid.NodeStatementSingleLine | src/App.js:169 | a node statement of a single-line step has no line feed |
| Mermaid.EdgeStatementSingleLine | src/App.js:175 | an edge statement of a single-line link has no line feed |
| Mermaid.StatementsSingleLine | src/App.js:149-177 | single-line inputs give single-line statements |
| Mermaid.GenLines | src/App.js:147-177 | for single-line inputs, splitting the definition at line feeds gives its statements, then an empty piece |
| Mermaid.DrawnMembers | src/App.js:151-152 | a statement is drawn exactly when some drawn element produces it |
| Mermaid.AllDrawn | src/App.js:151-152 | when every element is drawn, the statements are those of the elements, one for one and in order |
| Mermaid.DrawnTextIsTerminated | src/App.js:151-177 | the text the loop builds is the list of drawn statements, each followed by a line break |
| Mermaid.NodeStatementsMembers | src/App.js:151-171 | a node statement is present exactly when some step with an id and a name produces it |
| Mermaid.EdgeStatementsMembers | src/App.js:172-177 | an edge statement is present exactly when some link with both ends produces it |
| Mermaid.ShapeIgnoresCase | src/App.js:158 | the node syntax does not depend on the case of the shape |
| Mermaid.UnknownShapeIsRectangle | src/App.js:167 | a shape outside the generator's table is drawn as a rectangle |
| Mermaid.AllowedShapesRendering | src/App.js:158-168 | of the shapes validation allows, only `circle` is drawn round; all others are drawn as rectangles |
| Mermaid.NodeIdRecoverable | src/App.js:169 | a well-formed id can be read back from its node statement: two spaces, the id, then a character that cannot belong to an id |
| Mermaid.OpeningDelimiter | src/App.js:158-168 | every node shape opens with `(`, `[` or `{` |
| Mermaid.AppendDone | src/App.js:151-177 | after every element is visited the loop's text is the drawn statements, each followed by a line break |
| Mermaid.NodeLine | src/App.js:152-170 | the text one step adds: its node statement and a line break when it has an id and a name, nothing otherwise |
| Mermaid.EdgeLine | src/App.js:173-176 | the text one link adds: its edge statement and a line break when it has both ends, nothing otherwise |
| Mermaid.AppendNodes | src/App.js:151-171 | the node loop appends exactly the drawn node statements, each with a line break |
| Mermaid.AppendEdges | src/App.js:172-177 | the edge loop appends exactly the drawn edge statements, each with a line break |
| Mermaid.EmitDefinition | src/App.js:147-177 | the definition built is the specified one |
| App.Messages | src/App.js:144 | one error string per diagnostic, each citing that diagnostic's line |
| App.Definition | src/App.js:147-150 | the stored definition is empty exactly when there are diagnostics; otherwise it starts with the header and a line break |
| App.ParseInput | src/App.js:33-110 | the parsing steps of the handler compute the specified parse of the text |
| App.EmptyChart | src/App.js:149-150 | with no orientation, steps or links the definition is `flowchart LR` and a line break |
| App.CheckAndEmit | src/App.js:144-178 | the errors are the messages of the specified diagnostics; the definition is drawn only when there are none, and is empty otherwise |
| App.FlowchartEditor.constructor | src/App.js:6-13 | all state starts empty |
| App.FlowchartEditor.Generate | src/App.js:31-182 | the new state holds the new name, orientation, steps, links and errors; the definition is drawn from the previous orientation, steps and links when there are no errors; the rendering error is cleared |
| App.FlowchartEditor.Store | src/App.js:47-181 | the same new state, for an input already parsed |
| App.GenerateTwice | src/App.js:149-177 | after two Generates of the same clean text the definition is that text's diagram |
| App.FirstGenerate | src/App.js:146-180 | the first Generate of a fresh editor stores `flowchart LR` and a line break, or nothing exactly when the text has errors |
| App.EmptyHeaderIsReported | src/App.js:47-51 | the stored name is empty exactly when the missing-name error is reported, and likewise the orientation |
| App.ErrorsCiteLines | src/App.js:144 | each stored error string starts with the line of its diagnostic |
| App.CleanTextDrawsEveryStep | src/App.js:151-169 | for a text without errors every step gets its node statement, in step order |
| App.StoredStateDrawsLineByLine | src/App.js:147-177 | the definition drawn from a parsed text reads back line by line as its statements |

## Left out

- The preview: the Mermaid library's initialisation and rendering, the effects that react to state
  changes, and the error panel (`src/App.js` lines 18-29 and from 184 on). They are calls into code
  this model cannot see. The rendering error field is modelled only as the handler clears it
  (line 181).
- The `console.log` of the generated definition (line 179). It is output only.
- `src/utils/performanceUtils.js`: timing and logging helpers (`measureExecution`, the
  `PerformanceMonitor` class) and `generateTestWorkflow`, which builds a random workflow text for
  testing. None of it is part of the compiler.
- `src/utils/browserUtils.js` and `src/templates/exampleTemplate.js`: browser detection and fixes, and a sample
  text, neither part of the compiler.
- The text being edited (`inputText`, line 6) is a parameter of `Generate`, not a field.
- Syntax.HeaderMatch: modelled over the split lines, like the rest. Three regex behaviours on
  the whole text are therefore left out:
  - the `\s*` between keyword and colon crossing a line break;
  - `^` matching after a lone CR, U+2028 or U+2029;
  - `.` stopping at those characters.
- Syntax.HeaderValue: the same line-based view. It also states the intended value rather than
  the regex's result (see "Findings").
- Text.Lower: case folding is ASCII only. JavaScript's `toLowerCase` also folds non-ASCII
  letters in ids, so the case-insensitive duplicate and link checks are modelled for ASCII ids.
  Directive keyword matching is exact: the `/i` flag never matches a non-ASCII character with an
  ASCII letter.
- Checks a stricter design would add, which the code does not make. The model follows the code:
  - reporting links to unknown steps (line 113 skips link checks);
  - an enumerated orientation (the code accepts any text);
  - dropping duplicate steps;
  - parse errors for short records;
  - treating isolated steps as a warning that does not block generation.

## Findings

| source | as written | input that shows it | evidently intended | confidence | as-written member | corrected member |
|---|---|---|---|---|---|---|
| src/App.js:45-46 | `\s*` after the colon in the whole-text, multi-line regex also matches line breaks, so a blank header value takes the next non-blank line as its value | `FLOWCHART_NAME:` then `ORIENTATION: TD` on the next line: the name becomes `ORIENTATION: TD` and no missing-name error is reported | the header value is the rest of its own line, and a blank value counts as missing | not executed | Syntax.EmptyNameSwallowsNextLine | Syntax.HeaderValue |
| src/App.js:45-48 | `.+` after `\s*` needs at least one character, so on a last line `FLOWCHART_NAME: ` the `\s*` gives back the space to `.+`; the trimmed capture is the empty string, a truthy match, so no missing-name error is raised | a text whose only name line is `FLOWCHART_NAME: `: the name is `""` and no error cites line 1 | a blank value counts as missing | not executed | Syntax.BlankNameReadsAsEmpty | Syntax.HeaderValue |
