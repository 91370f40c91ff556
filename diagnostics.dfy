/** The checks of handleGenerate (src/App.js, lines 50-51 and 71-142): the
    diagnostics it pushes, in the order it pushes them, and the message text
    of each. */
module Diagnostics {
  import opened Text
  import opened Syntax

  /** The mandatory STEP fields, in the order the source tests them. */
  datatype Field = IdField | NameField | TypeField | ShapeField

  /** How a message names a step: by its id, or as `#n` when the id is
      empty. */
  datatype StepRef = ById(id: string) | ByOrdinal(ordinal: nat)

  /** One entry of the error list; `line` is the 1-based line the message
      cites. */
  datatype Diagnostic =
    | MissingName(line: nat)
    | MissingOrientation(line: nat)
    | MissingFields(line: nat, ref: StepRef, fields: seq<Field>)
    | InvalidType(line: nat, id: string, kind: string)
    | InvalidShape(line: nat, id: string, shape: string)
    | DuplicateId(line: nat, id: string)
    | MalformedId(line: nat, id: string)
    | Isolated(line: nat, id: string)

  /** A prefix of a prefix is a prefix of the whole. */
  lemma PrefixOfPrefix<T>(xs: seq<T>, m: nat, k: nat)
    requires k <= m <= |xs|
    ensures xs[..m][..k] == xs[..k]
  {
  }

  /** An entry absent from one half of a list occurs in the list as often
      as in the other half. */
  lemma CountOutside(a: seq<Diagnostic>, b: seq<Diagnostic>, d: Diagnostic)
    ensures d !in b ==> multiset(a + b)[d] == multiset(a)[d]
    ensures d !in a ==> multiset(a + b)[d] == multiset(b)[d]
  {
  }

  const AllowedTypes: seq<string> :=
    ["start", "end", "process", "decision", "input", "output", "database", "document"]
  const AllowedShapes: seq<string> :=
    ["rectangle", "roundedrect", "diamond", "circle", "cylinder", "trapezoid"]

  function FieldName(f: Field): string {
    match f
    case IdField => "ID"
    case NameField => "NAME"
    case TypeField => "TYPE"
    case ShapeField => "SHAPE"
  }

  function FieldNames(fs: seq<Field>): (r: seq<string>)
    ensures |r| == |fs|
  {
    if fs == [] then [] else [FieldName(fs[0])] + FieldNames(fs[1..])
  }

  function RefText(r: StepRef): string {
    match r
    case ById(id) => "ID '" + id + "'"
    case ByOrdinal(n) => "#" + Decimal(n)
  }

  /** A value in single quotes, as the messages show ids, types and
      shapes. */
  function Quote(x: string): string {
    "'" + x + "'"
  }

  // The fixed parts of the messages of lines 50-51, 87, 90, 93, 121, 126
  // and 139.
  const StepHead := "STEP "
  const StepIdHead := "STEP ID "
  const NodeIdHead := "Node ID "
  const MissingNameText := "FLOWCHART_NAME is required."
  const MissingOrientationText := "ORIENTATION is required."
  const MissingFieldsText := ": Missing mandatory field(s): "
  const InvalidTypeText := ": Invalid TYPE "
  const InvalidShapeText := ": Invalid SHAPE "
  const AllowedText := ". Allowed: "
  const NotUniqueText := " is not unique (case-insensitive)."
  const InvalidCharsText := " contains invalid characters (no spaces or special chars)."
  const NotLinkedText := " is defined but not linked to or from any other node."

  /** The text after `Line n: ` of each message. */
  function Detail(d: Diagnostic): string {
    match d
    case MissingName(_) => MissingNameText
    case MissingOrientation(_) => MissingOrientationText
    case MissingFields(_, r, fs) => StepHead + RefText(r) + MissingFieldsText + Join(FieldNames(fs), ", ")
    case InvalidType(_, id, t) =>
      StepIdHead + Quote(id) + InvalidTypeText + Quote(t) + AllowedText + Upper(Join(AllowedTypes, ", "))
    case InvalidShape(_, id, sh) =>
      StepIdHead + Quote(id) + InvalidShapeText + Quote(sh) + AllowedText + Join(AllowedShapes, ", ")
    case DuplicateId(_, id) => StepIdHead + Quote(id) + NotUniqueText
    case MalformedId(_, id) => StepIdHead + Quote(id) + InvalidCharsText
    case Isolated(_, id) => NodeIdHead + Quote(id) + NotLinkedText
  }

  /** The string the source pushes onto `newErrors`. */
  function Message(d: Diagnostic): string {
    "Line " + Decimal(d.line) + ": " + Detail(d)
  }

  /** The line number a message starts with, read back from its text. */
  function CitedLine(m: string): Option<nat> {
    if |m| >= 5 && m[..5] == "Line " && |LeadingDigits(m[5..])| > 0
    then Some(DigitsValue(LeadingDigits(m[5..])))
    else None
  }

  /** A message about a step with an id starts by quoting that id after
      `STEP ID ` (after `Node ID ` for an isolated step). */
  lemma DetailQuotesId(d: Diagnostic)
    requires d.InvalidType? || d.InvalidShape? || d.DuplicateId? || d.MalformedId? || d.Isolated?
    ensures (if d.Isolated? then NodeIdHead else StepIdHead) + Quote(d.id) <= Detail(d)
  {
    var h := (if d.Isolated? then NodeIdHead else StepIdHead) + Quote(d.id);
    match d
    case InvalidType(_, _, t) =>
      PrefixOfChain(h, InvalidTypeText, Quote(t), AllowedText, Upper(Join(AllowedTypes, ", ")));
    case InvalidShape(_, _, sh) =>
      PrefixOfChain(h, InvalidShapeText, Quote(sh), AllowedText, Join(AllowedShapes, ", "));
    case DuplicateId(_, _) =>
    case MalformedId(_, _) =>
    case Isolated(_, _) =>
  }

  lemma PrefixOfChain(h: string, a: string, b: string, c: string, e: string)
    ensures h <= h + a + b + c + e
  {
    assert h + a + b + c + e == h + (a + b + c + e);
  }

  /** Every message names, in its text, the line the diagnostic carries. */
  lemma MessageCitesLine(d: Diagnostic)
    ensures CitedLine(Message(d)) == Some(d.line)
  {
    CitedLineOf(d.line, Detail(d));
  }

  lemma CitedLineOf(n: nat, detail: string)
    ensures CitedLine("Line " + Decimal(n) + ": " + detail) == Some(n)
  {
    var m := "Line " + Decimal(n) + ": " + detail;
    var ds := Decimal(n);
    assert m[..5] == "Line ";
    assert m[5..] == ds + (": " + detail);
    LeadingDigitsOf(ds, ": " + detail);
  }

  // ---------------------------------------------------------------------
  // Header checks (lines 50-51)

  function HeaderLine(n: int): nat {
    if n > 0 then n else 1
  }

  function HeaderErrors(p: Parsed): (r: seq<Diagnostic>)
    ensures |r| <= 2
    ensures MissingName(HeaderLine(p.nameLine)) in r <==> p.name.None?
    ensures MissingOrientation(HeaderLine(p.orientationLine)) in r <==> p.orientation.None?
  {
    (if p.name.None? then [MissingName(HeaderLine(p.nameLine))] else []) +
    (if p.orientation.None? then [MissingOrientation(HeaderLine(p.orientationLine))] else [])
  }

  // ---------------------------------------------------------------------
  // Per-step field checks (lines 80-95)

  /** The position of a field in the source's order of tests. */
  function FieldRank(f: Field): nat {
    match f
    case IdField => 0
    case NameField => 1
    case TypeField => 2
    case ShapeField => 3
  }

  /** The empty mandatory fields of a step. */
  function MissingList(s: Step): seq<Field> {
    (if s.id == "" then [IdField] else []) + (if s.name == "" then [NameField] else []) +
    (if s.kind == "" then [TypeField] else []) + (if s.shape == "" then [ShapeField] else [])
  }

  /** A field is listed as missing exactly when it is empty. */
  lemma MissingListContents(s: Step)
    ensures IdField in MissingList(s) <==> s.id == ""
    ensures NameField in MissingList(s) <==> s.name == ""
    ensures TypeField in MissingList(s) <==> s.kind == ""
    ensures ShapeField in MissingList(s) <==> s.shape == ""
  {
  }

  /** The fields are in the source's order of tests, each at most once. */
  predicate InFieldOrder(fs: seq<Field>) {
    forall i, j :: 0 <= i < j < |fs| ==> FieldRank(fs[i]) < FieldRank(fs[j])
  }

  /** The missing fields are listed in the source's order, each once. */
  lemma MissingListOrdered(s: Step)
    ensures InFieldOrder(MissingList(s))
  {
    var a := if s.id == "" then [IdField] else [];
    var b := if s.name == "" then [NameField] else [];
    var c := if s.kind == "" then [TypeField] else [];
    var e := if s.shape == "" then [ShapeField] else [];
    OrderedAppend(a, b, 1);
    OrderedAppend(a + b, c, 2);
    OrderedAppend(a + b + c, e, 3);
  }

  lemma OrderedAppend(a: seq<Field>, b: seq<Field>, bound: nat)
    requires InFieldOrder(a) && InFieldOrder(b)
    requires forall x :: x in a ==> FieldRank(x) < bound
    requires forall y :: y in b ==> FieldRank(y) >= bound
    ensures InFieldOrder(a + b)
  {
    forall i, j | 0 <= i < j < |a + b|
      ensures FieldRank((a + b)[i]) < FieldRank((a + b)[j])
    {
      if j < |a| {
        assert (a + b)[i] == a[i] && (a + b)[j] == a[j];
      } else if i >= |a| {
        assert (a + b)[i] == b[i - |a|] && (a + b)[j] == b[j - |a|];
      } else {
        assert (a + b)[i] in a && (a + b)[j] in b;
      }
    }
  }

  /** `xs.includes(x)` */
  predicate Includes(xs: seq<string>, x: string) {
    xs != [] && (xs[0] == x || Includes(xs[1..], x))
  }

  lemma {:induction false} IncludesIsMembership(xs: seq<string>, x: string)
    ensures Includes(xs, x) <==> x in xs
  {
    if xs != [] {
      IncludesIsMembership(xs[1..], x);
      assert xs == [xs[0]] + xs[1..];
    }
  }

  /** The lower-cased type is one of the allowed types. */
  predicate TypeAllowed(kind: string) {
    Lower(kind) in AllowedTypes
  }

  /** The lower-cased shape is one of the allowed shapes. */
  predicate ShapeAllowed(shape: string) {
    Lower(shape) in AllowedShapes
  }

  /** The type test is the source's `includes` on the lower-cased type. */
  lemma TypeAllowedIncludes(kind: string)
    ensures TypeAllowed(kind) <==> Includes(AllowedTypes, Lower(kind))
  {
    IncludesIsMembership(AllowedTypes, Lower(kind));
  }

  /** The shape test is the source's `includes` on the lower-cased shape. */
  lemma ShapeAllowedIncludes(shape: string)
    ensures ShapeAllowed(shape) <==> Includes(AllowedShapes, Lower(shape))
  {
    IncludesIsMembership(AllowedShapes, Lower(shape));
  }

  /** Every field diagnostic of a step cites the step's line. */
  lemma StepFieldErrorsCiteStep(s: Step, idx: nat, d: Diagnostic)
    requires d in StepFieldErrors(s, idx)
    ensures d.line == s.line
  {
  }

  function StepRefOf(s: Step, idx: nat): StepRef {
    if s.id != "" then ById(s.id) else ByOrdinal(idx + 1)
  }

  /** The diagnostics of the step at position `idx`, in push order. */
  function StepFieldErrors(s: Step, idx: nat): seq<Diagnostic> {
    (if |MissingList(s)| > 0 then [MissingFields(s.line, StepRefOf(s, idx), MissingList(s))] else []) +
    (if s.kind != "" && !TypeAllowed(s.kind) then [InvalidType(s.line, s.id, s.kind)] else []) +
    (if s.shape != "" && !ShapeAllowed(s.shape) then [InvalidShape(s.line, s.id, s.shape)] else [])
  }

  /** The field diagnostics of all steps, step by step. */
  function FieldErrors(steps: seq<Step>): seq<Diagnostic> {
    if steps == [] then []
    else FieldErrors(steps[..|steps| - 1]) + StepFieldErrors(steps[|steps| - 1], |steps| - 1)
  }

  /** A step is clean when it has every mandatory field and allowed values. */
  predicate FieldsComplete(s: Step) {
    s.id != "" && s.name != "" && s.kind != "" && s.shape != "" &&
    TypeAllowed(s.kind) && ShapeAllowed(s.shape)
  }

  lemma StepFieldErrorsEmpty(s: Step, idx: nat)
    ensures StepFieldErrors(s, idx) == [] <==> FieldsComplete(s)
  {
  }

  /** The field diagnostics are exactly those of the individual steps. */
  lemma FieldErrorsMembers(steps: seq<Step>, d: Diagnostic)
    ensures d in FieldErrors(steps) <==> exists k :: 0 <= k < |steps| && d in StepFieldErrors(steps[k], k)
  {
    if d in FieldErrors(steps) {
      var k := FieldErrorsFrom(steps, d);
    }
    if exists k :: 0 <= k < |steps| && d in StepFieldErrors(steps[k], k) {
      var k :| 0 <= k < |steps| && d in StepFieldErrors(steps[k], k);
      FieldErrorsInclude(steps, k, d);
    }
  }

  /** The step whose turn of the loop pushed a given field diagnostic. */
  lemma FieldErrorsFrom(steps: seq<Step>, d: Diagnostic) returns (k: nat)
    requires d in FieldErrors(steps)
    ensures k < |steps| && d in StepFieldErrors(steps[k], k)
  {
    var xss := StepErrorLists(steps);
    FieldErrorsConcat(steps);
    k := ConcatFrom(xss, d);
    assert xss[k] == StepFieldErrors(steps[k], k);
  }

  lemma FieldErrorsInclude(steps: seq<Step>, k: nat, d: Diagnostic)
    requires k < |steps| && d in StepFieldErrors(steps[k], k)
    ensures d in FieldErrors(steps)
  {
    var xss := StepErrorLists(steps);
    FieldErrorsConcat(steps);
    assert xss[k] == StepFieldErrors(steps[k], k);
    ConcatInclude(xss, k, d);
  }

  /** The lists pushed for the steps, one per step. */
  function StepErrorLists(steps: seq<Step>): seq<seq<Diagnostic>> {
    seq(|steps|, k requires 0 <= k < |steps| => StepFieldErrors(steps[k], k))
  }

  lemma StepErrorListsSnoc(steps: seq<Step>)
    requires steps != []
    ensures StepErrorLists(steps) ==
              StepErrorLists(steps[..|steps| - 1]) + [StepFieldErrors(steps[|steps| - 1], |steps| - 1)]
  {
    var n := |steps| - 1;
    var init := steps[..n];
    assert forall k :: 0 <= k < n ==> init[k] == steps[k];
  }

  /** The lists of a sequence of lists, one after the other. */
  function Concat(xss: seq<seq<Diagnostic>>): seq<Diagnostic> {
    if xss == [] then [] else Concat(xss[..|xss| - 1]) + xss[|xss| - 1]
  }

  lemma {:induction false} FieldErrorsConcat(steps: seq<Step>)
    ensures FieldErrors(steps) == Concat(StepErrorLists(steps))
  {
    if steps != [] {
      var n := |steps| - 1;
      var init := steps[..n];
      FieldErrorsConcat(init);
      StepErrorListsSnoc(steps);
      ConcatSnoc(StepErrorLists(init), StepFieldErrors(steps[n], n));
    }
  }

  lemma ConcatSnoc(xss: seq<seq<Diagnostic>>, xs: seq<Diagnostic>)
    ensures Concat(xss + [xs]) == Concat(xss) + xs
  {
    assert (xss + [xs])[..|xss|] == xss;
  }

  lemma {:induction false} ConcatFrom(xss: seq<seq<Diagnostic>>, d: Diagnostic) returns (k: nat)
    requires d in Concat(xss)
    ensures k < |xss| && d in xss[k]
  {
    var n := |xss| - 1;
    var init := xss[..n];
    assert Concat(xss) == Concat(init) + xss[n];
    if d in xss[n] {
      k := n;
    } else {
      k := ConcatFrom(init, d);
      assert xss[k] == init[k];
    }
  }

  lemma {:induction false} ConcatInclude(xss: seq<seq<Diagnostic>>, k: nat, d: Diagnostic)
    requires k < |xss| && d in xss[k]
    ensures d in Concat(xss)
  {
    var n := |xss| - 1;
    var init := xss[..n];
    assert Concat(xss) == Concat(init) + xss[n];
    if k < n {
      assert init[k] == xss[k];
      ConcatInclude(init, k, d);
    }
  }

  lemma FieldErrorsEmpty(steps: seq<Step>)
    ensures FieldErrors(steps) == [] <==> forall k :: 0 <= k < |steps| ==> FieldsComplete(steps[k])
  {
    if FieldErrors(steps) != [] {
      var d := FieldErrors(steps)[0];
      var k := FieldErrorsFrom(steps, d);
      StepFieldErrorsEmpty(steps[k], k);
    } else {
      forall k | 0 <= k < |steps|
        ensures FieldsComplete(steps[k])
      {
        StepFieldErrorsEmpty(steps[k], k);
        if StepFieldErrors(steps[k], k) != [] {
          FieldErrorsInclude(steps, k, StepFieldErrors(steps[k], k)[0]);
        }
      }
    }
  }

  /** No field diagnostic of the earlier steps cites the last step's line. */
  lemma FieldErrorsBeforeLast(steps: seq<Step>, d: Diagnostic)
    requires IncreasingStepLines(steps) && steps != []
    requires d.line == steps[|steps| - 1].line
    ensures d !in FieldErrors(steps[..|steps| - 1])
  {
    if d in FieldErrors(steps[..|steps| - 1]) {
      FieldErrorsCite(steps[..|steps| - 1], d);
      assert false;
    }
  }

  /** Under increasing step lines, the field diagnostics citing a step's
      line all come from that step. */
  lemma {:induction false} FieldErrorsAt(steps: seq<Step>, k: nat, d: Diagnostic)
    requires IncreasingStepLines(steps) && k < |steps|
    requires d.line == steps[k].line
    ensures d in FieldErrors(steps) <==> d in StepFieldErrors(steps[k], k)
  {
    var n := |steps| - 1;
    var init := steps[..n];
    if k == n {
      FieldErrorsBeforeLast(steps, d);
    } else {
      assert IncreasingStepLines(init);
      assert init[k] == steps[k];
      FieldErrorsAt(init, k, d);
      if d in StepFieldErrors(steps[n], n) {
        StepFieldErrorsCiteStep(steps[n], n, d);
        assert false;
      }
    }
  }

  /** What one step's field diagnostics are, entry by entry. */
  lemma StepMissingReport(s: Step, idx: nat, fs: seq<Field>, r: StepRef)
    ensures MissingFields(s.line, r, fs) in StepFieldErrors(s, idx) <==>
              fs == MissingList(s) && |fs| > 0 && r == StepRefOf(s, idx)
    ensures multiset(StepFieldErrors(s, idx))[MissingFields(s.line, r, fs)] ==
              if fs == MissingList(s) && |fs| > 0 && r == StepRefOf(s, idx) then 1 else 0
  {
  }

  lemma StepTypeReport(s: Step, idx: nat)
    ensures InvalidType(s.line, s.id, s.kind) in StepFieldErrors(s, idx) <==>
              s.kind != "" && !TypeAllowed(s.kind)
    ensures multiset(StepFieldErrors(s, idx))[InvalidType(s.line, s.id, s.kind)] ==
              if s.kind != "" && !TypeAllowed(s.kind) then 1 else 0
  {
  }

  lemma StepShapeReport(s: Step, idx: nat)
    ensures InvalidShape(s.line, s.id, s.shape) in StepFieldErrors(s, idx) <==>
              s.shape != "" && !ShapeAllowed(s.shape)
    ensures multiset(StepFieldErrors(s, idx))[InvalidShape(s.line, s.id, s.shape)] ==
              if s.shape != "" && !ShapeAllowed(s.shape) then 1 else 0
  {
  }

  /** Under increasing step lines, a diagnostic citing a step's line occurs
      among the field diagnostics exactly as often as among that step's
      own. */
  lemma {:induction false} FieldErrorsCountAt(steps: seq<Step>, k: nat, d: Diagnostic)
    requires IncreasingStepLines(steps) && k < |steps|
    requires d.line == steps[k].line
    ensures multiset(FieldErrors(steps))[d] == multiset(StepFieldErrors(steps[k], k))[d]
  {
    var n := |steps| - 1;
    var init := steps[..n];
    assert FieldErrors(steps) == FieldErrors(init) + StepFieldErrors(steps[n], n);
    if k == n {
      FieldErrorsBeforeLast(steps, d);
    } else {
      InitLines(steps);
      FieldErrorsCountAt(init, k, d);
      if d in StepFieldErrors(steps[n], n) {
        StepFieldErrorsCiteStep(steps[n], n, d);
        assert false;
      }
    }
  }

  /** A step with empty mandatory fields gets exactly one missing-fields
      diagnostic, listing exactly the empty ones in order. */
  lemma MissingFieldsReported(steps: seq<Step>, k: nat, fs: seq<Field>, r: StepRef)
    requires IncreasingStepLines(steps) && k < |steps|
    ensures MissingFields(steps[k].line, r, fs) in FieldErrors(steps) <==>
              fs == MissingList(steps[k]) && |fs| > 0 && r == StepRefOf(steps[k], k)
    ensures multiset(FieldErrors(steps))[MissingFields(steps[k].line, r, fs)] ==
              if fs == MissingList(steps[k]) && |fs| > 0 && r == StepRefOf(steps[k], k) then 1 else 0
  {
    FieldErrorsAt(steps, k, MissingFields(steps[k].line, r, fs));
    FieldErrorsCountAt(steps, k, MissingFields(steps[k].line, r, fs));
    StepMissingReport(steps[k], k, fs, r);
  }

  /** A TYPE is reported exactly when it is present and, lower-cased, not
      one of the allowed types. */
  lemma InvalidTypeReported(steps: seq<Step>, k: nat)
    requires IncreasingStepLines(steps) && k < |steps|
    ensures InvalidType(steps[k].line, steps[k].id, steps[k].kind) in FieldErrors(steps) <==>
              steps[k].kind != "" && !TypeAllowed(steps[k].kind)
    ensures multiset(FieldErrors(steps))[InvalidType(steps[k].line, steps[k].id, steps[k].kind)] ==
              if steps[k].kind != "" && !TypeAllowed(steps[k].kind) then 1 else 0
  {
    FieldErrorsAt(steps, k, InvalidType(steps[k].line, steps[k].id, steps[k].kind));
    FieldErrorsCountAt(steps, k, InvalidType(steps[k].line, steps[k].id, steps[k].kind));
    StepTypeReport(steps[k], k);
  }

  lemma InvalidShapeReported(steps: seq<Step>, k: nat)
    requires IncreasingStepLines(steps) && k < |steps|
    ensures InvalidShape(steps[k].line, steps[k].id, steps[k].shape) in FieldErrors(steps) <==>
              steps[k].shape != "" && !ShapeAllowed(steps[k].shape)
    ensures multiset(FieldErrors(steps))[InvalidShape(steps[k].line, steps[k].id, steps[k].shape)] ==
              if steps[k].shape != "" && !ShapeAllowed(steps[k].shape) then 1 else 0
  {
    FieldErrorsAt(steps, k, InvalidShape(steps[k].line, steps[k].id, steps[k].shape));
    FieldErrorsCountAt(steps, k, InvalidShape(steps[k].line, steps[k].id, steps[k].shape));
    StepShapeReport(steps[k], k);
  }

  // ---------------------------------------------------------------------
  // Id uniqueness and format (lines 115-129)

  /** `/^[a-zA-Z0-9_\-]+$/` */
  predicate IdChar(c: char) {
    ('a' <= c <= 'z') || ('A' <= c <= 'Z') || ('0' <= c <= '9') || c == '_' || c == '-'
  }

  predicate ValidId(id: string) {
    |id| > 0 && forall k :: 0 <= k < |id| ==> IdChar(id[k])
  }

  /** The lower-cased non-empty ids of `steps`: the `seenIds` set once the
      loop has passed them. */
  function SeenIds(steps: seq<Step>): set<string> {
    if steps == [] then {}
    else
      var s := steps[|steps| - 1];
      SeenIds(steps[..|steps| - 1]) + (if s.id != "" then {Lower(s.id)} else {})
  }

  lemma {:induction false} SeenIdsMembers(steps: seq<Step>, x: string)
    ensures x in SeenIds(steps) <==> exists j :: 0 <= j < |steps| && steps[j].id != "" && Lower(steps[j].id) == x
  {
    if steps != [] {
      var init := steps[..|steps| - 1];
      SeenIdsMembers(init, x);
      if exists j :: 0 <= j < |steps| && steps[j].id != "" && Lower(steps[j].id) == x {
        var j :| 0 <= j < |steps| && steps[j].id != "" && Lower(steps[j].id) == x;
        if j < |init| {
          assert init[j] == steps[j];
        }
      }
      if x in SeenIds(init) {
        var j :| 0 <= j < |init| && init[j].id != "" && Lower(init[j].id) == x;
        assert steps[j] == init[j];
      }
    }
  }

  /** The diagnostics of one step, given the ids seen before it. */
  function StepIdErrors(s: Step, seen: set<string>): seq<Diagnostic> {
    if s.id == "" then []
    else
      (if Lower(s.id) in seen then [DuplicateId(s.line, s.id)] else []) +
      (if !ValidId(s.id) then [MalformedId(s.line, s.id)] else [])
  }

  function IdErrors(steps: seq<Step>): seq<Diagnostic> {
    if steps == [] then []
    else
      var init := steps[..|steps| - 1];
      IdErrors(init) + StepIdErrors(steps[|steps| - 1], SeenIds(init))
  }

  /** Every field diagnostic cites the line of some step. */
  lemma {:induction false} FieldErrorsCite(steps: seq<Step>, d: Diagnostic)
    requires d in FieldErrors(steps)
    ensures exists j :: 0 <= j < |steps| && d.line == steps[j].line
  {
    var init := steps[..|steps| - 1];
    if d in FieldErrors(init) {
      FieldErrorsCite(init, d);
      var j :| 0 <= j < |init| && d.line == init[j].line;
      assert steps[j] == init[j];
    } else {
      StepFieldErrorsCiteStep(steps[|steps| - 1], |steps| - 1, d);
    }
  }

  /** Every id diagnostic cites the line of some step. */
  lemma {:induction false} IdErrorsCite(steps: seq<Step>, d: Diagnostic)
    requires d in IdErrors(steps)
    ensures exists j :: 0 <= j < |steps| && d.line == steps[j].line
  {
    var init := steps[..|steps| - 1];
    if d in IdErrors(init) {
      IdErrorsCite(init, d);
      var j :| 0 <= j < |init| && d.line == init[j].line;
      assert steps[j] == init[j];
    } else {
      assert d.line == steps[|steps| - 1].line;
    }
  }

  /** The id checks report only duplicate and malformed ids. */
  lemma {:induction false} IdErrorsKinds(steps: seq<Step>, d: Diagnostic)
    requires d in IdErrors(steps)
    ensures d.DuplicateId? || d.MalformedId?
  {
    var init := steps[..|steps| - 1];
    if d in IdErrors(init) {
      IdErrorsKinds(init, d);
    }
  }

  /** The field checks report only missing fields and invalid values. */
  lemma {:induction false} FieldErrorsKinds(steps: seq<Step>, d: Diagnostic)
    requires d in FieldErrors(steps)
    ensures d.MissingFields? || d.InvalidType? || d.InvalidShape?
  {
    var init := steps[..|steps| - 1];
    if d in FieldErrors(init) {
      FieldErrorsKinds(init, d);
    }
  }

  /** No id diagnostic of the earlier steps cites the last step's line. */
  lemma IdErrorsBeforeLast(steps: seq<Step>, d: Diagnostic)
    requires IncreasingStepLines(steps) && steps != []
    requires d.line == steps[|steps| - 1].line
    ensures d !in IdErrors(steps[..|steps| - 1])
  {
    var init := steps[..|steps| - 1];
    if d in IdErrors(init) {
      IdErrorsCite(init, d);
      assert false;
    }
  }

  /** Under increasing step lines, the id diagnostics citing a step's line
      are exactly those the loop pushes for that step. */
  lemma {:induction false} IdErrorsAt(steps: seq<Step>, k: nat, d: Diagnostic)
    requires IncreasingStepLines(steps) && k < |steps|
    requires d.line == steps[k].line
    ensures d in IdErrors(steps) <==> d in StepIdErrors(steps[k], SeenIds(steps[..k]))
  {
    var n := |steps| - 1;
    var init := steps[..n];
    assert IncreasingStepLines(init);
    if k == n {
      IdErrorsBeforeLast(steps, d);
    } else {
      IdErrorsAt(init, k, d);
      PrefixOfPrefix(steps, n, k);
      assert init[k] == steps[k];
      assert !(d in StepIdErrors(steps[n], SeenIds(init)));
    }
  }

  /** Under increasing step lines, a diagnostic citing a step's line occurs
      among the id diagnostics exactly as often as in that step's turn of
      the loop. */
  lemma {:induction false} IdErrorsCountAt(steps: seq<Step>, k: nat, d: Diagnostic)
    requires IncreasingStepLines(steps) && k < |steps|
    requires d.line == steps[k].line
    ensures multiset(IdErrors(steps))[d] == multiset(StepIdErrors(steps[k], SeenIds(steps[..k])))[d]
  {
    var n := |steps| - 1;
    var init := steps[..n];
    var before := IdErrors(init);
    var last := StepIdErrors(steps[n], SeenIds(init));
    assert IdErrors(steps) == before + last;
    if k == n {
      IdErrorsBeforeLast(steps, d);
      CountOutside(before, last, d);
    } else {
      assert IncreasingStepLines(init);
      assert init[k] == steps[k];
      IdErrorsCountAt(init, k, d);
      PrefixOfPrefix(steps, n, k);
      StepIdErrorsElsewhere(steps[n], SeenIds(init), d);
      CountOutside(before, last, d);
    }
  }

  /** A step's turn of the id loop pushes nothing citing another line. */
  lemma StepIdErrorsElsewhere(s: Step, seen: set<string>, d: Diagnostic)
    requires d.line != s.line
    ensures d !in StepIdErrors(s, seen)
  {
  }

  /** A step's turn of the id loop pushes the not-unique diagnostic once
      when its id was seen and the invalid-characters one once when its id
      is malformed; neither otherwise. */
  lemma StepIdCounts(s: Step, seen: set<string>)
    ensures multiset(StepIdErrors(s, seen))[DuplicateId(s.line, s.id)] ==
              if s.id != "" && Lower(s.id) in seen then 1 else 0
    ensures multiset(StepIdErrors(s, seen))[MalformedId(s.line, s.id)] ==
              if s.id != "" && !ValidId(s.id) then 1 else 0
  {
  }

  /** A step's id is reported as not unique exactly when it is non-empty
      and an earlier step has the same id up to case, and then once. */
  lemma DuplicateReported(steps: seq<Step>, k: nat)
    requires IncreasingStepLines(steps) && k < |steps|
    ensures DuplicateId(steps[k].line, steps[k].id) in IdErrors(steps) <==>
              steps[k].id != "" && exists j :: 0 <= j < k && Lower(steps[j].id) == Lower(steps[k].id)
    ensures multiset(IdErrors(steps))[DuplicateId(steps[k].line, steps[k].id)] ==
              if steps[k].id != "" && exists j :: 0 <= j < k && Lower(steps[j].id) == Lower(steps[k].id)
              then 1 else 0
  {
    var d := DuplicateId(steps[k].line, steps[k].id);
    IdErrorsAt(steps, k, d);
    IdErrorsCountAt(steps, k, d);
    StepIdCounts(steps[k], SeenIds(steps[..k]));
    if steps[k].id != "" {
      SeenBefore(steps, k);
    }
  }

  /** A non-empty id is in the seen set of the steps before it exactly when
      one of them has the same id up to case. */
  lemma SeenBefore(steps: seq<Step>, k: nat)
    requires k < |steps| && steps[k].id != ""
    ensures Lower(steps[k].id) in SeenIds(steps[..k]) <==>
              exists j :: 0 <= j < k && Lower(steps[j].id) == Lower(steps[k].id)
  {
    SeenIdsMembers(steps[..k], Lower(steps[k].id));
    if exists j :: 0 <= j < k && Lower(steps[j].id) == Lower(steps[k].id) {
      var j :| 0 <= j < k && Lower(steps[j].id) == Lower(steps[k].id);
      assert steps[..k][j] == steps[j];
      assert |Lower(steps[j].id)| == |steps[j].id|;
    }
    if Lower(steps[k].id) in SeenIds(steps[..k]) {
      var j :| 0 <= j < k && steps[..k][j].id != "" && Lower(steps[..k][j].id) == Lower(steps[k].id);
      assert steps[..k][j] == steps[j];
    }
  }

  /** A non-empty id outside `[a-zA-Z0-9_-]+` is reported, once. */
  lemma MalformedReported(steps: seq<Step>, k: nat)
    requires IncreasingStepLines(steps) && k < |steps|
    ensures MalformedId(steps[k].line, steps[k].id) in IdErrors(steps) <==>
              steps[k].id != "" && !ValidId(steps[k].id)
    ensures multiset(IdErrors(steps))[MalformedId(steps[k].line, steps[k].id)] ==
              if steps[k].id != "" && !ValidId(steps[k].id) then 1 else 0
  {
    IdErrorsAt(steps, k, MalformedId(steps[k].line, steps[k].id));
    IdErrorsCountAt(steps, k, MalformedId(steps[k].line, steps[k].id));
    StepIdCounts(steps[k], SeenIds(steps[..k]));
  }

  // ---------------------------------------------------------------------
  // Isolated steps (lines 131-142)

  /** The lower-cased non-empty `from` ends of the links. */
  function LinkedFrom(links: seq<Link>): set<string> {
    if links == [] then {}
    else
      var f := Lower(links[|links| - 1].from);
      LinkedFrom(links[..|links| - 1]) + (if f != "" then {f} else {})
  }

  function LinkedTo(links: seq<Link>): set<string> {
    if links == [] then {}
    else
      var t := Lower(links[|links| - 1].to);
      LinkedTo(links[..|links| - 1]) + (if t != "" then {t} else {})
  }

  lemma {:induction false} LinkedFromMembers(links: seq<Link>, x: string)
    ensures x in LinkedFrom(links) <==> x != "" && exists j :: 0 <= j < |links| && Lower(links[j].from) == x
  {
    if links != [] {
      var init := links[..|links| - 1];
      LinkedFromMembers(init, x);
      if x != "" && exists j :: 0 <= j < |links| && Lower(links[j].from) == x {
        var j :| 0 <= j < |links| && Lower(links[j].from) == x;
        if j < |init| {
          assert init[j] == links[j];
        }
      }
      if x in LinkedFrom(init) {
        var j :| 0 <= j < |init| && Lower(init[j].from) == x;
        assert links[j] == init[j];
      }
    }
  }

  lemma {:induction false} LinkedToMembers(links: seq<Link>, x: string)
    ensures x in LinkedTo(links) <==> x != "" && exists j :: 0 <= j < |links| && Lower(links[j].to) == x
  {
    if links != [] {
      var init := links[..|links| - 1];
      LinkedToMembers(init, x);
      if x != "" && exists j :: 0 <= j < |links| && Lower(links[j].to) == x {
        var j :| 0 <= j < |links| && Lower(links[j].to) == x;
        if j < |init| {
          assert init[j] == links[j];
        }
      }
      if x in LinkedTo(init) {
        var j :| 0 <= j < |init| && Lower(init[j].to) == x;
        assert links[j] == init[j];
      }
    }
  }

  /** `id` is a non-empty id that some link starts or ends at, up to case. */
  predicate Mentioned(id: string, links: seq<Link>) {
    id != "" &&
    exists j :: 0 <= j < |links| && (Lower(links[j].from) == Lower(id) || Lower(links[j].to) == Lower(id))
  }

  function IsolatedScan(steps: seq<Step>, from: set<string>, to: set<string>): seq<Diagnostic> {
    if steps == [] then []
    else
      var s := steps[|steps| - 1];
      IsolatedScan(steps[..|steps| - 1], from, to) +
      (if Lower(s.id) !in from && Lower(s.id) !in to then [Isolated(s.line, s.id)] else [])
  }

  /** The isolated-step diagnostics; the check runs only when there are
      both steps and links. */
  function IsolatedErrors(steps: seq<Step>, links: seq<Link>): seq<Diagnostic> {
    if |steps| > 0 && |links| > 0 then IsolatedScan(steps, LinkedFrom(links), LinkedTo(links)) else []
  }

  lemma {:induction false} IsolatedScanMembers(steps: seq<Step>, from: set<string>, to: set<string>, d: Diagnostic)
    ensures d in IsolatedScan(steps, from, to) <==>
              exists k :: 0 <= k < |steps| && Lower(steps[k].id) !in from && Lower(steps[k].id) !in to &&
                          d == Isolated(steps[k].line, steps[k].id)
  {
    if steps != [] {
      var init := steps[..|steps| - 1];
      IsolatedScanMembers(init, from, to, d);
      if d in IsolatedScan(init, from, to) {
        var k :| 0 <= k < |init| && Lower(init[k].id) !in from && Lower(init[k].id) !in to &&
                 d == Isolated(init[k].line, init[k].id);
        assert steps[k] == init[k];
      }
      if exists k :: 0 <= k < |steps| && Lower(steps[k].id) !in from && Lower(steps[k].id) !in to &&
                     d == Isolated(steps[k].line, steps[k].id) {
        var k :| 0 <= k < |steps| && Lower(steps[k].id) !in from && Lower(steps[k].id) !in to &&
                 d == Isolated(steps[k].line, steps[k].id);
        if k < |init| {
          assert init[k] == steps[k];
        }
      }
    }
  }

  /** Under increasing step lines, a step's isolated diagnostic occurs once
      when its lower-cased id is in neither link set, and not at all
      otherwise. */
  lemma {:induction false} IsolatedScanCountAt(steps: seq<Step>, from: set<string>, to: set<string>, k: nat)
    requires IncreasingStepLines(steps) && k < |steps|
    ensures multiset(IsolatedScan(steps, from, to))[Isolated(steps[k].line, steps[k].id)] ==
              if Lower(steps[k].id) !in from && Lower(steps[k].id) !in to then 1 else 0
  {
    var n := |steps| - 1;
    var init := steps[..n];
    var d := Isolated(steps[k].line, steps[k].id);
    InitLines(steps);
    if k == n {
      if d in IsolatedScan(init, from, to) {
        IsolatedScanMembers(init, from, to, d);
        assert false;
      }
    } else {
      IsolatedScanCountAt(init, from, to, k);
      assert d != Isolated(steps[n].line, steps[n].id);
    }
  }

  /** Whether `id` lies in the two link-end sets is whether it is
      mentioned by a link. */
  lemma LinkedSetsMention(id: string, links: seq<Link>)
    ensures (Lower(id) in LinkedFrom(links) || Lower(id) in LinkedTo(links)) <==> Mentioned(id, links)
  {
    LinkedFromMembers(links, Lower(id));
    LinkedToMembers(links, Lower(id));
    assert Lower(id) == "" <==> id == "";
  }

  /** A step is reported as isolated exactly when there are links and none
      of them starts or ends at the step's id, compared without case, and
      then once. */
  lemma IsolatedReported(steps: seq<Step>, links: seq<Link>, k: nat)
    requires IncreasingStepLines(steps) && k < |steps|
    ensures Isolated(steps[k].line, steps[k].id) in IsolatedErrors(steps, links) <==>
              |links| > 0 && !Mentioned(steps[k].id, links)
    ensures multiset(IsolatedErrors(steps, links))[Isolated(steps[k].line, steps[k].id)] ==
              if |links| > 0 && !Mentioned(steps[k].id, links) then 1 else 0
  {
    if |links| > 0 {
      var d := Isolated(steps[k].line, steps[k].id);
      IsolatedScanMembers(steps, LinkedFrom(links), LinkedTo(links), d);
      IsolatedScanCountAt(steps, LinkedFrom(links), LinkedTo(links), k);
      LinkedSetsMention(steps[k].id, links);
      if d in IsolatedErrors(steps, links) {
        var j :| 0 <= j < |steps| && Lower(steps[j].id) !in LinkedFrom(links) &&
                 Lower(steps[j].id) !in LinkedTo(links) && d == Isolated(steps[j].line, steps[j].id);
        assert j == k;
      }
    }
  }

  /** A step without an id is never linked: with any link present it is
      reported as isolated. */
  lemma EmptyIdIsIsolated(steps: seq<Step>, links: seq<Link>, k: nat)
    requires IncreasingStepLines(steps) && k < |steps| && steps[k].id == "" && |links| > 0
    ensures Isolated(steps[k].line, "") in IsolatedErrors(steps, links)
  {
    IsolatedReported(steps, links, k);
  }

  // ---------------------------------------------------------------------
  // The whole error list

  /** `newErrors` at the end of the checks, in push order. */
  function Diagnose(p: Parsed): seq<Diagnostic> {
    HeaderErrors(p) + FieldErrors(p.steps) + IdErrors(p.steps) + IsolatedErrors(p.steps, p.links)
  }

  /** Each kind of diagnostic comes from one group of checks, so it occurs in
      the whole list exactly as often as in its group: the per-step counts
      of the group lemmas hold for the list handleGenerate stores. */
  lemma DiagnoseCounts(p: Parsed, d: Diagnostic)
    ensures (d.MissingFields? || d.InvalidType? || d.InvalidShape?) ==>
              multiset(Diagnose(p))[d] == multiset(FieldErrors(p.steps))[d]
    ensures (d.DuplicateId? || d.MalformedId?) ==> multiset(Diagnose(p))[d] == multiset(IdErrors(p.steps))[d]
    ensures d.Isolated? ==> multiset(Diagnose(p))[d] == multiset(IsolatedErrors(p.steps, p.links))[d]
  {
    var h, f, i, o := HeaderErrors(p), FieldErrors(p.steps), IdErrors(p.steps), IsolatedErrors(p.steps, p.links);
    assert Diagnose(p) == h + f + i + o;
    CountOfFour(h, f, i, o, d);
    GroupKinds(p, d);
  }

  /** Which group of checks can report which kind of diagnostic. */
  lemma GroupKinds(p: Parsed, d: Diagnostic)
    ensures d in HeaderErrors(p) ==> d.MissingName? || d.MissingOrientation?
    ensures d in FieldErrors(p.steps) ==> d.MissingFields? || d.InvalidType? || d.InvalidShape?
    ensures d in IdErrors(p.steps) ==> d.DuplicateId? || d.MalformedId?
    ensures d in IsolatedErrors(p.steps, p.links) ==> d.Isolated?
  {
    if d in FieldErrors(p.steps) {
      FieldErrorsKinds(p.steps, d);
    }
    if d in IdErrors(p.steps) {
      IdErrorsKinds(p.steps, d);
    }
    if d in IsolatedErrors(p.steps, p.links) {
      IsolatedErrorsKinds(p.steps, p.links, d);
    }
  }

  lemma CountOfFour(h: seq<Diagnostic>, f: seq<Diagnostic>, i: seq<Diagnostic>, o: seq<Diagnostic>, d: Diagnostic)
    ensures multiset(h + f + i + o)[d] == multiset(h)[d] + multiset(f)[d] + multiset(i)[d] + multiset(o)[d]
  {
  }

  /** The isolated-step check reports only isolated steps. */
  lemma IsolatedErrorsKinds(steps: seq<Step>, links: seq<Link>, d: Diagnostic)
    requires d in IsolatedErrors(steps, links)
    ensures d.Isolated?
  {
    IsolatedScanMembers(steps, LinkedFrom(links), LinkedTo(links), d);
  }

  /** The missing-name diagnostic is reported exactly when the name is
      absent, citing the first FLOWCHART_NAME line or line 1; likewise
      for the orientation. */
  lemma MissingHeaderReported(p: Parsed)
    ensures MissingName(HeaderLine(p.nameLine)) in Diagnose(p) <==> p.name.None?
    ensures MissingOrientation(HeaderLine(p.orientationLine)) in Diagnose(p) <==> p.orientation.None?
  {
    forall d | d in Diagnose(p) && (d.MissingName? || d.MissingOrientation?)
      ensures d in HeaderErrors(p)
    {
      if d in FieldErrors(p.steps) {
        FieldErrorsKinds(p.steps, d);
      } else if d in IdErrors(p.steps) {
        IdErrorsKinds(p.steps, d);
      } else if d in IsolatedErrors(p.steps, p.links) {
        IsolatedScanMembers(p.steps, LinkedFrom(p.links), LinkedTo(p.links), d);
      }
    }
  }

  predicate DistinctIds(steps: seq<Step>) {
    forall j, k :: 0 <= j < k < |steps| ==> Lower(steps[j].id) != Lower(steps[k].id)
  }

  /** What an input the compiler accepts looks like, stated independently
      of the checks: both headers present; every step complete, with
      allowed TYPE and SHAPE and a well-formed id; ids unique up to case;
      and, when there are links, every step at an end of one. */
  predicate WellFormed(p: Parsed) {
    && p.name.Some? && p.orientation.Some?
    && (forall k :: 0 <= k < |p.steps| ==> FieldsComplete(p.steps[k]) && ValidId(p.steps[k].id))
    && DistinctIds(p.steps)
    && (|p.links| > 0 ==> forall k :: 0 <= k < |p.steps| ==> Mentioned(p.steps[k].id, p.links))
  }

  /** The id checks pass exactly when every non-empty id is well formed
      and differs, up to case, from every earlier non-empty id. */
  predicate IdsClean(steps: seq<Step>) {
    forall k :: 0 <= k < |steps| && steps[k].id != "" ==>
      ValidId(steps[k].id) &&
      forall j :: 0 <= j < k && steps[j].id != "" ==> Lower(steps[j].id) != Lower(steps[k].id)
  }

  lemma {:induction false} IdErrorsEmpty(steps: seq<Step>)
    ensures IdErrors(steps) == [] <==> IdsClean(steps)
  {
    if steps != [] {
      var n := |steps| - 1;
      var init := steps[..n];
      IdErrorsEmpty(init);
      SeenIdsMembers(init, Lower(steps[n].id));
      assert forall k :: 0 <= k < n ==> init[k] == steps[k];
      if IdsClean(steps) {
        assert IdsClean(init);
      }
    }
  }

  lemma IsolatedErrorsEmpty(steps: seq<Step>, links: seq<Link>)
    ensures IsolatedErrors(steps, links) == [] <==>
              (|links| > 0 ==> forall k :: 0 <= k < |steps| ==> Mentioned(steps[k].id, links))
  {
    if |steps| > 0 && |links| > 0 {
      var from, to := LinkedFrom(links), LinkedTo(links);
      if IsolatedErrors(steps, links) != [] {
        IsolatedScanMembers(steps, from, to, IsolatedErrors(steps, links)[0]);
        var k :| 0 <= k < |steps| && Lower(steps[k].id) !in from && Lower(steps[k].id) !in to;
        LinkedSetsMention(steps[k].id, links);
      } else {
        forall k | 0 <= k < |steps|
          ensures Mentioned(steps[k].id, links)
        {
          LinkedSetsMention(steps[k].id, links);
          IsolatedScanMembers(steps, from, to, Isolated(steps[k].line, steps[k].id));
        }
      }
    }
  }

  /** The compiler reports nothing exactly for well-formed input. */
  lemma DiagnoseEmptyIff(p: Parsed)
    ensures Diagnose(p) == [] <==> WellFormed(p)
  {
    var h, f, i, o := HeaderErrors(p), FieldErrors(p.steps), IdErrors(p.steps), IsolatedErrors(p.steps, p.links);
    assert Diagnose(p) == h + f + i + o;
    assert h == [] <==> p.name.Some? && p.orientation.Some?;
    FieldErrorsEmpty(p.steps);
    IdErrorsEmpty(p.steps);
    IsolatedErrorsEmpty(p.steps, p.links);
  }

  predicate SortedByLine(ds: seq<Diagnostic>) {
    forall i, j :: 0 <= i < j < |ds| ==> ds[i].line <= ds[j].line
  }

  /** A line-ordered list followed by diagnostics all citing one later
      line is line-ordered. */
  lemma AppendAtLine(a: seq<Diagnostic>, b: seq<Diagnostic>, line: nat)
    requires SortedByLine(a)
    requires forall x :: x in a ==> x.line < line
    requires forall y :: y in b ==> y.line == line
    ensures SortedByLine(a + b)
  {
    forall i, j | 0 <= i < j < |a + b|
      ensures (a + b)[i].line <= (a + b)[j].line
    {
      if i < |a| {
        assert (a + b)[i] in a;
      } else {
        assert (a + b)[i] in b;
      }
      if j < |a| {
        assert (a + b)[j] in a;
      } else {
        assert (a + b)[j] in b;
      }
    }
  }

  /** Dropping the last of steps in line order leaves steps in line order,
      all before the last one's line. */
  lemma InitLines(steps: seq<Step>)
    requires IncreasingStepLines(steps) && steps != []
    ensures IncreasingStepLines(steps[..|steps| - 1])
    ensures forall k :: 0 <= k < |steps| - 1 ==> steps[k].line < steps[|steps| - 1].line && steps[..|steps| - 1][k] == steps[k]
  {
  }

  /** Field diagnostics of steps all before some line cite earlier lines. */
  lemma FieldErrorsBelow(steps: seq<Step>, line: nat)
    requires forall k :: 0 <= k < |steps| ==> steps[k].line < line
    ensures forall x :: x in FieldErrors(steps) ==> x.line < line
  {
    forall x | x in FieldErrors(steps)
      ensures x.line < line
    {
      FieldErrorsCite(steps, x);
    }
  }

  /** All field diagnostics of a step cite its line. */
  lemma StepFieldErrorsAtLine(s: Step, idx: nat)
    ensures forall y :: y in StepFieldErrors(s, idx) ==> y.line == s.line
  {
    forall y | y in StepFieldErrors(s, idx)
      ensures y.line == s.line
    {
      StepFieldErrorsCiteStep(s, idx, y);
    }
  }

  /** With steps in line order, the field diagnostics come in line order. */
  lemma {:induction false} FieldErrorsSorted(steps: seq<Step>)
    requires IncreasingStepLines(steps)
    ensures SortedByLine(FieldErrors(steps))
  {
    if steps != [] {
      var n := |steps| - 1;
      var init := steps[..n];
      InitLines(steps);
      FieldErrorsSorted(init);
      FieldErrorsBelow(init, steps[n].line);
      StepFieldErrorsAtLine(steps[n], n);
      AppendAtLine(FieldErrors(init), StepFieldErrors(steps[n], n), steps[n].line);
    }
  }

  /** Id diagnostics of steps all before some line cite earlier lines. */
  lemma IdErrorsBelow(steps: seq<Step>, line: nat)
    requires forall k :: 0 <= k < |steps| ==> steps[k].line < line
    ensures forall x :: x in IdErrors(steps) ==> x.line < line
  {
    forall x | x in IdErrors(steps)
      ensures x.line < line
    {
      IdErrorsCite(steps, x);
    }
  }

  /** With steps in line order, the id diagnostics come in line order. */
  lemma {:induction false} IdErrorsSorted(steps: seq<Step>)
    requires IncreasingStepLines(steps)
    ensures SortedByLine(IdErrors(steps))
  {
    if steps != [] {
      var n := |steps| - 1;
      var init := steps[..n];
      InitLines(steps);
      IdErrorsSorted(init);
      IdErrorsBelow(init, steps[n].line);
      AppendAtLine(IdErrors(init), StepIdErrors(steps[n], SeenIds(init)), steps[n].line);
    }
  }

  lemma {:induction false} IsolatedScanSorted(steps: seq<Step>, from: set<string>, to: set<string>)
    requires IncreasingStepLines(steps)
    ensures SortedByLine(IsolatedScan(steps, from, to))
  {
    if steps != [] {
      var n := |steps| - 1;
      var init := steps[..n];
      IsolatedScanSorted(init, from, to);
      var last := if Lower(steps[n].id) !in from && Lower(steps[n].id) !in to
                  then [Isolated(steps[n].line, steps[n].id)] else [];
      forall x | x in IsolatedScan(init, from, to)
        ensures x.line < steps[n].line
      {
        IsolatedScanMembers(init, from, to, x);
        var j :| 0 <= j < |init| && x == Isolated(init[j].line, init[j].id);
        assert init[j] == steps[j];
      }
      AppendAtLine(IsolatedScan(init, from, to), last, steps[n].line);
    }
  }

  /** Each group of diagnostics (headers, fields, ids, isolation) is in
      line order. */
  lemma DiagnosticGroupsSorted(p: Parsed)
    requires IncreasingStepLines(p.steps)
    ensures SortedByLine(FieldErrors(p.steps)) && SortedByLine(IdErrors(p.steps))
    ensures SortedByLine(IsolatedErrors(p.steps, p.links))
  {
    FieldErrorsSorted(p.steps);
    IdErrorsSorted(p.steps);
    if |p.steps| > 0 && |p.links| > 0 {
      IsolatedScanSorted(p.steps, LinkedFrom(p.links), LinkedTo(p.links));
    }
  }

  /** Messages cite header lines (or line 1) and STEP lines only, never a
      LINK line. */
  lemma DiagnosticsCiteStepsOrHeaders(p: Parsed, d: Diagnostic)
    requires d in Diagnose(p)
    ensures || d.line == HeaderLine(p.nameLine) || d.line == HeaderLine(p.orientationLine)
            || exists k :: 0 <= k < |p.steps| && d.line == p.steps[k].line
  {
    if d in FieldErrors(p.steps) {
      FieldErrorsCite(p.steps, d);
    } else if d in IdErrors(p.steps) {
      IdErrorsCite(p.steps, d);
    } else if d in IsolatedErrors(p.steps, p.links) {
      IsolatedScanMembers(p.steps, LinkedFrom(p.links), LinkedTo(p.links), d);
    }
  }

  // ---------------------------------------------------------------------
  // The checking passes as the source runs them

  /** The `missing` array of lines 81-85, filled field by field. */
  method CollectMissing(s: Step) returns (missing: seq<Field>)
    ensures missing == MissingList(s)
  {
    missing := [];
    if s.id == "" { missing := missing + [IdField]; }
    ghost var upToId := missing;
    if s.name == "" { missing := missing + [NameField]; }
    assert missing == upToId + (if s.name == "" then [NameField] else []);
    ghost var upToName := missing;
    if s.kind == "" { missing := missing + [TypeField]; }
    assert missing == upToName + (if s.kind == "" then [TypeField] else []);
    ghost var upToType := missing;
    if s.shape == "" { missing := missing + [ShapeField]; }
    assert missing == upToType + (if s.shape == "" then [ShapeField] else []);
  }

  /** One pass of the `parsedSteps.forEach` of lines 80-95: the
      diagnostics pushed for the step at position `idx`. */
  method CheckStep(s: Step, idx: nat) returns (errs: seq<Diagnostic>)
    ensures errs == StepFieldErrors(s, idx)
  {
    var missing := CollectMissing(s);
    errs := [];
    if |missing| > 0 {
      var ref := if s.id != "" then ById(s.id) else ByOrdinal(idx + 1);
      errs := [MissingFields(s.line, ref, missing)];
    }
    assert errs == if |MissingList(s)| > 0 then [MissingFields(s.line, StepRefOf(s, idx), MissingList(s))] else [];
    if s.kind != "" && !TypeAllowed(s.kind) {
      errs := errs + [InvalidType(s.line, s.id, s.kind)];
    }
    if s.shape != "" && !ShapeAllowed(s.shape) {
      errs := errs + [InvalidShape(s.line, s.id, s.shape)];
    }
  }

  /** The `parsedSteps.forEach` of lines 80-95. */
  method CheckSteps(steps: seq<Step>) returns (errs: seq<Diagnostic>)
    ensures errs == FieldErrors(steps)
  {
    errs := [];
    var i := 0;
    while i < |steps|
      invariant 0 <= i <= |steps|
      invariant errs == FieldErrors(steps[..i])
    {
      var stepErrs := CheckStep(steps[i], i);
      assert steps[..i + 1][..i] == steps[..i];
      assert FieldErrors(steps[..i + 1]) == FieldErrors(steps[..i]) + StepFieldErrors(steps[i], i);
      errs := errs + stepErrs;
      i := i + 1;
    }
    assert steps[..i] == steps;
  }

  /** One turn of the id loop of lines 117-129: the step's id diagnostics
      and the seen set after it. */
  method CheckId(s: Step, seen: set<string>) returns (errs: seq<Diagnostic>, seen': set<string>)
    ensures errs == StepIdErrors(s, seen)
    ensures seen' == seen + (if s.id != "" then {Lower(s.id)} else {})
  {
    errs := [];
    seen' := seen;
    if s.id != "" {
      var idLower := Lower(s.id);
      if idLower in seen {
        errs := errs + [DuplicateId(s.line, s.id)];
      } else {
        seen' := seen + {idLower};
      }
      if !ValidId(s.id) {
        errs := errs + [MalformedId(s.line, s.id)];
      }
    }
  }

  /** The uniqueness and format loop of lines 115-129, with its `seenIds`
      set. */
  method CheckIds(steps: seq<Step>) returns (errs: seq<Diagnostic>)
    ensures errs == IdErrors(steps)
  {
    errs := [];
    var seen: set<string> := {};
    var i := 0;
    while i < |steps|
      invariant 0 <= i <= |steps|
      invariant seen == SeenIds(steps[..i])
      invariant errs == IdErrors(steps[..i])
    {
      assert steps[..i + 1][..i] == steps[..i];
      var e, seen' := CheckId(steps[i], seen);
      errs := errs + e;
      seen := seen';
      i := i + 1;
    }
    assert steps[..i] == steps;
  }

  /** The isolated-step check of lines 131-142: the two link-end sets, then
      one pass over the steps. */
  method CheckIsolated(steps: seq<Step>, links: seq<Link>) returns (errs: seq<Diagnostic>)
    ensures errs == IsolatedErrors(steps, links)
  {
    errs := [];
    if |steps| > 0 && |links| > 0 {
      var from: set<string> := {};
      var to: set<string> := {};
      var j := 0;
      while j < |links|
        invariant 0 <= j <= |links|
        invariant from == LinkedFrom(links[..j]) && to == LinkedTo(links[..j])
      {
        assert links[..j + 1][..j] == links[..j];
        var f := Lower(links[j].from);
        var t := Lower(links[j].to);
        if f != "" { from := from + {f}; }
        if t != "" { to := to + {t}; }
        j := j + 1;
      }
      assert links[..j] == links;
      var i := 0;
      while i < |steps|
        invariant 0 <= i <= |steps|
        invariant errs == IsolatedScan(steps[..i], from, to)
      {
        assert steps[..i + 1][..i] == steps[..i];
        var id := Lower(steps[i].id);
        if id !in from && id !in to {
          errs := errs + [Isolated(steps[i].line, steps[i].id)];
        }
        i := i + 1;
      }
      assert steps[..i] == steps;
    }
  }

  /** All checks of handleGenerate, in the order it runs them. */
  method Validate(p: Parsed) returns (errs: seq<Diagnostic>)
    ensures errs == Diagnose(p)
  {
    errs := [];
    if p.name.None? {
      errs := errs + [MissingName(if p.nameLine > 0 then p.nameLine else 1)];
    }
    if p.orientation.None? {
      errs := errs + [MissingOrientation(if p.orientationLine > 0 then p.orientationLine else 1)];
    }
    assert errs == HeaderErrors(p);
    var fieldErrs := CheckSteps(p.steps);
    var idErrs := CheckIds(p.steps);
    var isolatedErrs := CheckIsolated(p.steps, p.links);
    errs := errs + fieldErrs + idErrs + isolatedErrs;
  }
}
