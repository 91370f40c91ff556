/** The editor component of src/App.js: the state it keeps (lines 6-13) and
    the Generate handler (lines 31-182) that recompiles the input text into
    that state. */
module App {
  import opened Text
  import opened Syntax
  import opened Diagnostics
  import opened Mermaid

  /** The state value of a header: `match ? match[1].trim() : ""`. */
  function ValueOrEmpty(v: Option<string>): string {
    if v.Some? then v.value else ""
  }

  /** The error strings shown for a list of diagnostics, in order. */
  function Messages(ds: seq<Diagnostic>): (r: seq<string>)
    ensures |r| == |ds|
    ensures forall k :: 0 <= k < |ds| ==> CitedLine(r[k]) == Some(ds[k].line)
  {
    var r := seq(|ds|, k requires 0 <= k < |ds| => Message(ds[k]));
    assert forall k :: 0 <= k < |ds| ==> CitedLine(r[k]) == Some(ds[k].line) by {
      forall k | 0 <= k < |ds| {
        MessageCitesLine(ds[k]);
      }
    }
    r
  }

  /** The definition Generate stores: empty when the new input has
      diagnostics, otherwise the diagram of the state it found. */
  function Definition(ds: seq<Diagnostic>, orientation: string, steps: seq<Step>, links: seq<Link>): (r: string)
    ensures r == "" <==> ds != []
    ensures r != "" ==> Header(orientation) + "\n" <= r
  {
    if ds == [] then Gen(orientation, steps, links) else ""
  }

  /** The parsing half of handleGenerate (lines 32-68 and 97-110): the
      header loop, the two header matches and the STEP and LINK records. */
  method ParseInput(inputText: string) returns (p: Parsed)
    ensures p == ParseText(inputText)
  {
    KeywordsAreKeywords();
    var lines := SplitLines(inputText);
    var nameLine, orientationLine := LocateHeaders(lines, NameKeyword, OrientationKeyword);
    var name := HeaderValue(lines, NameKeyword);
    var orient := HeaderValue(lines, OrientationKeyword);
    p := Parsed(nameLine, orientationLine, name, orient, StepsOf(lines), LinksOf(lines));
  }

  /** With no state stored yet, the diagram is an empty left-to-right
      chart. */
  lemma EmptyChart()
    ensures Gen("", [], []) == "flowchart LR\n"
  {
    assert NodeStatements([]) == [] && EdgeStatements([]) == [];
    assert Header("") == "flowchart LR";
    assert Statements("", [], []) == ["flowchart LR"];
    assert Terminated(["flowchart LR"]) == "flowchart LR" + "\n" + Terminated([]);
  }

  /** The checking and generating half of handleGenerate (lines 71-179):
      the error strings of the parsed input, and the definition drawn from
      the previous orientation, steps and links when there are none. */
  method CheckAndEmit(p: Parsed, orientation: string, steps: seq<Step>, links: seq<Link>)
    returns (errors: seq<string>, def: string)
    ensures errors == Messages(Diagnose(p))
    ensures def == Definition(Diagnose(p), orientation, steps, links)
  {
    var diags := Validate(p);
    errors := Messages(diags);
    def := "";
    if |diags| == 0 {
      def := EmitDefinition(orientation, steps, links);
    }
  }

  class FlowchartEditor {
    var flowchartName: string
    var orientation: string
    var steps: seq<Step>
    var links: seq<Link>
    var errors: seq<string>
    var mermaidError: string
    var mermaidDef: string

    /** The initial state of lines 7-13. */
    constructor()
      ensures flowchartName == "" && orientation == "" && steps == [] && links == []
      ensures errors == [] && mermaidError == "" && mermaidDef == ""
    {
      flowchartName := "";
      orientation := "";
      steps := [];
      links := [];
      errors := [];
      mermaidError := "";
      mermaidDef := "";
    }

    /** The state after handleGenerate has run on input parsed as `p`,
        having found `prevOrientation`, `prevSteps` and `prevLinks`: every
        field comes from the new input, except the definition, which is
        drawn from the values found, because the handler reads the state of
        the render it was created in (lines 149, 151 and 172). */
    predicate Stored(p: Parsed, prevOrientation: string, prevSteps: seq<Step>, prevLinks: seq<Link>)
      reads this
    {
      && flowchartName == ValueOrEmpty(p.name)
      && orientation == ValueOrEmpty(p.orientation)
      && steps == p.steps && links == p.links
      && errors == Messages(Diagnose(p))
      && mermaidDef == Definition(Diagnose(p), prevOrientation, prevSteps, prevLinks)
      && mermaidError == ""
    }

    /** handleGenerate: parse the input text, then check it and store the
        results. */
    method Generate(inputText: string)
      modifies this
      ensures Stored(ParseText(inputText), old(orientation), old(steps), old(links))
    {
      var p := ParseInput(inputText);
      Store(p);
    }

    /** The second half of handleGenerate: the `set...` calls of lines 47-48,
        69, 111, 144, 180 and 181 around the checks and the generator. */
    method Store(p: Parsed)
      modifies this
      ensures Stored(p, old(orientation), old(steps), old(links))
    {
      var prevOrientation, prevSteps, prevLinks := orientation, steps, links;
      flowchartName := ValueOrEmpty(p.name);
      orientation := ValueOrEmpty(p.orientation);
      steps := p.steps;
      links := p.links;
      var newErrors, def := CheckAndEmit(p, prevOrientation, prevSteps, prevLinks);
      errors := newErrors;
      mermaidDef := def;
      mermaidError := "";
    }
  }

  /** Generating twice from the same clean text draws that text's diagram:
      the second call finds the state the first one stored. */
  method GenerateTwice(editor: FlowchartEditor, text: string)
    modifies editor
    requires Diagnose(ParseText(text)) == []
    ensures editor.mermaidDef ==
            Gen(ValueOrEmpty(ParseText(text).orientation), ParseText(text).steps, ParseText(text).links)
  {
    editor.Generate(text);
    editor.Generate(text);
  }

  /** The first Generate of a fresh editor draws an empty left-to-right
      chart, whatever the text, or nothing when the text has diagnostics. */
  method FirstGenerate(text: string) returns (editor: FlowchartEditor)
    ensures editor.mermaidDef == "flowchart LR\n" || editor.mermaidDef == ""
    ensures editor.mermaidDef == "" <==> Diagnose(ParseText(text)) != []
  {
    editor := new FlowchartEditor();
    editor.Generate(text);
    EmptyChart();
  }

  // ---------------------------------------------------------------------
  // Properties of the state Generate stores

  /** The stored name is empty exactly when the missing-name diagnostic is
      reported; likewise the orientation. */
  lemma EmptyHeaderIsReported(text: string)
    ensures ValueOrEmpty(ParseText(text).name) == "" <==>
            MissingName(HeaderLine(ParseText(text).nameLine)) in Diagnose(ParseText(text))
    ensures ValueOrEmpty(ParseText(text).orientation) == "" <==>
            MissingOrientation(HeaderLine(ParseText(text).orientationLine)) in Diagnose(ParseText(text))
  {
    MissingHeaderReported(ParseText(text));
  }

  /** Every stored error string starts with the line its diagnostic cites. */
  lemma ErrorsCiteLines(ds: seq<Diagnostic>, k: nat)
    requires k < |ds|
    ensures k < |Messages(ds)| && CitedLine(Messages(ds)[k]) == Some(ds[k].line)
  {
    MessageCitesLine(ds[k]);
  }

  /** A text Generate accepts has a node statement for every step, in step
      order: validation leaves no step without an id or a name. */
  lemma CleanTextDrawsEveryStep(text: string)
    requires Diagnose(ParseText(text)) == []
    ensures var steps := ParseText(text).steps;
            && |NodeStatements(steps)| == |steps|
            && forall k :: 0 <= k < |steps| ==> NodeStatements(steps)[k] == NodeStatement(steps[k])
  {
    var p := ParseText(text);
    DiagnoseEmptyIff(p);
    AllDrawn(p.steps, EmitsNode, NodeStatement);
  }

  /** The definition drawn from the state a Generate stored reads back line
      by line as its statements, in order. */
  lemma StoredStateDrawsLineByLine(text: string)
    ensures var p := ParseText(text);
            Split(Gen(ValueOrEmpty(p.orientation), p.steps, p.links), '\n') ==
            Statements(ValueOrEmpty(p.orientation), p.steps, p.links) + [""]
  {
    var p := ParseText(text);
    ParsedSingleLine(text);
    GenLines(ValueOrEmpty(p.orientation), p.steps, p.links);
  }
}
