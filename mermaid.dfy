/** The Mermaid `flowchart` definition that handleGenerate emits when the
    input has no diagnostics (src/App.js:147-178). */
module Mermaid {
  import opened Text
  import opened Syntax
  import opened Diagnostics

  // ---------------------------------------------------------------------
  // Pieces of a statement

  /** The opening and closing delimiters of a node whose lower-cased shape
      is `key`: the `switch` of lines 158-168. Any other key, the empty one
      included, takes the rectangle. */
  function Delimiters(key: string): (string, string) {
    if key == "circle" then ("(", ")")
    else if key == "rect" then ("[", "]")
    else if key == "stadium" then ("([", "])")
    else if key == "subroutine" then ("[[", "]]")
    else if key == "round" then ("(", ")")
    else if key == "hexagon" then ("{{", "}}")
    else if key == "parallelogram" then ("[/ ", " /]")
    else if key == "rhombus" then ("{", "}")
    else ("[", "]")
  }

  /** The shape keys the generator knows. */
  predicate KnownShapeKey(key: string) {
    key == "circle" || key == "rect" || key == "stadium" || key == "subroutine" ||
    key == "round" || key == "hexagon" || key == "parallelogram" || key == "rhombus"
  }

  /** The node text after the id: the caption wrapped in the delimiters of the
      step's shape, looked up in lower case. */
  function NodeSyntax(shape: string, caption: string): string {
    var delims := Delimiters(Lower(shape));
    delims.0 + caption + delims.1
  }

  /** The node caption: the name, then a backslash, an `n` and the description
      when there is one (lines 153-156). */
  function Label(name: string, description: string): string {
    if description == "" then name else name + "\\n" + description
  }

  /** The `|caption|` part of an edge, empty for an unlabelled link (line 174). */
  function EdgeLabel(labelText: string): string {
    if labelText == "" then "" else "|" + labelText + "|"
  }

  /** A step is drawn when it has an id and a name (line 152). */
  predicate EmitsNode(s: Step) {
    s.id != "" && s.name != ""
  }

  /** A link is drawn when it has both ends (line 173). */
  predicate EmitsEdge(l: Link) {
    l.from != "" && l.to != ""
  }

  /** The node statement of a step, without its line break (line 169). */
  function NodeStatement(s: Step): string {
    "  " + s.id + NodeSyntax(s.shape, Label(s.name, s.description))
  }

  /** The edge statement of a link, without its line break (line 175). */
  function EdgeStatement(l: Link): (r: string)
    ensures "  " + l.from + " -->" <= r
    ensures |r| > |l.to| && r[|r| - |l.to| - 1..] == " " + l.to
  {
    var head := "  " + l.from + " -->";
    var r := head + EdgeLabel(l.labelText) + " " + l.to;
    assert r == head + (EdgeLabel(l.labelText) + " " + l.to);
    r
  }

  /** The first statement: the diagram kind and the orientation, `LR` when
      none was given (lines 149-150). */
  function Header(orientation: string): string {
    "flowchart " + (if orientation == "" then "LR" else orientation)
  }

  // ---------------------------------------------------------------------
  // The definition

  /** The statements of the elements of `xs` that are drawn, in order. */
  function Drawn<T>(xs: seq<T>, drawn: T -> bool, statement: T -> string): seq<string> {
    if xs == [] then []
    else Drawn(xs[..|xs| - 1], drawn, statement) +
         (if drawn(xs[|xs| - 1]) then [statement(xs[|xs| - 1])] else [])
  }

  /** The same statements, each followed by a line break: the text the
      source's `+=` builds up. */
  function DrawnText<T>(xs: seq<T>, drawn: T -> bool, statement: T -> string): string {
    if xs == [] then []
    else DrawnText(xs[..|xs| - 1], drawn, statement) +
         (if drawn(xs[|xs| - 1]) then statement(xs[|xs| - 1]) + "\n" else "")
  }

  /** The node statements of the drawn steps, in step order. */
  function NodeStatements(steps: seq<Step>): seq<string> {
    Drawn(steps, EmitsNode, NodeStatement)
  }

  /** The edge statements of the drawn links, in link order. */
  function EdgeStatements(links: seq<Link>): seq<string> {
    Drawn(links, EmitsEdge, EdgeStatement)
  }

  /** The statements of the definition: header, nodes, then edges. */
  function Statements(orientation: string, steps: seq<Step>, links: seq<Link>): (r: seq<string>)
    ensures |r| >= 1 && r[0] == Header(orientation)
  {
    [Header(orientation)] + NodeStatements(steps) + EdgeStatements(links)
  }

  /** Each statement followed by a line break. */
  function Terminated(xs: seq<string>): (r: string)
    ensures xs != [] ==> |r| > 0 && r[|r| - 1] == '\n'
  {
    if xs == [] then [] else xs[0] + "\n" + Terminated(xs[1..])
  }

  /** The definition the generator produces from an orientation, steps and
      links. */
  function Gen(orientation: string, steps: seq<Step>, links: seq<Link>): (r: string)
    ensures Header(orientation) + "\n" <= r
    ensures r[|r| - 1] == '\n'
  {
    var xs := Statements(orientation, steps, links);
    assert Terminated(xs) == (Header(orientation) + "\n") + Terminated(xs[1..]);
    Terminated(xs)
  }

  // ---------------------------------------------------------------------
  // Properties of the definition

  lemma {:induction false} TerminatedAppend(xs: seq<string>, ys: seq<string>)
    ensures Terminated(xs + ys) == Terminated(xs) + Terminated(ys)
  {
    if xs != [] {
      assert (xs + ys)[1..] == xs[1..] + ys;
      TerminatedAppend(xs[1..], ys);
    } else {
      assert xs + ys == ys;
    }
  }

  /** Terminating every statement is joining them with line breaks and
      ending with one more. */
  lemma {:induction false} TerminatedIsJoin(xs: seq<string>)
    ensures Terminated(xs) == Join(xs + [""], "\n")
  {
    if xs != [] {
      TerminatedIsJoin(xs[1..]);
      assert (xs + [""])[1..] == xs[1..] + [""];
    }
  }

  /** With single-line fields, no statement holds a line break. */
  lemma StatementsSingleLine(orientation: string, steps: seq<Step>, links: seq<Link>)
    requires SingleLine(orientation)
    requires forall k :: 0 <= k < |steps| ==> SingleLineStep(steps[k])
    requires forall k :: 0 <= k < |links| ==> SingleLineLink(links[k])
    ensures forall k :: 0 <= k < |Statements(orientation, steps, links)| ==>
              SingleLine(Statements(orientation, steps, links)[k])
  {
    var xs := Statements(orientation, steps, links);
    forall k | 0 <= k < |xs|
      ensures SingleLine(xs[k])
    {
      var n := |NodeStatements(steps)|;
      if k == 0 {
      } else if k <= n {
        NodeStatementsMembers(steps, xs[k]);
        var j :| 0 <= j < |steps| && EmitsNode(steps[j]) && xs[k] == NodeStatement(steps[j]);
        NodeStatementSingleLine(steps[j]);
      } else {
        EdgeStatementsMembers(links, xs[k]);
        var j :| 0 <= j < |links| && EmitsEdge(links[j]) && xs[k] == EdgeStatement(links[j]);
        EdgeStatementSingleLine(links[j]);
      }
    }
  }

  lemma NodeStatementSingleLine(s: Step)
    requires SingleLineStep(s)
    ensures SingleLine(NodeStatement(s))
  {
    var delims := Delimiters(Lower(s.shape));
    assert '\n' !in delims.0 && '\n' !in delims.1;
    assert '\n' !in "\\n";
  }

  lemma EdgeStatementSingleLine(l: Link)
    requires SingleLineLink(l)
    ensures SingleLine(EdgeStatement(l))
  {
  }

  /** Read back line by line, the definition is its statements, in order,
      followed by the empty piece after the final line break. */
  lemma GenLines(orientation: string, steps: seq<Step>, links: seq<Link>)
    requires SingleLine(orientation)
    requires forall k :: 0 <= k < |steps| ==> SingleLineStep(steps[k])
    requires forall k :: 0 <= k < |links| ==> SingleLineLink(links[k])
    ensures Split(Gen(orientation, steps, links), '\n') == Statements(orientation, steps, links) + [""]
  {
    var xs := Statements(orientation, steps, links);
    TerminatedIsJoin(xs);
    StatementsSingleLine(orientation, steps, links);
    SplitJoin(xs + [""], '\n');
  }

  /** The statements drawn are exactly those of the drawn elements. */
  lemma {:induction false} DrawnMembers<T>(xs: seq<T>, drawn: T -> bool, statement: T -> string, x: string)
    ensures x in Drawn(xs, drawn, statement) <==>
            exists k :: 0 <= k < |xs| && drawn(xs[k]) && x == statement(xs[k])
  {
    if xs != [] {
      var init := xs[..|xs| - 1];
      DrawnMembers(init, drawn, statement, x);
      if x in Drawn(init, drawn, statement) {
        var k :| 0 <= k < |init| && drawn(init[k]) && x == statement(init[k]);
        assert xs[k] == init[k];
      }
      if exists k :: 0 <= k < |xs| && drawn(xs[k]) && x == statement(xs[k]) {
        var k :| 0 <= k < |xs| && drawn(xs[k]) && x == statement(xs[k]);
        if k < |init| {
          assert init[k] == xs[k];
        }
      }
    }
  }

  /** When every element is drawn there is one statement per element, in
      order. */
  lemma {:induction false} AllDrawn<T>(xs: seq<T>, drawn: T -> bool, statement: T -> string)
    requires forall k :: 0 <= k < |xs| ==> drawn(xs[k])
    ensures |Drawn(xs, drawn, statement)| == |xs|
    ensures forall k :: 0 <= k < |xs| ==> Drawn(xs, drawn, statement)[k] == statement(xs[k])
  {
    if xs != [] {
      AllDrawn(xs[..|xs| - 1], drawn, statement);
    }
  }

  /** Accumulating the statements with their line breaks gives the
      terminated statements. */
  lemma {:induction false} DrawnTextIsTerminated<T>(xs: seq<T>, drawn: T -> bool, statement: T -> string)
    ensures DrawnText(xs, drawn, statement) == Terminated(Drawn(xs, drawn, statement))
  {
    if xs != [] {
      var init := xs[..|xs| - 1];
      var last := xs[|xs| - 1];
      DrawnTextIsTerminated(init, drawn, statement);
      if drawn(last) {
        TerminatedAppend(Drawn(init, drawn, statement), [statement(last)]);
      } else {
        assert Drawn(xs, drawn, statement) == Drawn(init, drawn, statement);
      }
    }
  }

  lemma DrawnTextStep<T>(xs: seq<T>, i: nat, drawn: T -> bool, statement: T -> string)
    requires i < |xs|
    ensures DrawnText(xs[..i + 1], drawn, statement) ==
            DrawnText(xs[..i], drawn, statement) + (if drawn(xs[i]) then statement(xs[i]) + "\n" else "")
  {
    assert xs[..i + 1][..i] == xs[..i];
  }

  /** The node statements are exactly those of the steps with an id and a
      name. */
  lemma NodeStatementsMembers(steps: seq<Step>, x: string)
    ensures x in NodeStatements(steps) <==>
            exists k :: 0 <= k < |steps| && EmitsNode(steps[k]) && x == NodeStatement(steps[k])
  {
    DrawnMembers(steps, EmitsNode, NodeStatement, x);
  }

  /** The edge statements are exactly those of the links with both ends. */
  lemma EdgeStatementsMembers(links: seq<Link>, x: string)
    ensures x in EdgeStatements(links) <==>
            exists k :: 0 <= k < |links| && EmitsEdge(links[k]) && x == EdgeStatement(links[k])
  {
    DrawnMembers(links, EmitsEdge, EdgeStatement, x);
  }

  /** The shape is looked up without regard to case. */
  lemma ShapeIgnoresCase(shape: string, caption: string)
    ensures NodeSyntax(Upper(shape), caption) == NodeSyntax(shape, caption)
  {
    assert Lower(Upper(shape)) == Lower(shape);
  }

  /** A shape the table does not know draws a rectangle. */
  lemma UnknownShapeIsRectangle(shape: string, caption: string)
    requires !KnownShapeKey(Lower(shape))
    ensures NodeSyntax(shape, caption) == "[" + caption + "]"
  {
  }

  /** Of the six shapes validation accepts, only `circle` is in the
      generator's table: the other five are drawn as rectangles. */
  lemma AllowedShapesRendering(shape: string, caption: string)
    requires ShapeAllowed(shape)
    ensures Lower(shape) == "circle" ==> NodeSyntax(shape, caption) == "(" + caption + ")"
    ensures Lower(shape) != "circle" ==> NodeSyntax(shape, caption) == "[" + caption + "]"
  {
    var key := Lower(shape);
    assert key == "rectangle" || key == "roundedrect" || key == "diamond" ||
           key == "circle" || key == "cylinder" || key == "trapezoid";
  }

  /** Every opening delimiter starts with a bracket. */
  lemma OpeningDelimiter(key: string)
    ensures |Delimiters(key).0| > 0
    ensures Delimiters(key).0[0] == '(' || Delimiters(key).0[0] == '[' || Delimiters(key).0[0] == '{'
  {
  }

  /** A valid id is recoverable from its node statement: it follows the two
      spaces of indentation and ends where the delimiters begin. */
  lemma NodeIdRecoverable(s: Step)
    requires ValidId(s.id)
    ensures NodeStatement(s)[..2] == "  "
    ensures NodeStatement(s)[2..2 + |s.id|] == s.id
    ensures 2 + |s.id| < |NodeStatement(s)| && !IdChar(NodeStatement(s)[2 + |s.id|])
  {
    var delims := Delimiters(Lower(s.shape));
    OpeningDelimiter(Lower(s.shape));
    var rest := NodeSyntax(s.shape, Label(s.name, s.description));
    assert rest == delims.0 + Label(s.name, s.description) + delims.1;
    assert NodeStatement(s) == "  " + s.id + rest;
    assert rest[0] == delims.0[0];
  }

  // ---------------------------------------------------------------------
  // The generator as the source runs it

  /** Appending one more element's text keeps a loop's accumulator equal
      to the drawn text of the elements visited. */
  lemma AppendStep<T>(def0: string, def: string, xs: seq<T>, i: nat, text: string,
                      drawn: T -> bool, statement: T -> string)
    requires i < |xs|
    requires def == def0 + DrawnText(xs[..i], drawn, statement)
    requires text == if drawn(xs[i]) then statement(xs[i]) + "\n" else ""
    ensures def + text == def0 + DrawnText(xs[..i + 1], drawn, statement)
  {
    DrawnTextStep(xs, i, drawn, statement);
  }

  /** A loop that has visited every element has built the terminated list
      of the drawn statements. */
  lemma AppendDone<T>(def0: string, def: string, xs: seq<T>, drawn: T -> bool, statement: T -> string)
    requires def == def0 + DrawnText(xs[..|xs|], drawn, statement)
    ensures def == def0 + Terminated(Drawn(xs, drawn, statement))
  {
    assert xs[..|xs|] == xs;
    DrawnTextIsTerminated(xs, drawn, statement);
  }

  /** One turn of the steps loop (lines 152-170): the text appended for a
      step, nothing unless it has an id and a name. */
  method NodeLine(step: Step) returns (text: string)
    ensures text == if EmitsNode(step) then NodeStatement(step) + "\n" else ""
  {
    text := "";
    if step.id != "" && step.name != "" {
      var caption := step.name;
      if step.description != "" {
        caption := caption + "\\n" + step.description;
      }
      assert caption == Label(step.name, step.description);
      text := "  " + step.id + NodeSyntax(step.shape, caption) + "\n";
    }
  }

  /** The steps loop of lines 151-171: appends the node statement of every
      drawn step to `def0`. */
  method AppendNodes(def0: string, steps: seq<Step>) returns (def: string)
    ensures def == def0 + Terminated(NodeStatements(steps))
  {
    def := def0;
    var i := 0;
    while i < |steps|
      invariant 0 <= i <= |steps|
      invariant def == def0 + DrawnText(steps[..i], EmitsNode, NodeStatement)
    {
      var text := NodeLine(steps[i]);
      AppendStep(def0, def, steps, i, text, EmitsNode, NodeStatement);
      def := def + text;
      i := i + 1;
    }
    AppendDone(def0, def, steps, EmitsNode, NodeStatement);
  }

  /** One turn of the links loop (lines 173-176): the text appended for a
      link, nothing unless it has both ends. */
  method EdgeLine(link: Link) returns (text: string)
    ensures text == if EmitsEdge(link) then EdgeStatement(link) + "\n" else ""
  {
    text := "";
    if link.from != "" && link.to != "" {
      var lbl := if link.labelText != "" then "|" + link.labelText + "|" else "";
      text := "  " + link.from + " -->" + lbl + " " + link.to + "\n";
    }
  }

  /** The links loop of lines 172-177: appends the edge statement of every
      drawn link to `def0`. */
  method AppendEdges(def0: string, links: seq<Link>) returns (def: string)
    ensures def == def0 + Terminated(EdgeStatements(links))
  {
    def := def0;
    var j := 0;
    while j < |links|
      invariant 0 <= j <= |links|
      invariant def == def0 + DrawnText(links[..j], EmitsEdge, EdgeStatement)
    {
      var text := EdgeLine(links[j]);
      AppendStep(def0, def, links, j, text, EmitsEdge, EdgeStatement);
      def := def + text;
      j := j + 1;
    }
    AppendDone(def0, def, links, EmitsEdge, EdgeStatement);
  }

  /** The `def` of lines 148-178, built from the given orientation, steps
      and links. */
  method EmitDefinition(orientation: string, steps: seq<Step>, links: seq<Link>)
    returns (def: string)
    ensures def == Gen(orientation, steps, links)
  {
    var orient := if orientation != "" then orientation else "LR";
    def := "flowchart " + orient + "\n";
    def := AppendNodes(def, steps);
    def := AppendEdges(def, links);
    TerminatedAppend([Header(orientation)], NodeStatements(steps));
    TerminatedAppend([Header(orientation)] + NodeStatements(steps), EdgeStatements(links));
  }
}
