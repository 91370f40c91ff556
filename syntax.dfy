/** Line selection, numbering and field splitting of the flowchart language
    (src/App.js, handleGenerate, lines 33-68 and 98-110). */
module Syntax {
  import opened Text

  datatype Option<T> = None | Some(value: T)

  /** A STEP directive: `STEP: id, name, type, shape, description...`.
      `kind` holds the TYPE field; `line` is the 1-based source line. */
  datatype Step = Step(id: string, name: string, kind: string, shape: string,
                       description: string, line: nat)

  /** A LINK directive: `LINK: from, to, label`. */
  datatype Link = Link(from: string, to: string, labelText: string, line: nat)

  /** A line that carries a given directive: its 0-based position in the
      line list and the text after the directive's colon. */
  datatype NumberedLine = NumberedLine(index: nat, rest: string)

  /** Everything one pass over the input determines. The two line numbers are
      -1 when no line carries the directive, as in the source. */
  datatype Parsed = Parsed(nameLine: int, orientationLine: int,
                           name: Option<string>, orientation: Option<string>,
                           steps: seq<Step>, links: seq<Link>)

  const NameKeyword := "FLOWCHART_NAME"
  const OrientationKeyword := "ORIENTATION"
  const StepKeyword := "STEP"
  const LinkKeyword := "LINK"

  /** Directive keywords are upper-case ASCII words. */
  predicate IsKeyword(kw: string) {
    |kw| > 0 && forall k :: 0 <= k < |kw| ==> 'A' <= kw[k] <= 'Z' || kw[k] == '_'
  }

  /** `line` holds `kw` at position `i`, compared after ASCII lower-casing
      (the `/i` flag). */
  predicate MatchesAt(line: string, kw: string, i: nat) {
    i + |kw| <= |line| && forall k :: 0 <= k < |kw| ==> LowerChar(line[i + k]) == LowerChar(kw[k])
  }

  /** `line[..j + 1]` is what `/^\s*KW\s*:/i` matches: spaces up to `i`, the
      keyword in any case, spaces, and the colon at `j`. */
  ghost predicate KeywordPrefixAt(line: string, kw: string, i: nat, j: nat) {
    && i + |kw| <= j < |line|
    && (forall k :: 0 <= k < i ==> IsSpace(line[k]))
    && MatchesAt(line, kw, i)
    && (forall k :: i + |kw| <= k < j ==> IsSpace(line[k]))
    && line[j] == ':'
  }

  /** The text after the colon when the line starts with the directive
      `kw` (leading spaces and spaces before the colon allowed, keyword in
      any case), and `None` otherwise. */
  function Directive(line: string, kw: string): Option<string>
    requires IsKeyword(kw)
  {
    DirectiveFrom(line, kw, 0)
  }

  /** Skips the spaces from `i` on, then expects the keyword. */
  function DirectiveFrom(line: string, kw: string, i: nat): Option<string>
    requires i <= |line|
    decreases |line| - i
  {
    if i < |line| && IsSpace(line[i]) then DirectiveFrom(line, kw, i + 1)
    else if MatchesAt(line, kw, i) then ColonFrom(line, i + |kw|)
    else None
  }

  /** Skips the spaces from `j` on, then expects the colon. */
  function ColonFrom(line: string, j: nat): Option<string>
    requires j <= |line|
    decreases |line| - j
  {
    if j < |line| && IsSpace(line[j]) then ColonFrom(line, j + 1)
    else if j < |line| && line[j] == ':' then Some(line[j + 1..])
    else None
  }

  lemma {:induction false} ColonAfterSpaces(line: string, j: nat)
    requires j <= |line|
    ensures var e := SpaceRunEnd(line, j);
            ColonFrom(line, j) == if e < |line| && line[e] == ':' then Some(line[e + 1..]) else None
    decreases |line| - j
  {
    if j < |line| && IsSpace(line[j]) {
      ColonAfterSpaces(line, j + 1);
    }
  }

  lemma {:induction false} KeywordAfterSpaces(line: string, kw: string, i: nat)
    requires i <= |line|
    ensures var e := SpaceRunEnd(line, i);
            DirectiveFrom(line, kw, i) == if MatchesAt(line, kw, e) then ColonFrom(line, e + |kw|) else None
    decreases |line| - i
  {
    if i < |line| && IsSpace(line[i]) {
      KeywordAfterSpaces(line, kw, i + 1);
    }
  }

  /** A character that matches a keyword letter in any case is no space. */
  lemma KeywordCharIsNoSpace(c: char, d: char)
    requires 'A' <= d <= 'Z' || d == '_'
    requires LowerChar(c) == LowerChar(d)
    ensures !IsSpace(c)
  {
  }

  /** `Directive` recognises exactly the lines `/^\s*KW\s*:/i` matches, and
      yields the text after the matched prefix. */
  lemma DirectiveMatchesPrefix(line: string, kw: string, x: string)
    requires IsKeyword(kw)
    ensures Directive(line, kw) == Some(x) <==>
              exists i: nat, j: nat :: KeywordPrefixAt(line, kw, i, j) && x == line[j + 1..]
  {
    var i := SpaceRunEnd(line, 0);
    KeywordAfterSpaces(line, kw, 0);
    if MatchesAt(line, kw, i) {
      ColonAfterSpaces(line, i + |kw|);
      var j := SpaceRunEnd(line, i + |kw|);
      if j < |line| && line[j] == ':' {
        assert KeywordPrefixAt(line, kw, i, j);
      }
    }
    forall i': nat, j': nat | KeywordPrefixAt(line, kw, i', j')
      ensures Directive(line, kw) == Some(line[j' + 1..])
    {
      PrefixIsDirective(line, kw, i', j');
    }
  }

  /** Every prefix match is the one `Directive` finds. */
  lemma PrefixIsDirective(line: string, kw: string, i: nat, j: nat)
    requires IsKeyword(kw) && KeywordPrefixAt(line, kw, i, j)
    ensures Directive(line, kw) == Some(line[j + 1..])
  {
    KeywordCharIsNoSpace(line[i + 0], kw[0]);
    SpaceRunEndUnique(line, 0, i);
    KeywordAfterSpaces(line, kw, 0);
    SpaceRunEndUnique(line, i + |kw|, j);
    ColonAfterSpaces(line, i + |kw|);
  }

  /** A directive written canonically, keyword then colon, is recognised and
      yields exactly the text after the colon. */
  lemma CanonicalDirective(kw: string, x: string)
    requires IsKeyword(kw)
    ensures Directive(kw + ":" + x, kw) == Some(x)
  {
    var line := kw + ":" + x;
    assert KeywordPrefixAt(line, kw, 0, |kw|);
    assert line[|kw| + 1..] == x;
    DirectiveMatchesPrefix(line, kw, x);
  }

  /** Comment lines (`// STEP: ...`) and blank lines are never directives. */
  lemma CommentOrBlankIsNoDirective(line: string, kw: string)
    requires IsKeyword(kw)
    requires TrimStart(line) == [] || TrimStart(line)[0] == '/'
    ensures Directive(line, kw).None?
  {
    var i := SpaceRunEnd(line, 0);
    KeywordAfterSpaces(line, kw, 0);
    if i < |line| {
      assert line[i] == TrimStart(line)[0];
      assert LowerChar(line[i + 0]) != LowerChar(kw[0]);
    }
  }

  /** The positions of the present entries of `opts`, in order, with their
      values. */
  function Present(opts: seq<Option<string>>): (r: seq<NumberedLine>)
    ensures forall k :: 0 <= k < |r| ==> r[k].index < |opts| && opts[r[k].index] == Some(r[k].rest)
    ensures forall k, m :: 0 <= k < m < |r| ==> r[k].index < r[m].index
  {
    if |opts| == 0 then []
    else
      var init := Present(opts[..|opts| - 1]);
      match opts[|opts| - 1]
      case Some(rest) => init + [NumberedLine(|opts| - 1, rest)]
      case None => init
  }

  /** No present entry is skipped. */
  lemma {:induction false} PresentComplete(opts: seq<Option<string>>, m: nat)
    requires m < |opts| && opts[m].Some?
    ensures exists k :: 0 <= k < |Present(opts)| && Present(opts)[k].index == m
  {
    var init := opts[..|opts| - 1];
    if m < |opts| - 1 {
      assert init[m] == opts[m];
      PresentComplete(init, m);
      var k :| 0 <= k < |Present(init)| && Present(init)[k].index == m;
      assert Present(opts)[k] == Present(init)[k];
    } else {
      assert Present(opts)[|Present(init)|].index == m;
    }
  }

  /** Whether, and with what text, each line carries directive `kw`. */
  function Classify(lines: seq<string>, kw: string): seq<Option<string>>
    requires IsKeyword(kw)
  {
    seq(|lines|, m requires 0 <= m < |lines| => Directive(lines[m], kw))
  }

  /** The 1-based position of the first present entry of `opts`, or -1. */
  function FirstPresent(opts: seq<Option<string>>): (r: int)
    ensures r == -1 || 1 <= r <= |opts|
    ensures r == -1 <==> forall k :: 0 <= k < |opts| ==> opts[k].None?
    ensures r != -1 ==> opts[r - 1].Some? && forall k :: 0 <= k < r - 1 ==> opts[k].None?
  {
    if |opts| == 0 then -1
    else
      var r := FirstPresent(opts[..|opts| - 1]);
      assert forall k :: 0 <= k < |opts| - 1 ==> opts[..|opts| - 1][k] == opts[k];
      if r != -1 then r
      else if opts[|opts| - 1].Some? then |opts|
      else -1
  }

  /** The 1-based number of the first line carrying `kw`, or -1: what the
      `forEach` that sets `flowchartNameLine` and `orientationLine` finds. */
  function FirstDirectiveLine(lines: seq<string>, kw: string): (r: int)
    requires IsKeyword(kw)
    ensures r == -1 || 1 <= r <= |lines|
    ensures r == -1 <==> forall m :: 0 <= m < |lines| ==> Directive(lines[m], kw).None?
    ensures r != -1 ==> Directive(lines[r - 1], kw).Some? &&
                        forall m :: 0 <= m < r - 1 ==> Directive(lines[m], kw).None?
  {
    var opts := Classify(lines, kw);
    assert forall m :: 0 <= m < |lines| ==> opts[m] == Directive(lines[m], kw);
    FirstPresent(opts)
  }

  /** `r` is the 1-based position of the first present entry of `opts`
      among its first `n`, or -1 when there is none. */
  predicate IsFirstPresent(opts: seq<Option<string>>, n: nat, r: int)
    requires n <= |opts|
  {
    if r == -1 then forall k :: 0 <= k < n ==> opts[k].None?
    else 1 <= r <= n && opts[r - 1].Some? && forall k :: 0 <= k < r - 1 ==> opts[k].None?
  }

  lemma FirstPresentUnique(opts: seq<Option<string>>, r: int)
    requires IsFirstPresent(opts, |opts|, r)
    ensures FirstPresent(opts) == r
  {
  }

  /** The header loop of the source: one pass recording the first line
      carrying each of two directives; handleGenerate runs it with
      `NameKeyword` and `OrientationKeyword`. */
  method LocateHeaders(lines: seq<string>, nameKw: string, orientationKw: string)
    returns (nameLine: int, orientationLine: int)
    requires IsKeyword(nameKw) && IsKeyword(orientationKw)
    ensures nameLine == FirstDirectiveLine(lines, nameKw)
    ensures orientationLine == FirstDirectiveLine(lines, orientationKw)
  {
    ghost var names := Classify(lines, nameKw);
    ghost var orientations := Classify(lines, orientationKw);
    nameLine, orientationLine := -1, -1;
    var idx := 0;
    while idx < |lines|
      invariant 0 <= idx <= |lines|
      invariant IsFirstPresent(names, idx, nameLine)
      invariant IsFirstPresent(orientations, idx, orientationLine)
    {
      assert names[idx] == Directive(lines[idx], nameKw);
      assert orientations[idx] == Directive(lines[idx], orientationKw);
      if Directive(lines[idx], nameKw).Some? && nameLine == -1 {
        nameLine := idx + 1;
      }
      if Directive(lines[idx], orientationKw).Some? && orientationLine == -1 {
        orientationLine := idx + 1;
      }
      idx := idx + 1;
    }
    FirstPresentUnique(names, nameLine);
    FirstPresentUnique(orientations, orientationLine);
  }

  /** The remainder after the colon of the first line carrying `kw`, if
      there is such a line. */
  function HeaderRest(lines: seq<string>, kw: string): (r: Option<string>)
    requires IsKeyword(kw)
    ensures r.None? <==> FirstDirectiveLine(lines, kw) == -1
    ensures r.Some? ==> Directive(lines[FirstDirectiveLine(lines, kw) - 1], kw) == r
  {
    var n := FirstDirectiveLine(lines, kw);
    if n == -1 then None else Directive(lines[n - 1], kw)
  }

  /** The index of the first line at or after `from` holding a non-space
      character, or -1. */
  function FirstNonBlank(lines: seq<string>, from: nat): (r: int)
    requires from <= |lines|
    ensures r == -1 || from <= r < |lines|
    ensures r == -1 ==> forall j :: from <= j < |lines| ==> AllSpace(lines[j])
    ensures r != -1 ==> !AllSpace(lines[r]) && forall j :: from <= j < r ==> AllSpace(lines[j])
    decreases |lines| - from
  {
    if from == |lines| then -1
    else if !AllSpace(lines[from]) then from
    else FirstNonBlank(lines, from + 1)
  }

  /** What `/^\s*KW\s*:\s*(.+)$/im` captures on the whole text, trimmed.
      The match starts at the first line carrying `kw`. Its `\s*` after the
      colon runs over line breaks: when the remainder of that line is blank,
      the capture is the next line holding a non-space character; when
      there is none, the backtracking `\s*` leaves one space to `(.+)`,
      so the capture is blank, as long as any character follows the colon. */
  function HeaderMatch(lines: seq<string>, kw: string): (r: Option<string>)
    requires IsKeyword(kw)
    ensures HeaderRest(lines, kw).None? ==> r.None?
    ensures r.Some? ==> IsTrimmed(r.value)
  {
    match HeaderRest(lines, kw)
    case None => None
    case Some(rest) =>
      var n := FirstDirectiveLine(lines, kw);
      if !AllSpace(rest) then Some(Trim(rest))
      else
        var j := FirstNonBlank(lines, n);
        if j != -1 then Some(Trim(lines[j]))
        else if rest != [] || exists m :: n <= m < |lines| && lines[m] != [] then Some("")
        else None
  }

  /** The FLOWCHART_NAME or ORIENTATION value as the directive is meant to
      be read: the trimmed text after the colon of the first line carrying
      it, absent when that text is blank. */
  function HeaderValue(lines: seq<string>, kw: string): (r: Option<string>)
    requires IsKeyword(kw)
    ensures r.Some? <==> HeaderRest(lines, kw).Some? && !AllSpace(HeaderRest(lines, kw).value)
    ensures r.Some? ==> r.value != "" && IsTrimmed(r.value) && r.value == Trim(HeaderRest(lines, kw).value)
  {
    match HeaderRest(lines, kw)
    case None => None
    case Some(rest) =>
      TrimEmpty(rest);
      var v := Trim(rest);
      if v == "" then None else Some(v)
  }

  /** Where the first directive line has a value, the whole-text match and
      the line reading agree. */
  lemma HeaderMatchOnItsLine(lines: seq<string>, kw: string)
    requires IsKeyword(kw)
    requires HeaderRest(lines, kw).Some? && !AllSpace(HeaderRest(lines, kw).value)
    ensures HeaderMatch(lines, kw) == HeaderValue(lines, kw)
  {
  }

  /** A directive whose own line is blank after the colon is still matched
      when any later line holds text: the match takes that line as the
      value instead of reporting the directive as missing. */
  lemma BlankHeaderTakesLaterLine(lines: seq<string>, kw: string, m: nat)
    requires IsKeyword(kw)
    requires HeaderRest(lines, kw).Some? && AllSpace(HeaderRest(lines, kw).value)
    requires FirstDirectiveLine(lines, kw) <= m < |lines| && !AllSpace(lines[m])
    ensures HeaderValue(lines, kw).None?
    ensures HeaderMatch(lines, kw).Some?
    ensures HeaderMatch(lines, kw) == Some(Trim(lines[FirstNonBlank(lines, FirstDirectiveLine(lines, kw))]))
  {
    var n := FirstDirectiveLine(lines, kw);
    var j := FirstNonBlank(lines, n);
    assert j != -1;
  }

  /** The input of the header finding: a FLOWCHART_NAME line with nothing
      after the colon, followed by the orientation line. The whole-text
      match reads the orientation line as the flowchart's name, while the
      line reading reports the name as missing. */
  lemma EmptyNameSwallowsNextLine()
    ensures HeaderMatch([NameKeyword + ":", "ORIENTATION: TD"], NameKeyword) == Some("ORIENTATION: TD")
    ensures HeaderValue([NameKeyword + ":", "ORIENTATION: TD"], NameKeyword) == None
  {
    var lines := [NameKeyword + ":", "ORIENTATION: TD"];
    CanonicalDirective(NameKeyword, "");
    assert lines[0] == NameKeyword + ":" + "";
    assert Classify(lines, NameKeyword)[0] == Some("");
    assert FirstDirectiveLine(lines, NameKeyword) == 1;
    assert HeaderRest(lines, NameKeyword) == Some("");
    assert !IsSpace(lines[1][0]);
    assert FirstNonBlank(lines, 1) == 1;
    assert IsTrimmed(lines[1]);
    TrimmedIsFixpoint(lines[1]);
  }

  /** The second input of the header finding: a lone FLOWCHART_NAME line
      with only a space after the colon. The whole-text match captures that
      space, so the name is set to "" and no missing-name diagnostic is
      raised; the line reading reports the name as missing. */
  lemma BlankNameReadsAsEmpty()
    ensures HeaderMatch([NameKeyword + ": "], NameKeyword) == Some("")
    ensures HeaderValue([NameKeyword + ": "], NameKeyword) == None
  {
    var lines := [NameKeyword + ": "];
    CanonicalDirective(NameKeyword, " ");
    assert lines[0] == NameKeyword + ":" + " ";
    assert Classify(lines, NameKeyword)[0] == Some(" ");
    assert FirstDirectiveLine(lines, NameKeyword) == 1;
    assert HeaderRest(lines, NameKeyword) == Some(" ");
    TrimEmpty(" ");
  }

  /** `.split(',').map(s => s.trim())` */
  function Fields(rest: string): (r: seq<string>)
    ensures |r| >= 1
    ensures forall k :: 0 <= k < |r| ==> IsTrimmed(r[k]) && ',' !in r[k]
  {
    TrimAll(Split(rest, ','))
  }

  /** `.map(s => s.trim())` */
  function TrimAll(xs: seq<string>): seq<string> {
    seq(|xs|, k requires 0 <= k < |xs| => Trim(xs[k]))
  }

  lemma TrimAllSuffix(xs: seq<string>, i: nat)
    requires i <= |xs|
    ensures TrimAll(xs)[i..] == TrimAll(xs[i..])
  {
  }

  /** `parts[k] || ''` */
  function FieldAt(parts: seq<string>, k: nat): string {
    if k < |parts| then parts[k] else ""
  }

  predicate SingleLine(s: string) {
    '\n' !in s
  }

  predicate SingleLineStep(s: Step) {
    SingleLine(s.id) && SingleLine(s.name) && SingleLine(s.kind) &&
    SingleLine(s.shape) && SingleLine(s.description)
  }

  predicate SingleLineLink(l: Link) {
    SingleLine(l.from) && SingleLine(l.to) && SingleLine(l.labelText)
  }

  predicate IncreasingStepLines(steps: seq<Step>) {
    forall k, m :: 0 <= k < m < |steps| ==> steps[k].line < steps[m].line
  }

  predicate IncreasingLinkLines(links: seq<Link>) {
    forall k, m :: 0 <= k < m < |links| ==> links[k].line < links[m].line
  }

  lemma FieldsAvoid(rest: string, c: char)
    requires c !in rest
    ensures forall k :: 0 <= k < |Fields(rest)| ==> c !in Fields(rest)[k]
  {
    SplitAvoids(rest, ',', c);
  }

  /** A STEP line's text after the colon: the first four fields positionally,
      every later field joined back with ", " as the description. */
  function ParseStep(rest: string, line: nat): (r: Step)
    ensures r.line == line
    ensures IsTrimmed(r.id) && ',' !in r.id && IsTrimmed(r.name) && ',' !in r.name
    ensures IsTrimmed(r.kind) && ',' !in r.kind && IsTrimmed(r.shape) && ',' !in r.shape
    ensures SingleLine(rest) ==> SingleLineStep(r)
  {
    var parts := Fields(rest);
    var description := if |parts| > 4 then Join(parts[4..], ", ") else "";
    assert SingleLine(rest) ==>
             SingleLine(description) && forall k :: 0 <= k < |parts| ==> SingleLine(parts[k]) by {
      if SingleLine(rest) {
        FieldsAvoid(rest, '\n');
        if |parts| > 4 {
          JoinAvoids(parts[4..], ", ", '\n');
        }
      }
    }
    Step(FieldAt(parts, 0), FieldAt(parts, 1), FieldAt(parts, 2), FieldAt(parts, 3), description, line)
  }

  /** A LINK line's text after the colon: from, to and label positionally;
      any fourth or later field is dropped. */
  function ParseLink(rest: string, line: nat): (r: Link)
    ensures r.line == line
    ensures IsTrimmed(r.from) && ',' !in r.from && IsTrimmed(r.to) && ',' !in r.to
    ensures IsTrimmed(r.labelText) && ',' !in r.labelText
    ensures SingleLine(rest) ==> SingleLineLink(r)
  {
    var parts := Fields(rest);
    assert SingleLine(rest) ==> forall k :: 0 <= k < |parts| ==> SingleLine(parts[k]) by {
      if SingleLine(rest) {
        FieldsAvoid(rest, '\n');
      }
    }
    Link(FieldAt(parts, 0), FieldAt(parts, 1), FieldAt(parts, 2), line)
  }

  /** Text written out as comma-free pieces joined by ",": `Fields` gives
      back every piece, trimmed and in order. Every text is the join of its
      own split (the contract of Split), so this covers every directive
      line. */
  lemma FieldsOfJoin(xs: seq<string>)
    requires |xs| >= 1 && forall k :: 0 <= k < |xs| ==> ',' !in xs[k]
    ensures Fields(Join(xs, ",")) == TrimAll(xs)
  {
    SplitJoin(xs, ',');
  }

  /** A STEP line whose text after the colon is the comma-free pieces `xs`
      joined by ",": the first four pieces, trimmed, are id, name, type and
      shape, "" for each piece that is absent; the fifth and later pieces,
      trimmed and joined with ", ", are the description. */
  lemma StepRoundTrip(xs: seq<string>, line: nat)
    requires |xs| >= 1 && forall k :: 0 <= k < |xs| ==> ',' !in xs[k]
    ensures var s := ParseStep(Join(xs, ","), line);
      && s.id == Trim(xs[0])
      && s.name == (if |xs| > 1 then Trim(xs[1]) else "")
      && s.kind == (if |xs| > 2 then Trim(xs[2]) else "")
      && s.shape == (if |xs| > 3 then Trim(xs[3]) else "")
      && s.description == (if |xs| > 4 then Join(TrimAll(xs[4..]), ", ") else "")
      && s.line == line
  {
    FieldsOfJoin(xs);
    if |xs| > 4 {
      TrimAllSuffix(xs, 4);
    }
  }

  /** The same for a LINK line: the first three pieces, trimmed, are from,
      to and label, "" for each piece that is absent; a fourth or later
      piece never reaches the Link. */
  lemma LinkRoundTrip(xs: seq<string>, line: nat)
    requires |xs| >= 1 && forall k :: 0 <= k < |xs| ==> ',' !in xs[k]
    ensures var l := ParseLink(Join(xs, ","), line);
      && l.from == Trim(xs[0])
      && l.to == (if |xs| > 1 then Trim(xs[1]) else "")
      && l.labelText == (if |xs| > 2 then Trim(xs[2]) else "")
      && l.line == line
  {
    FieldsOfJoin(xs);
  }

  /** A line written as `STEP: a, B, start, circle` is, piece by piece,
      one space followed by a trimmed field: the spaces after the commas
      are trimmed away and there is no description. */
  lemma SpacedStepLine(id: string, name: string, kind: string, shape: string, line: nat)
    requires forall f :: f in [id, name, kind, shape] ==> f != "" && IsTrimmed(f) && ',' !in f
    ensures ParseStep(Join([" " + id, " " + name, " " + kind, " " + shape], ","), line) ==
            Step(id, name, kind, shape, "", line)
  {
    var xs := [" " + id, " " + name, " " + kind, " " + shape];
    forall k | 0 <= k < 4
      ensures ',' !in xs[k] && Trim(xs[k]) == [id, name, kind, shape][k]
    {
      var f := [id, name, kind, shape][k];
      assert f in [id, name, kind, shape];
      assert xs[k] == " " + f + "";
      TrimPadded(" ", f, "");
    }
    StepRoundTrip(xs, line);
  }

  /** `s` is the record of line `s.line` of `lines`, which carries `kw`. */
  predicate StepFromLine(s: Step, lines: seq<string>, kw: string)
    requires IsKeyword(kw)
  {
    1 <= s.line <= |lines| && Directive(lines[s.line - 1], kw).Some? &&
    s == ParseStep(Directive(lines[s.line - 1], kw).value, s.line)
  }

  /** Each numbered line parsed as a step, numbered from 1. */
  function ParseStepLines(d: seq<NumberedLine>): (r: seq<Step>)
    ensures |r| == |d|
    ensures forall k :: 0 <= k < |d| ==> r[k] == ParseStep(d[k].rest, d[k].index + 1)
  {
    if d == [] then [] else [ParseStep(d[0].rest, d[0].index + 1)] + ParseStepLines(d[1..])
  }

  /** The records of the lines carrying directive `kw`, in line order, each
      parsed from the text after the colon of its own line and carrying that
      line's 1-based number; `StepsOf` instantiates it with `STEP`. */
  function StepRecords(lines: seq<string>, kw: string): (r: seq<Step>)
    requires IsKeyword(kw)
    ensures forall k :: 0 <= k < |r| ==> StepFromLine(r[k], lines, kw)
    ensures IncreasingStepLines(r)
  {
    var opts := Classify(lines, kw);
    var d := Present(opts);
    var r := ParseStepLines(d);
    assert forall k :: 0 <= k < |r| ==> StepFromLine(r[k], lines, kw) by {
      forall k | 0 <= k < |r|
        ensures StepFromLine(r[k], lines, kw)
      {
        assert opts[d[k].index] == Some(d[k].rest);
      }
    }
    r
  }

  /** Every line carrying the directive yields a record. */
  lemma EveryStepLineCounts(lines: seq<string>, kw: string, m: nat)
    requires IsKeyword(kw) && m < |lines| && Directive(lines[m], kw).Some?
    ensures exists k :: 0 <= k < |StepRecords(lines, kw)| && StepRecords(lines, kw)[k].line == m + 1
  {
    var d := Present(Classify(lines, kw));
    PresentComplete(Classify(lines, kw), m);
    var k :| 0 <= k < |d| && d[k].index == m;
    assert StepRecords(lines, kw)[k].line == m + 1;
  }

  predicate LinkFromLine(l: Link, lines: seq<string>, kw: string)
    requires IsKeyword(kw)
  {
    1 <= l.line <= |lines| && Directive(lines[l.line - 1], kw).Some? &&
    l == ParseLink(Directive(lines[l.line - 1], kw).value, l.line)
  }

  function ParseLinkLines(d: seq<NumberedLine>): (r: seq<Link>)
    ensures |r| == |d|
    ensures forall k :: 0 <= k < |d| ==> r[k] == ParseLink(d[k].rest, d[k].index + 1)
  {
    if d == [] then [] else [ParseLink(d[0].rest, d[0].index + 1)] + ParseLinkLines(d[1..])
  }

  /** The same for LINK lines. */
  function LinkRecords(lines: seq<string>, kw: string): (r: seq<Link>)
    requires IsKeyword(kw)
    ensures forall k :: 0 <= k < |r| ==> LinkFromLine(r[k], lines, kw)
    ensures IncreasingLinkLines(r)
  {
    var opts := Classify(lines, kw);
    var d := Present(opts);
    var r := ParseLinkLines(d);
    assert forall k :: 0 <= k < |r| ==> LinkFromLine(r[k], lines, kw) by {
      forall k | 0 <= k < |r|
        ensures LinkFromLine(r[k], lines, kw)
      {
        assert opts[d[k].index] == Some(d[k].rest);
      }
    }
    r
  }

  lemma EveryLinkLineCounts(lines: seq<string>, kw: string, m: nat)
    requires IsKeyword(kw) && m < |lines| && Directive(lines[m], kw).Some?
    ensures exists k :: 0 <= k < |LinkRecords(lines, kw)| && LinkRecords(lines, kw)[k].line == m + 1
  {
    var d := Present(Classify(lines, kw));
    PresentComplete(Classify(lines, kw), m);
    var k :| 0 <= k < |d| && d[k].index == m;
    assert LinkRecords(lines, kw)[k].line == m + 1;
  }

  /** The STEP records of the input. */
  function StepsOf(lines: seq<string>): seq<Step> {
    StepRecords(lines, StepKeyword)
  }

  /** The LINK records of the input. */
  function LinksOf(lines: seq<string>): seq<Link> {
    LinkRecords(lines, LinkKeyword)
  }

  /** The text after a directive's colon is part of its line. */
  lemma DirectiveSingleLine(line: string, kw: string)
    requires IsKeyword(kw) && SingleLine(line) && Directive(line, kw).Some?
    ensures SingleLine(Directive(line, kw).value)
  {
    var x := Directive(line, kw).value;
    DirectiveMatchesPrefix(line, kw, x);
    var i: nat, j: nat :| KeywordPrefixAt(line, kw, i, j) && x == line[j + 1..];
  }

  lemma StepSingleLine(s: Step, lines: seq<string>, kw: string)
    requires IsKeyword(kw) && StepFromLine(s, lines, kw) && SingleLine(lines[s.line - 1])
    ensures SingleLineStep(s)
  {
    var rest := Directive(lines[s.line - 1], kw).value;
    DirectiveSingleLine(lines[s.line - 1], kw);
    assert SingleLineStep(ParseStep(rest, s.line));
  }

  lemma LinkSingleLine(l: Link, lines: seq<string>, kw: string)
    requires IsKeyword(kw) && LinkFromLine(l, lines, kw) && SingleLine(lines[l.line - 1])
    ensures SingleLineLink(l)
  {
    var rest := Directive(lines[l.line - 1], kw).value;
    DirectiveSingleLine(lines[l.line - 1], kw);
    assert SingleLineLink(ParseLink(rest, l.line));
  }

  /** Records read from single-line text have single-line fields. */
  lemma StepRecordsSingleLine(lines: seq<string>, kw: string)
    requires IsKeyword(kw)
    requires forall m :: 0 <= m < |lines| ==> SingleLine(lines[m])
    ensures forall k :: 0 <= k < |StepRecords(lines, kw)| ==> SingleLineStep(StepRecords(lines, kw)[k])
  {
    var steps := StepRecords(lines, kw);
    forall k | 0 <= k < |steps|
      ensures SingleLineStep(steps[k])
    {
      StepSingleLine(steps[k], lines, kw);
    }
  }

  lemma LinkRecordsSingleLine(lines: seq<string>, kw: string)
    requires IsKeyword(kw)
    requires forall m :: 0 <= m < |lines| ==> SingleLine(lines[m])
    ensures forall k :: 0 <= k < |LinkRecords(lines, kw)| ==> SingleLineLink(LinkRecords(lines, kw)[k])
  {
    var links := LinkRecords(lines, kw);
    forall k | 0 <= k < |links|
      ensures SingleLineLink(links[k])
    {
      LinkSingleLine(links[k], lines, kw);
    }
  }

  /** A header value read from single-line text is single-line. */
  lemma HeaderValueSingleLine(lines: seq<string>, kw: string)
    requires IsKeyword(kw)
    requires forall m :: 0 <= m < |lines| ==> SingleLine(lines[m])
    ensures HeaderValue(lines, kw).Some? ==> SingleLine(HeaderValue(lines, kw).value)
  {
    if HeaderValue(lines, kw).Some? {
      var n := FirstDirectiveLine(lines, kw);
      DirectiveSingleLine(lines[n - 1], kw);
    }
  }

  /** The four directive keywords are keywords. */
  lemma KeywordsAreKeywords()
    ensures IsKeyword(NameKeyword) && IsKeyword(OrientationKeyword)
    ensures IsKeyword(StepKeyword) && IsKeyword(LinkKeyword)
  {
  }

  /** Everything parsed from a text is free of line breaks. */
  lemma ParsedSingleLine(text: string)
    ensures var p := ParseText(text);
            && (p.name.Some? ==> SingleLine(p.name.value))
            && (p.orientation.Some? ==> SingleLine(p.orientation.value))
            && (forall k :: 0 <= k < |p.steps| ==> SingleLineStep(p.steps[k]))
            && (forall k :: 0 <= k < |p.links| ==> SingleLineLink(p.links[k]))
  {
    KeywordsAreKeywords();
    var lines := SplitLines(text);
    StepRecordsSingleLine(lines, StepKeyword);
    LinkRecordsSingleLine(lines, LinkKeyword);
    HeaderValueSingleLine(lines, NameKeyword);
    HeaderValueSingleLine(lines, OrientationKeyword);
  }

  /** The whole parsing half of handleGenerate over the input text. */
  function ParseText(text: string): (r: Parsed)
    ensures r.name.Some? ==> r.nameLine >= 1
    ensures r.orientation.Some? ==> r.orientationLine >= 1
    ensures IncreasingStepLines(r.steps) && IncreasingLinkLines(r.links)
  {
    KeywordsAreKeywords();
    var lines := SplitLines(text);
    Parsed(FirstDirectiveLine(lines, NameKeyword), FirstDirectiveLine(lines, OrientationKeyword),
           HeaderValue(lines, NameKeyword), HeaderValue(lines, OrientationKeyword),
           StepsOf(lines), LinksOf(lines))
  }
}
