/**
 * `%comlverify`: checks the code of the last cell in a fixed order (lint,
 * then the static "rubberduck" check, then at most one of the visualization
 * check and the output sanity check), and re-renders the growing result
 * after every step.
 */
module Verification {
  import opened Wrappers
  import opened Text
  import opened Records
  import opened Agent
  import Running

  const SVG_MARKER := "<image/svg+xml>"
  const VIS_FRAMEWORK := "matplotlib"

  /** Why verification stops before running any check. */
  datatype VerifyError = NoCell | NotCodeCell | NotCreatedByComl | Crashed(fault: Fault)

  function Message(e: VerifyError): string {
    match e
    case NoCell => "No cell to verify!"
    case NotCodeCell => "Only code cells can be verified."
    case NotCreatedByComl => "This cell is not created by coml."
    case Crashed(f) => FaultText(f)
  }

  /** One entry `result[name] = {"result": ..., "details": ...}`. */
  datatype Entry = Entry(name: string, result: Status, details: string)

  /** The keys of a result, in insertion order. */
  function Names(s: seq<Entry>): seq<string> {
    seq(|s|, i requires 0 <= i < |s| => s[i].name)
  }

  /**
   * The code to check: the code of the last interaction when the context has
   * a non-empty `interactions` list, its `answer` otherwise. A fix context
   * without interactions has no `answer` and one whose last interaction has
   * no code yet has no `code`: both raise `KeyError`.
   */
  function CheckedCode(ctx: Context): (r: Result<string, Fault>)
    ensures ctx.body.Generated? ==> r == Success(ctx.body.gen.answer)
    ensures ctx.body.Fixing? && ctx.body.fix.interactions == [] ==> r == Failure(KeyError("answer"))
    ensures ctx.body.Fixing? && ctx.body.fix.interactions != [] ==>
      var last := ctx.body.fix.interactions[|ctx.body.fix.interactions| - 1];
      r == if last.code.Some? then Success(last.code.value) else Failure(KeyError("code"))
  {
    match ctx.body
    case Generated(g) => Success(g.answer)
    case Fixing(f) =>
      if f.interactions == [] then Failure(KeyError("answer"))
      else
        var last := f.interactions[|f.interactions| - 1];
        if last.code.Some? then Success(last.code.value) else Failure(KeyError("code"))
  }

  /** The output evidence is read only for a cell tagged with the action "run". */
  function ReadEvidence(ctx: Context, cell: Cell, c: Collaborators): (ev: Evidence)
    ensures ctx.action != Some("run") ==> ev == Evidence(None, None)
    ensures ctx.action == Some("run") ==> ev == c.parseOutputs(cell.outputs)
  {
    if ctx.action == Some("run") then c.parseOutputs(cell.outputs) else Evidence(None, None)
  }

  /** `generated_vis`: the output is non-empty and holds the SVG marker. */
  predicate GeneratedVis(ev: Evidence)
    ensures GeneratedVis(ev) ==> Truthy(ev.output) && |SVG_MARKER| <= |ev.output.value|
    ensures ev.output.None? || ev.output == Some("") ==> !GeneratedVis(ev)
  {
    Truthy(ev.output) && Contains(ev.output.value, SVG_MARKER)
  }

  /**
   * The checks `display_statuses` announces, in display order: lint and
   * rubberduck always, then the visualization check when an SVG figure was
   * produced, else the sanity check when there is an error or an output.
   */
  function DisplayNames(generatedVis: bool, ev: Evidence): (names: seq<string>)
    ensures 2 <= |names| <= 3 && names[0] == "lint" && names[1] == "rubberduck"
    ensures |names| == 3 <==> generatedVis || Truthy(ev.error) || Truthy(ev.output)
    ensures |names| == 3 ==> names[2] == "vis" || names[2] == "sanity"
    ensures "vis" in names <==> generatedVis
    ensures "sanity" in names <==> !generatedVis && (Truthy(ev.error) || Truthy(ev.output))
  {
    ["lint", "rubberduck"]
    + (if generatedVis then ["vis"]
       else if Truthy(ev.error) || Truthy(ev.output) then ["sanity"]
       else [])
  }

  /** The heading each check is shown under. */
  function Title(name: string): (t: string)
    ensures name == "lint" ==> t == "PyLint"
    ensures name == "rubberduck" ==> t == "Rubberduck"
    ensures name == "vis" ==> t == "Visualization check"
    ensures name == "sanity" ==> t == "Output sanity check"
  {
    if name == "lint" then "PyLint"
    else if name == "rubberduck" then "Rubberduck"
    else if name == "vis" then "Visualization check"
    else if name == "sanity" then "Output sanity check"
    else name
  }

  /** A rendered check: still loading, or its status icon and details. */
  datatype Progress = Loading | Done(icon: string, details: string)
  datatype Row = Row(title: string, progress: Progress)

  /** The entry stored under `name`, if any. */
  function Find(s: seq<Entry>, name: string): (r: Option<Entry>)
    ensures r.Some? <==> name in Names(s)
    ensures r.Some? ==> r.value in s && r.value.name == name
  {
    if s == [] then None
    else
      assert Names(s) == [s[0].name] + Names(s[1..]);
      if s[0].name == name then Some(s[0]) else Find(s[1..], name)
  }

  /**
   * `display_statuses(statuses)`: one row per announced check; a check with
   * no entry yet is shown as loading, any other with its icon and details.
   */
  function Render(names: seq<string>, s: seq<Entry>): (rows: seq<Row>)
    ensures |rows| == |names|
    ensures forall i :: 0 <= i < |rows| ==> rows[i].title == Title(names[i])
    ensures forall i :: 0 <= i < |rows| ==> (rows[i].progress.Loading? <==> names[i] !in Names(s))
    ensures forall i :: 0 <= i < |rows| && names[i] in Names(s) ==>
      rows[i].progress == Done(Icon(Find(s, names[i]).value.result), Find(s, names[i]).value.details)
  {
    seq(|names|, i requires 0 <= i < |names| =>
      match Find(s, names[i])
      case None => Row(Title(names[i]), Loading)
      case Some(e) => Row(Title(names[i]), Done(Icon(e.result), e.details)))
  }

  /** `<image/svg+xml>` cannot overlap itself. */
  lemma SvgMarkerHasNoBorder()
    ensures NoBorder(SVG_MARKER)
  {
    forall k | 0 < k < |SVG_MARKER| ensures SVG_MARKER[k..] != SVG_MARKER[..|SVG_MARKER| - k] {
      assert SVG_MARKER[k..][0] != SVG_MARKER[..|SVG_MARKER| - k][0];
    }
  }

  /**
   * The image payload, read at the first SVG marker: the text before the
   * marker is kept, the marker is dropped, and the rest is cleaned the same way.
   */
  lemma MarkerRemovedAtFirst(a: string, b: string)
    requires !Contains(a, SVG_MARKER)
    ensures ReplaceAll(a + SVG_MARKER + b, SVG_MARKER, "") == a + ReplaceAll(b, SVG_MARKER, "")
  {
    SvgMarkerHasNoBorder();
    ReplaceAtFirst(a, SVG_MARKER, b, "");
    assert a + "" == a;
  }

  /** One finding of the visualization check, as one line. */
  function FindingLine(f: (Status, string)): string {
    Icon(f.0) + " " + f.1 + "\n"
  }

  /** The details of the visualization check: its findings' lines, in order. */
  function VisLines(findings: seq<(Status, string)>): string {
    if findings == [] then ""
    else VisLines(findings[..|findings| - 1]) + FindingLine(findings[|findings| - 1])
  }

  /** The details of consecutive findings are the concatenation of their details. */
  lemma {:induction false} VisLinesAppend(a: seq<(Status, string)>, b: seq<(Status, string)>)
    ensures VisLines(a + b) == VisLines(a) + VisLines(b)
    decreases |b|
  {
    if b == [] {
      assert a + b == a;
    } else {
      var b' := b[..|b| - 1];
      var last := b[|b| - 1];
      assert VisLines(a + b) == VisLines(a + b') + FindingLine(last) by {
        assert (a + b)[..|a + b| - 1] == a + b';
        assert (a + b)[|a + b| - 1] == last;
      }
      VisLinesAppend(a, b');
      Regroup3(VisLines(a), VisLines(b'), FindingLine(last));
    }
  }

  // Proof hint: associativity, kept apart so VisLinesAppend stays cheap.
  lemma Regroup3(x: string, y: string, z: string)
    ensures x + y + z == x + (y + z)
  {
  }

  /** The number of occurrences of `c` in `s`. */
  function Count(s: string, c: char): nat {
    if s == [] then 0 else (if s[0] == c then 1 else 0) + Count(s[1..], c)
  }

  lemma {:induction false} CountAppend(a: string, b: string, c: char)
    ensures Count(a + b, c) == Count(a, c) + Count(b, c)
  {
    if a == [] {
      assert a + b == b;
    } else {
      assert (a + b)[1..] == a[1..] + b;
      CountAppend(a[1..], b, c);
    }
  }

  /** When no message spans lines, the details hold exactly one line per finding. */
  lemma {:induction false} OneLinePerFinding(findings: seq<(Status, string)>)
    requires forall f <- findings :: Count(f.1, '\n') == 0
    ensures Count(VisLines(findings), '\n') == |findings|
    decreases |findings|
  {
    if findings != [] {
      var init := findings[..|findings| - 1];
      var f := findings[|findings| - 1];
      OneLinePerFinding(init);
      CountAppend(VisLines(init), FindingLine(f), '\n');
      CountAppend(Icon(f.0) + " " + f.1, "\n", '\n');
      CountAppend(Icon(f.0) + " ", f.1, '\n');
      CountAppend(Icon(f.0), " ", '\n');
    }
  }

  /** The `details +=` loop over the visualization findings. */
  method RenderVisDetails(findings: seq<(Status, string)>) returns (details: string)
    ensures details == VisLines(findings)
  {
    details := "";
    for i := 0 to |findings|
      invariant details == VisLines(findings[..i])
    {
      assert findings[..i + 1][..i] == findings[..i];
      details := details + FindingLine(findings[i]);
    }
    assert findings[..|findings|] == findings;
  }

  /** Each snapshot of the result extends the one before by exactly one entry, starting from empty. */
  predicate Grows(trace: seq<seq<Entry>>) {
    && |trace| >= 1
    && trace[0] == []
    && forall i :: 0 <= i < |trace| - 1 ==>
         |trace[i + 1]| == |trace[i]| + 1 && trace[i + 1][..|trace[i]|] == trace[i]
  }

  /** A growing trace never loses an entry: every snapshot is a prefix of every later one. */
  lemma {:induction false} GrowsPrefix(trace: seq<seq<Entry>>, i: nat, j: nat)
    requires Grows(trace) && i <= j < |trace|
    ensures |trace[j]| == j
    ensures trace[i] == trace[j][..i]
    decreases j
  {
    if j > 0 {
      if i < j {
        GrowsPrefix(trace, i, j - 1);
        assert trace[j][..j - 1][..i] == trace[j][..i];
      } else {
        GrowsPrefix(trace, j - 1, j - 1);
      }
    }
  }

  /** Appending one entry to the latest snapshot keeps a trace growing. */
  lemma GrowsStep(trace: seq<seq<Entry>>, e: Entry)
    requires Grows(trace)
    ensures Grows(trace + [trace[|trace| - 1] + [e]])
  {
    var t := trace + [trace[|trace| - 1] + [e]];
    assert t[|trace|][..|trace[|trace| - 1]|] == trace[|trace| - 1];
    assert forall i :: 0 <= i < |trace| ==> t[i] == trace[i];
  }

  /** The last cell exists, is a code cell and carries a `coml` tag. */
  predicate Tagged(lastCell: Option<Cell>) {
    lastCell.Some? && lastCell.value.cellType == "code" && lastCell.value.tag.Some?
  }

  function TagOf(lastCell: Option<Cell>): Context
    requires Tagged(lastCell)
  {
    lastCell.value.tag.value
  }

  function EntryOf(name: string, v: Verdict): Entry {
    Entry(name, v.result, v.details)
  }

  /** The visualization check's entry, on the output with every SVG marker removed. */
  function VisEntry(ctx: Context, output: string, c: Collaborators): (e: Entry)
    ensures var v := c.visualizationCheck(ctx.body.Request(), JoinLines(ctx.body.Codes()),
                                          ReplaceAll(output, SVG_MARKER, ""), ctx.body.Vars(), VIS_FRAMEWORK);
      e.name == "vis" && e.result == v.result && e.details == VisLines(v.findings)
  {
    var v := c.visualizationCheck(ctx.body.Request(), JoinLines(ctx.body.Codes()),
                                  ReplaceAll(output, SVG_MARKER, ""), ctx.body.Vars(), VIS_FRAMEWORK);
    Entry("vis", v.result, VisLines(v.findings))
  }

  /**
   * The result a completed run leaves: lint, rubberduck, then the
   * visualization check if a figure was produced by code that calls
   * `plt.show()`, or else the sanity check if there is an error or output.
   */
  function ExpectedResult(ctx: Context, code: string, ev: Evidence, history: seq<string>,
                          c: Collaborators): (r: seq<Entry>)
    ensures 2 <= |r| <= 3
    ensures r[0] == EntryOf("lint", c.lint(JoinLines(history), code))
    ensures r[1] == EntryOf("rubberduck", c.staticCheck(code, ctx))
    ensures |r| == 3 <==>
      if GeneratedVis(ev) then Contains(code, Running.SHOW_CALL) else Truthy(ev.error) || Truthy(ev.output)
    ensures |r| == 3 && GeneratedVis(ev) ==> r[2] == VisEntry(ctx, ev.output.value, c)
    ensures |r| == 3 && !GeneratedVis(ev) ==>
      r[2] == EntryOf("sanity", c.outputSanityCheck(code, ctx, ev.error, ev.output))
  {
    [EntryOf("lint", c.lint(JoinLines(history), code)), EntryOf("rubberduck", c.staticCheck(code, ctx))]
    + (if GeneratedVis(ev) then
         (if Contains(code, Running.SHOW_CALL) then [VisEntry(ctx, ev.output.value, c)] else [])
       else if Truthy(ev.error) || Truthy(ev.output) then
         [EntryOf("sanity", c.outputSanityCheck(code, ctx, ev.error, ev.output))]
       else [])
  }

  /**
   * Which third check runs: the visualization check exactly when the cell
   * was run, its output holds an SVG figure and the code calls
   * `plt.show()`; the sanity check exactly when the cell was run, there is
   * no figure and there is an error or an output. Never both, and never a
   * third check for a cell that was not run.
   */
  lemma ThirdCheckSelection(ctx: Context, cell: Cell, code: string, history: seq<string>, c: Collaborators)
    ensures var ev := ReadEvidence(ctx, cell, c);
      var names := Names(ExpectedResult(ctx, code, ev, history, c));
      && ("vis" in names <==> ctx.action == Some("run") && GeneratedVis(ev) && Contains(code, Running.SHOW_CALL))
      && ("sanity" in names <==>
            ctx.action == Some("run") && !GeneratedVis(ev) && (Truthy(ev.error) || Truthy(ev.output)))
      && !("vis" in names && "sanity" in names)
      && (|names| == 3 <==> "vis" in names || "sanity" in names)
      && (|names| == 3 ==> ctx.action == Some("run"))
  {
    var ev := ReadEvidence(ctx, cell, c);
    var r := ExpectedResult(ctx, code, ev, history, c);
    var names := Names(r);
    assert names[0] == "lint" && names[1] == "rubberduck";
    assert forall k :: 0 <= k < |names| ==> names[k] == r[k].name;
    if |r| == 3 {
      assert names[2] == r[2].name;
    }
  }

  /**
   * After the last step, every announced check shows its result except the
   * visualization check when the code has no `plt.show()`: it was announced
   * but never runs, so it is left loading.
   */
  lemma FinalRender(ctx: Context, cell: Cell, code: string, history: seq<string>, c: Collaborators)
    ensures var ev := ReadEvidence(ctx, cell, c);
      var names := DisplayNames(GeneratedVis(ev), ev);
      var rows := Render(names, ExpectedResult(ctx, code, ev, history, c));
      forall i :: 0 <= i < |rows| ==>
        (rows[i].progress.Loading? <==> names[i] == "vis" && !Contains(code, Running.SHOW_CALL))
  {
    var ev := ReadEvidence(ctx, cell, c);
    var r := ExpectedResult(ctx, code, ev, history, c);
    var names := DisplayNames(GeneratedVis(ev), ev);
    assert Names(r)[0] == "lint" && Names(r)[1] == "rubberduck";
    if |r| == 3 {
      assert Names(r)[2] == r[2].name;
    }
    forall i | 0 <= i < |names|
      ensures names[i] in Names(r) <==> !(names[i] == "vis" && !Contains(code, Running.SHOW_CALL))
    {
      assert forall k :: 0 <= k < |r| ==> Names(r)[k] == r[k].name;
    }
  }

  /**
   * `%comlverify`: returns the announced checks and the snapshots of the
   * result that were rendered, one before any check and one after each.
   */
  method Verify(lastCell: Option<Cell>, history: seq<string>, c: Collaborators)
    returns (outcome: Result<seq<string>, VerifyError>, trace: seq<seq<Entry>>)
    ensures lastCell.None? ==> outcome == Failure(NoCell)
    ensures lastCell.Some? && lastCell.value.cellType != "code" ==> outcome == Failure(NotCodeCell)
    ensures lastCell.Some? && lastCell.value.cellType == "code" && lastCell.value.tag.None? ==>
      outcome == Failure(NotCreatedByComl)
    ensures Tagged(lastCell) && CheckedCode(TagOf(lastCell)).Failure? ==>
      outcome == Failure(Crashed(CheckedCode(TagOf(lastCell)).error))
    ensures outcome.Failure? ==> trace == []
    ensures outcome.Success? <==> Tagged(lastCell) && CheckedCode(TagOf(lastCell)).Success?
    ensures outcome.Success? ==>
      var ctx := TagOf(lastCell);
      var ev := ReadEvidence(ctx, lastCell.value, c);
      outcome.value == DisplayNames(GeneratedVis(ev), ev)
    ensures outcome.Success? ==>
      var ctx := TagOf(lastCell);
      var ev := ReadEvidence(ctx, lastCell.value, c);
      && Grows(trace)
      && trace[|trace| - 1] == ExpectedResult(ctx, CheckedCode(ctx).value, ev, history, c)
  {
    trace := [];
    if lastCell.None? {
      return Failure(NoCell), [];
    }
    var cell := lastCell.value;
    if cell.cellType != "code" {
      return Failure(NotCodeCell), [];
    }
    if cell.tag.None? {
      return Failure(NotCreatedByComl), [];
    }
    var context := cell.tag.value;
    var resolved := CheckedCode(context);
    if resolved.Failure? {
      return Failure(Crashed(resolved.error)), [];
    }
    var code := resolved.value;

    var error: Option<string> := None;
    var output: Option<string> := None;
    var generatedVis := false;
    if context.action == Some("run") {
      var ev := c.parseOutputs(cell.outputs);
      error, output := ev.error, ev.output;
      generatedVis := Truthy(output) && Contains(output.value, SVG_MARKER);
    }
    var announced := DisplayNames(generatedVis, Evidence(error, output));

    ghost var ev := Evidence(error, output);
    assert ev == ReadEvidence(context, cell, c);
    ghost var expected := ExpectedResult(context, code, ev, history, c);

    var result: seq<Entry> := [];
    trace := [result];

    var lint := c.lint(JoinLines(history), code);
    GrowsStep(trace, Entry("lint", lint.result, lint.details));
    result := result + [Entry("lint", lint.result, lint.details)];
    trace := trace + [result];

    var duck := c.staticCheck(code, context);
    GrowsStep(trace, Entry("rubberduck", duck.result, duck.details));
    result := result + [Entry("rubberduck", duck.result, duck.details)];
    trace := trace + [result];
    assert result == expected[..2];

    if generatedVis {
      if Contains(code, Running.SHOW_CALL) {
        var vis := c.visualizationCheck(context.body.Request(), JoinLines(context.body.Codes()),
                                        ReplaceAll(output.value, SVG_MARKER, ""), context.body.Vars(),
                                        VIS_FRAMEWORK);
        var details := RenderVisDetails(vis.findings);
        GrowsStep(trace, Entry("vis", vis.result, details));
        result := result + [Entry("vis", vis.result, details)];
        trace := trace + [result];
        assert result == expected;
      } else {
        assert result == expected;
      }
    } else if Truthy(error) || Truthy(output) {
      var sanity := c.outputSanityCheck(code, context, error, output);
      GrowsStep(trace, Entry("sanity", sanity.result, sanity.details));
      result := result + [Entry("sanity", sanity.result, sanity.details)];
      trace := trace + [result];
      assert result == expected;
    } else {
      assert result == expected;
    }
    outcome := Success(announced);
  }
}
