/**
 * `%comlfix`: asks the agent to repair the code of the last cell, using the
 * cell's error and output and an optional hint, and posts the repaired code.
 */
module Fixing {
  import opened Wrappers
  import opened Text
  import opened Records
  import opened Agent
  import Verification

  /** The hint is the stripped line, or `None` when nothing but whitespace is left. */
  function NormaliseHint(line: string): (h: Option<string>)
    ensures h.None? <==> AllSpace(line)
    ensures h.Some? ==> h.value != "" && Trimmed(h.value)
    ensures h.Some? ==> h.value == Strip(line)
    ensures h.Some? && Trimmed(line) ==> h.value == line
  {
    var hint := Strip(line);
    if hint == "" then None else Some(hint)
  }

  /** What a `%comlfix` command ends in. */
  datatype FixOutcome =
    | Warned(message: string)
    | Declined
    | Crashed(fault: Fault)
    | Posted(post: Post)

  /**
   * The context the agent is asked to fix: the cell's own tag, or, for a
   * cell the assistant did not write, a fresh fix context whose only
   * interaction holds the cell's evidence and the hint.
   */
  function FixInput(line: string, cell: Cell, session: Session, c: Collaborators): (ctx: Context)
    ensures cell.tag.Some? ==> ctx == cell.tag.value
    ensures cell.tag.None? ==> ctx.action.None? && ctx.body.Fixing?
    ensures cell.tag.None? ==>
      var f := ctx.body.fix;
      var ev := c.parseOutputs(cell.outputs);
      && f.firstAttempt == cell.source && f.request.None?
      && f.variables == session.variables && f.codes == session.history
      && f.interactions == [Interaction(ev.error, ev.output, NormaliseHint(line), None)]
  {
    if cell.tag.Some? then cell.tag.value
    else
      Context(None, Fixing(FreshFixContext(session.variables, session.history, cell.source,
                                           c.parseOutputs(cell.outputs), NormaliseHint(line))))
  }

  /**
   * What becomes of the agent's repaired context: the code of its last
   * interaction is posted with it, and a context without interactions, with
   * an empty list or whose last interaction has no code raises.
   */
  function Deliver(fixed: Context): (o: FixOutcome)
    ensures fixed.body.Generated? ==> o == Crashed(KeyError("interactions"))
    ensures fixed.body.Fixing? && fixed.body.fix.interactions == [] ==> o == Crashed(IndexError)
    ensures o.Posted? <==> Verification.CheckedCode(fixed).Success? && fixed.body.Fixing?
    ensures o.Posted? ==>
      && o.post.code == Verification.CheckedCode(fixed).value
      && o.post.metadata == Tag("generate", fixed)
      && o.post.runMetadata == Tag("run", fixed)
      && o.post.editMetadata == fixed
    ensures fixed.body.Fixing? && fixed.body.fix.interactions != [] && !o.Posted? ==> o == Crashed(AssertionError)
    ensures o.Posted? ==> o.post == PostGeneration(o.post.code, fixed)
  {
    match fixed.body
    case Generated(_) => Crashed(KeyError("interactions"))
    case Fixing(f) =>
      if f.interactions == [] then Crashed(IndexError)
      else
        var last := f.interactions[|f.interactions| - 1];
        if last.code.None? then Crashed(AssertionError)
        else Posted(PostGeneration(last.code.value, fixed))
  }

  /**
   * `%comlfix [hint]`: warns when there is no code cell to fix; otherwise
   * asks the agent to fix the cell's context (a fresh one for a cell the
   * assistant did not write, announced by `notice`), does nothing when the
   * agent declines, and posts the repaired code.
   */
  method Fix(line: string, lastCell: Option<Cell>, session: Session, c: Collaborators)
    returns (outcome: FixOutcome, notice: bool)
    ensures lastCell.None? ==> outcome == Warned("No cell to fix!") && !notice
    ensures lastCell.Some? && lastCell.value.cellType != "code" ==>
      outcome == Warned("Only code cells can be fixed.") && !notice
    ensures outcome.Warned? <==> lastCell.None? || lastCell.value.cellType != "code"
    ensures notice <==> lastCell.Some? && lastCell.value.cellType == "code" && lastCell.value.tag.None?
    ensures !outcome.Warned? ==>
      var cell := lastCell.value;
      var ev := c.parseOutputs(cell.outputs);
      var fixed := c.fixCode(ev.error, ev.output, NormaliseHint(line), FixInput(line, cell, session, c));
      && (outcome == Declined <==> fixed.None?)
      && (fixed.Some? ==> outcome == Deliver(fixed.value))
  {
    var hint := NormaliseHint(line);
    notice := false;

    if lastCell.None? {
      return Warned("No cell to fix!"), false;
    }
    var cell := lastCell.value;
    if cell.cellType != "code" {
      return Warned("Only code cells can be fixed."), false;
    }

    var ev := c.parseOutputs(cell.outputs);
    var context: Context;
    if cell.tag.Some? {
      context := cell.tag.value;
    } else {
      notice := true;
      context := Context(None, Fixing(FreshFixContext(session.variables, session.history, cell.source, ev, hint)));
    }

    var fixed := c.fixCode(ev.error, ev.output, hint, context);
    if fixed.None? {
      return Declined, notice;
    }
    var fc := fixed.value;
    if fc.body.Generated? {
      return Crashed(KeyError("interactions")), notice;
    }
    var interactions := fc.body.fix.interactions;
    if interactions == [] {
      return Crashed(IndexError), notice;
    }
    var last := interactions[|interactions| - 1];
    if last.code.None? {
      return Crashed(AssertionError), notice;
    }
    outcome := Posted(PostGeneration(last.code.value, fc));
  }

  /**
   * Fixing and then verifying agree on the code: the cell a fix posts, and
   * the cell its "Run it!" button inserts, are checked on exactly the
   * repaired code that was shown.
   */
  lemma FixedCodeIsVerified(fixed: Context)
    requires Deliver(fixed).Posted?
    ensures var p := Deliver(fixed).post;
      && Verification.CheckedCode(p.metadata) == Success(p.code)
      && Verification.CheckedCode(p.runMetadata) == Success(p.code)
  {
  }
}
