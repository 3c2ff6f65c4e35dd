/**
 * `%coml` / `%%coml`: turns the magic's line, and the cell below it when
 * there is one, into a request, lets the agent write the code, and posts it.
 */
module Generation {
  import opened Wrappers
  import opened Text
  import opened Records
  import opened Agent
  import Verification

  /**
   * The request: the line, then a newline and the cell when the magic is
   * used as a cell magic, with the whitespace margins stripped.
   */
  function AssembleRequest(line: string, cell: Option<string>): (r: string)
    ensures Trimmed(r)
    ensures r == Strip(if cell.Some? then line + "\n" + cell.value else line)
    ensures cell.None? ==> r == Strip(line)
    ensures r == [] <==> AllSpace(line) && (cell.None? || AllSpace(cell.value))
  {
    var request := if cell.Some? then line + "\n" + cell.value else line;
    assert cell.Some? ==> (AllSpace(request) <==> AllSpace(line) && AllSpace(cell.value)) by {
      if cell.Some? {
        assert forall i :: 0 <= i < |line| ==> request[i] == line[i];
        assert request[|line|] == '\n';
        assert forall i :: 0 <= i < |cell.value| ==> request[|line| + 1 + i] == cell.value[i];
      }
    }
    Strip(request)
  }

  /** A cell magic with a blank line asks exactly for the cell's text, stripped. */
  lemma BlankLineAsksForCell(line: string, cell: string)
    requires AllSpace(line)
    ensures AssembleRequest(line, Some(cell)) == Strip(cell)
  {
    AllSpaceConcat(line, "\n");
    StripAfterSpace(line + "\n", cell);
  }

  /** A cell magic with a blank cell asks exactly for the line, stripped. */
  lemma BlankCellAsksForLine(line: string, cell: string)
    requires AllSpace(cell)
    ensures AssembleRequest(line, Some(cell)) == Strip(line)
  {
    AllSpaceConcat("\n", cell);
    assert line + "\n" + cell == line + ("\n" + cell);
    StripBeforeSpace(line, "\n" + cell);
  }

  /**
   * `%coml`: the agent generates code for the assembled request, the
   * session's variables and its history, and the answer is posted with the
   * generation context.
   */
  function Coml(line: string, cell: Option<string>, session: Session, c: Collaborators): (p: Post)
    ensures var g := c.generateCode(AssembleRequest(line, cell), session.variables, session.history);
      && p.code == g.answer
      && p.metadata == Context(Some("generate"), Generated(g))
      && p.runMetadata == Context(Some("run"), Generated(g))
      && p.runSource == RUN_MAGIC + g.answer
      && p.editSource == g.answer && p.editMetadata == Context(None, Generated(g))
  {
    var g := c.generateCode(AssembleRequest(line, cell), session.variables, session.history);
    PostGeneration(g.answer, Context(None, Generated(g)))
  }

  /**
   * Verifying the cell `%coml` tagged, or the cell its "Run it!" button
   * inserts, checks exactly the code that was shown; only the latter is
   * checked against its outputs.
   */
  lemma GeneratedCodeIsVerified(line: string, cell: Option<string>, session: Session, c: Collaborators)
    ensures var p := Coml(line, cell, session, c);
      && Verification.CheckedCode(p.metadata) == Success(p.code)
      && Verification.CheckedCode(p.runMetadata) == Success(p.code)
      && p.metadata.action != Some("run") && p.runMetadata.action == Some("run")
  {
  }
}
