/**
 * The collaborators the magics call but that are not part of this model:
 * the language-model agent, the linter and the notebook host. Each is a
 * total function the caller supplies, so every property proved here holds
 * whatever they answer.
 */
module Agent {
  import opened Wrappers
  import opened Records

  /**
   * The keys of the status-icon table: "error", "warning", "info", "ok",
   * `None`, `True` and `False`.
   */
  datatype Status = Error | Warning | Info | Ok | Unknown | Passed | Failed

  /** The icon the status table gives each status. */
  function Icon(s: Status): (r: string)
    ensures r != []
    ensures r == "\U{2705}" <==> s == Ok || s == Passed
    ensures r == "\U{274C}" <==> s == Error || s == Failed
    ensures s == Warning ==> r == "\U{26A0}\U{FE0F}"
    ensures s == Info ==> r == "\U{2139}\U{FE0F}"
    ensures s == Unknown ==> r == "\U{2754}"
  {
    match s
    case Error => "\U{274C}"
    case Warning => "\U{26A0}\U{FE0F}"
    case Info => "\U{2139}\U{FE0F}"
    case Ok => "\U{2705}"
    case Unknown => "\U{2754}"
    case Passed => "\U{2705}"
    case Failed => "\U{274C}"
  }

  /** A check's `(result, details)` pair. */
  datatype Verdict = Verdict(result: Status, details: string)

  /** The visualization check's result and its `(status, message)` findings. */
  datatype VisVerdict = VisVerdict(result: Status, findings: seq<(Status, string)>)

  /** One entry of a cell's `outputs` list, left uninterpreted. */
  datatype CellOutput = CellOutput(outputType: string, data: map<string, string>)

  /**
   * A notebook cell as `get_last_cell` returns it; `tag` is its
   * `metadata["coml"]` entry, if it has one.
   */
  datatype Cell = Cell(cellType: string, source: string, outputs: seq<CellOutput>, tag: Option<Context>)

  /** What the host knows at the time of a command: the variable descriptions and the history. */
  datatype Session = Session(variables: Variables, history: seq<string>)

  datatype Collaborators = Collaborators(
    /** `lint(codes, code)` */
    lint: (string, string) -> Verdict,
    /** `agent.static_check(code, context)` */
    staticCheck: (string, Context) -> Verdict,
    /** `agent.visualization_check(request, codes, svg, variables, framework)` */
    visualizationCheck: (Option<string>, string, string, Variables, string) -> VisVerdict,
    /** `agent.output_sanity_check(code, context, error, output)` */
    outputSanityCheck: (string, Context, Option<string>, Option<string>) -> Verdict,
    /** `agent.generate_code(request, variables, codes)` */
    generateCode: (string, Variables, seq<string>) -> GenerateContext,
    /** `agent.fix_code(error, output, hint, context)`; `None` when it declines */
    fixCode: (Option<string>, Option<string>, Option<string>, Context) -> Option<Context>,
    /** `parse_cell_outputs(outputs)` */
    parseOutputs: seq<CellOutput> -> Evidence)
}
