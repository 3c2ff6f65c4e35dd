/**
 * The interaction records the magics pass around, and the tag a cell
 * carries once the assistant has produced or fixed its code.
 *
 * In the Python source these are plain dictionaries. Here a context is
 * either a GenerateContext or a FixContext (`Body`), and `Context` adds the
 * `action` key that appears once the context has been written into a cell's
 * metadata as `{"action": ..., **context}`.
 */
module Records {
  import opened Wrappers

  /** Variable name to its description, as handed to the language model. */
  type Variables = map<string, string>

  /** One repair round: the evidence it started from and, once fixed, its code. */
  datatype Interaction = Interaction(
    error: Option<string>,
    output: Option<string>,
    hint: Option<string>,
    code: Option<string>)

  datatype GenerateContext = GenerateContext(
    request: string,
    variables: Variables,
    codes: seq<string>,
    answer: string)

  datatype FixContext = FixContext(
    variables: Variables,
    codes: seq<string>,
    request: Option<string>,
    firstAttempt: string,
    interactions: seq<Interaction>)

  datatype Body = Generated(gen: GenerateContext) | Fixing(fix: FixContext)
  {
    /** `context["request"]`: always set for a generation, optional for a fix. */
    function Request(): Option<string> {
      match this
      case Generated(g) => Some(g.request)
      case Fixing(f) => f.request
    }

    /** `context["codes"]`. */
    function Codes(): seq<string> {
      match this
      case Generated(g) => g.codes
      case Fixing(f) => f.codes
    }

    /** `context["variables"]`. */
    function Vars(): Variables {
      match this
      case Generated(g) => g.variables
      case Fixing(f) => f.variables
    }
  }

  /** A context as stored in or read from a cell; `action` is its `"action"` key, if any. */
  datatype Context = Context(action: Option<string>, body: Body)

  /** What the captured outputs of a cell say: its error text and its output text. */
  datatype Evidence = Evidence(error: Option<string>, output: Option<string>)

  /** Python truthiness of an optional string: `None` and `""` are both false. */
  predicate Truthy(s: Option<string>)
    ensures Truthy(s) <==> s.Some? && |s.value| > 0
  {
    s.Some? && s.value != ""
  }

  /** An exception the Python code would raise while reading a malformed context. */
  datatype Fault = KeyError(key: string) | IndexError | AssertionError

  /** `str(e)` of the exception: the quoted key, the list message, or empty for a bare `assert`. */
  function FaultText(f: Fault): string {
    match f
    case KeyError(key) => "'" + key + "'"
    case IndexError => "list index out of range"
    case AssertionError => ""
  }

  /**
   * `{"action": action, **ctx}`: the context with an `action` key, where an
   * `action` key the context already has wins over the new one.
   */
  function Tag(action: string, ctx: Context): (r: Context)
    ensures r.body == ctx.body && r.action.Some?
    ensures r.action == Some(action) <==> ctx.action.None? || ctx.action == Some(action)
    ensures ctx.action.Some? ==> r == ctx
  {
    Context(if ctx.action.Some? then ctx.action else Some(action), ctx.body)
  }

  /**
   * The context built for a cell the assistant did not write: no request,
   * the cell's source as the first attempt, and one interaction carrying the
   * cell's evidence and the hint, with no code yet.
   */
  function FreshFixContext(variables: Variables, codes: seq<string>, source: string,
                           evidence: Evidence, hint: Option<string>): (f: FixContext)
    ensures f.request.None? && f.firstAttempt == source
    ensures f.variables == variables && f.codes == codes
    ensures |f.interactions| == 1
    ensures f.interactions[0] == Interaction(evidence.error, evidence.output, hint, None)
  {
    FixContext(variables, codes, None, source,
               [Interaction(evidence.error, evidence.output, hint, None)])
  }

  /**
   * What `_post_generation` leaves behind: the code shown, the tag written
   * to the running cell, and what its "Run it!" and "Let me edit." buttons
   * would insert (a `%%comlrun` cell tagged for running, and a plain copy of
   * the code tagged with the context as it is).
   */
  datatype Post = Post(
    code: string,
    metadata: Context,
    runSource: string,
    runMetadata: Context,
    editSource: string,
    editMetadata: Context)

  const RUN_MAGIC := "%%comlrun\n"

  function PostGeneration(code: string, ctx: Context): (p: Post)
    ensures p.code == code && p.editSource == code
    ensures p.metadata == Tag("generate", ctx) && p.runMetadata == Tag("run", ctx)
    ensures p.runSource == RUN_MAGIC + code
    ensures p.metadata.body == ctx.body && p.runMetadata.body == ctx.body && p.editMetadata == ctx
    ensures p.metadata.action == Some("generate") <==> ctx.action.None? || ctx.action == Some("generate")
    ensures p.runMetadata.action == Some("run") <==> ctx.action.None? || ctx.action == Some("run")
    ensures |p.runSource| == |RUN_MAGIC| + |code| && p.runSource[|RUN_MAGIC|..] == code
  {
    Post(code, Tag("generate", ctx), RUN_MAGIC + code, Tag("run", ctx), code, ctx)
  }
}
