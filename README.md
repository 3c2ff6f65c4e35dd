# CoML notebook magics, modelled in Dafny

This project models the IPython magics of CoML (`coml/magics.py`). The magics let a
notebook user:

- ask a language-model agent for code (`%coml`);
- repair the last cell (`%comlfix`);
- check the last cell (`%comlverify`);
- switch the debug mode (`%comlset`);
- run generated code so that matplotlib figures come out as SVG (`%%comlrun`).

The model covers what these commands decide:

- which cell they act on, and when they stop with a warning or an error;
- which code is checked or repaired;
- in what order the checks run, and which of them are shown;
- what context gets written into a cell's `coml` metadata, and how its `action` key is
  merged in;
- how the setting line is parsed;
- how `plt.show()` is rewritten before a run.

The agent, the linter, `parse_cell_outputs` and the notebook host are collaborators whose
code is not part of this model. They are total functions in `Agent.Collaborators`, so every
property here holds whatever they answer within their modelled types. In particular, every
status they report is one of the keys of the status-icon table. The variable descriptions and the code history
come in as a `Session`, and the last cell comes in as an `Option<Cell>`.

Modules:

- `Wrappers`: `Option` and `Result`.
- `Text`: Python's `strip`, `split`, `lower`, `in`, `replace` and `"\n".join` on strings.
- `Records`: the generation and fix contexts, the `{"action": a, **context}` tag, and what
  `_post_generation` leaves behind.
- `Agent`: status icons, cells and collaborators.
- `Generation` (`%coml`), `Fixing` (`%comlfix`), `Verification` (`%comlverify`),
  `Settings` (`%comlset`) and `Running` (`%%comlrun`).

Contexts are Python dictionaries in the source. Here `Records.Context` pairs an optional
`action` with a `Body` that is either a generation context or a fix context.

Some Python exceptions are modelled as `Records.Fault` values:

- a missing `answer` or `code` key (`KeyError`);
- indexing an empty `interactions` list (`IndexError`);
- the `assert "code" in ...` in `comlfix` (`AssertionError`).

`%comlverify` re-renders the result after each check. It is modelled as a method that
returns:

- the list of announced checks;
- the trace of result snapshots it renders: one before any check, then one after each
  check.

## Model

| member | source | states |
|---|---|---|
| Verification.Verify | coml/magics.py:254-356 | Fails fast, with an empty trace, for no cell ("No cell to verify!"), a non-code cell, an untagged cell, or a context whose code cannot be read. It succeeds exactly when none of these applies. It then announces `DisplayNames` of the evidence, which is read only for a cell tagged `run`. Each rendered snapshot extends the previous one by exactly one entry, starting from `{}`, and the last one is `ExpectedResult`. |
| Verification.ExpectedResult | coml/magics.py:307-356 | The final result has two or three entries. The first two are lint, on the joined history, and rubberduck, each with the collaborator's verdict. A third entry exists iff there is a figure and the code calls `plt.show()`, or there is no figure and the error or the output is truthy. With a figure it is the visualization check on the output with the SVG marker removed, and otherwise the sanity check. |
| Verification.ThirdCheckSelection | coml/magics.py:269-273 | A vis entry exists iff the cell was run, its output is truthy and holds `<image/svg+xml>`, and the code contains `plt.show()`. A sanity entry exists iff the cell was run, there is no figure, and the error or the output is truthy. Never both. A third entry exists iff one of them does, so otherwise there are exactly two entries, and a third entry only for action `run`. |
| Verification.FinalRender | coml/magics.py:275-305 | After the last check, the only row left loading is the visualization row of code without `plt.show()`: it is announced but never filled. Every other row is finished and, by `Render`, shows its entry's icon and details. |
| Verification.DisplayNames | coml/magics.py:278-285 | The announced checks are `lint` then `rubberduck`. A third check is announced iff a figure was generated or the error or the output is truthy, and it is `vis` iff a figure was generated, otherwise `sanity`. |
| Verification.Title | coml/magics.py:278-285 | The four checks are headed PyLint, Rubberduck, Visualization check and Output sanity check. |
| Verification.Render | coml/magics.py:287-303 | One row per announced check, in order, with its title. A row is loading iff no entry has that name yet. Otherwise it shows the icon of that entry's status and the entry's details. |
| Verification.Find | coml/magics.py:291-300 | A lookup by name succeeds iff the name is among the keys, and it returns an entry with that name. |
| Verification.CheckedCode | coml/magics.py:263-267 | The checked code is the code of the last interaction when `interactions` is non-empty, and the `answer` otherwise. A fix context without interactions raises `KeyError("answer")`, and a last interaction without code raises `KeyError("code")`. |
| Verification.ReadEvidence | coml/magics.py:269-272 | Error and output stay `None` unless the context's action is `run`. For a run cell they are what `parse_cell_outputs` reads from the cell's outputs. |
| Verification.GeneratedVis | coml/magics.py:273 | A missing or empty output never counts as a figure, and a figure's output is at least as long as `<image/svg+xml>`. |
| Verification.RenderVisDetails | coml/magics.py:339-341 | The details loop produces exactly `VisLines(findings)`, the in-order concatenation of `icon + " " + message + "\n"`. |
| Verification.VisEntry | coml/magics.py:329-345 | The visualization entry is named `vis`, carries the check's result, and has as details the lines of its findings. The check is asked with the request, the joined codes, the output with every SVG marker removed, the variables and `matplotlib`. |
| Verification.MarkerRemovedAtFirst | coml/magics.py:335 | Read at its first SVG marker, the image payload keeps the text before the marker, drops the marker, and is cleaned the same way after it. |
| Verification.VisLinesAppend | coml/magics.py:339-341 | The details of consecutive findings are the concatenation of their details. |
| Verification.OneLinePerFinding | coml/magics.py:339-341 | When no message contains a newline, the details contain exactly one newline per finding. |
| Verification.GrowsPrefix | coml/magics.py:307-356 | In a growing trace, snapshot `j` has `j` entries, and every earlier snapshot is a prefix of it: no check's entry is lost or reordered. |
| Verification.GrowsStep | coml/magics.py:311-355 | Adding one entry to the latest snapshot keeps the trace growing. |
| Records.Tag | coml/magics.py:115 | `{"action": a, **context}` keeps the body. The result's action is `a` iff the context had no action or already had `a`. An existing action is kept. |
| Records.Truthy | coml/magics.py:273 | An optional text is truthy iff it is present and non-empty, as Python treats `None` and `""`. |
| Records.FreshFixContext | coml/magics.py:226-234 | A fix context for an untagged cell has no request, has the cell's source as its first attempt, has the session's variables and history, and holds one interaction carrying the evidence and the hint, with no code. |
| Records.PostGeneration | coml/magics.py:111-149 | Posting shows `code`. It tags the running cell with action `generate` and the "Run it!" cell with action `run` through `Tag`, so an action already present is kept. The run cell's source is `%%comlrun\n` followed by the code, and the edit cell is the plain code with the context unchanged. |
| Generation.AssembleRequest | coml/magics.py:163-167 | The request is the strip of the line, followed by a newline and the cell when there is one. It has no margins, for a line magic it is the stripped line, and it is empty iff the line and the cell (if any) are all whitespace. |
| Generation.BlankLineAsksForCell | coml/magics.py:163-167 | A cell magic with a blank line requests exactly the stripped cell. |
| Generation.BlankCellAsksForLine | coml/magics.py:163-167 | A cell magic with a blank cell requests exactly the stripped line. |
| Generation.Coml | coml/magics.py:160-169 | The agent's answer for the assembled request is posted. The metadata is the generation context tagged `generate`, the run cell's is tagged `run`, and the edit cell keeps the untagged context. |
| Generation.GeneratedCodeIsVerified | coml/magics.py:143 | `%comlverify` on the generated cell, or on its run cell, checks exactly the code that was shown. Only the run cell is tagged `run`. |
| Fixing.NormaliseHint | coml/magics.py:208-210 | The hint is `None` iff the line is all whitespace. Otherwise it is the line's strip, which is non-empty and equals the line itself when that has no margins. |
| Fixing.FixInput | coml/magics.py:220-234 | A tagged cell is fixed with its own tag. An untagged one gets a fresh, untagged fix context built from the cell's source, the session, the parsed outputs and the hint. |
| Fixing.Deliver | coml/magics.py:236-242 | A repaired context is posted iff it is a fix context whose last interaction has code. The post is `PostGeneration` of that code with the context. A generation context raises `KeyError`, an empty `interactions` list raises `IndexError`, and any other unposted result is the `AssertionError` of a code-less last interaction. |
| Fixing.Fix | coml/magics.py:207-242 | Warns "No cell to fix!" or "Only code cells can be fixed." exactly when there is no code cell. Gives the untagged-cell notice exactly for an untagged code cell. Does nothing exactly when the agent returns `None`, and otherwise ends as `Deliver` of the agent's answer. |
| Fixing.FixedCodeIsVerified | coml/magics.py:239-242 | A posted fix, and its run cell, are checked by `%comlverify` on exactly the repaired code. |
| Agent.Icon | coml/magics.py:69-77 | Every status has a non-empty icon. The check mark is shown exactly for `ok` and `True`, and the cross exactly for `error` and `False`. `warning`, `info` and `None` get their warning, information and question-mark glyphs. |
| Settings.Decide | coml/magics.py:174-185 | Each outcome holds iff its condition does: debug on iff the words are `debug on`, off iff `debug off`, and the unpacking error iff there are not exactly two words. "Unknown setting." iff the first word is not `debug`. "Debug mode must be either on or off." iff it is `debug` with another value. |
| Settings.ParseSetting | coml/magics.py:174-185 | For the words of the lowered, stripped line: debug on iff they are `debug on`, off iff `debug off`, the unpacking error iff there are not exactly two words, "Unknown setting." iff the first is not `debug`, and the bad-value error iff it is `debug` with another value. |
| Settings.DebugSwitch.Set | coml/magics.py:173-185 | The switch takes the parsed value of the lowered, stripped, split line. A rejected line leaves it unchanged and reports the error. |
| Running.PlanRun | coml/magics.py:367-376 | The helper is loaded iff the cell contains `plt.show()`. Without it the cell runs unchanged. With it the code is the cell with every `plt.show()` replaced, and no `plt.show()` is left. |
| Running.NoShowCallLeft | coml/magics.py:368-371 | Replacing every `plt.show()` with `show_svg(plt)` leaves no `plt.show()`, including none formed across a replacement's border. |
| Running.RewriteAtFirstCall | coml/magics.py:367-371 | Read at its first `plt.show()`, a cell's plan loads the helper, keeps the text before the call, turns the call into `show_svg(plt)`, and plans the rest of the cell the same way. |
| Running.PlanRunAtFirstCall | coml/magics.py:367-371 | Every cell that loads the helper is its text without a call, the first `plt.show()`, and the rest. The code run keeps the text before the call, puts `show_svg(plt)` in its place, and plans the rest the same way. |
| Text.Strip | coml/magics.py:174 | `strip()` leaves no whitespace at either end. The result is empty iff the text is all whitespace, and a text without margins is unchanged. |
| Text.StripAfterSpace | coml/magics.py:165-167 | Whitespace placed in front of a text does not change its strip. |
| Text.StripBeforeSpace | coml/magics.py:165-167 | Whitespace placed after a text does not change its strip. |
| Text.Words | coml/magics.py:174 | `split()` yields non-empty, whitespace-free words, and none iff the text is all whitespace. |
| Text.WordAt | coml/magics.py:174 | A run of non-whitespace set off by whitespace, or by the end of the text, is the next word, and splitting continues after it. |
| Text.ReplaceAll | coml/magics.py:335 | Replacing a pattern that does not occur changes nothing. Removing an occurring pattern shortens the text by at least its length. |
| Text.ReplaceAtFirst | coml/magics.py:368-371 | For a pattern that cannot overlap itself, `replace` keeps the text before the first occurrence, puts the replacement in its place, and goes on with the rest. With the no-occurrence case, this fixes the result of `replace`. |
| Text.Contains | coml/magics.py:273 | A text that begins with the pattern contains it, and a text that contains a pattern is at least as long as it. |
| Text.ContainsOccurs | coml/magics.py:273 | A text that contains a pattern is some text, then the pattern, then the rest; for a non-empty pattern, the text before it does not contain the pattern. |
| Text.ContainsInside | coml/magics.py:273 | Every text of the form `x + p + y` contains `p`, so with `ContainsOccurs`, `in` holds exactly when the pattern occurs. |
| Text.Lower | coml/magics.py:174 | Lowercasing keeps the length, leaves no ASCII capital, maps each capital to its small letter, and keeps every other character. |
| Text.JoinLines | coml/magics.py:310 | Joining no lines gives the empty text, and one line gives that line. More lines begin with the first line followed by a newline. |
| Text.JoinLinesAppend | coml/magics.py:310 | Joining two non-empty runs of lines gives their joins with one newline between, so every line is kept, in order. |

## Left out

- Widgets, HTML, markdown rendering, `display` and `clear_output` are not modelled. `%comlverify`'s renders are modelled as the snapshots they show, through `Render`.
- The message `comlfix` prints for an untagged cell ("This cell is not created by coml. Still trying to fix it though.") is modelled as the `notice` flag.
- `comlinspire`, `comlexplain`, and the explain and verify buttons are not part of this model. Nor are the buttons inside `comlrun`'s feedback widgets.
- `__init__` is not part of this model.
- `_get_variable_context` and `_get_code_context` are not part of this model; their results come in as the `Session`.
- IPython cell execution in `comlrun` is not part of this model: `PlanRun` says what would be run.
- The internals of the agent, the linter and `parse_cell_outputs` are not modelled; they are opaque collaborators.
- `Text.Lower` folds only the ASCII letters; Python's `str.lower` also folds other Unicode letters.
- `Text.IsSpace` uses Python's whitespace characters. Unicode whitespace categories outside that list are not considered.
- `Text.ReplaceAll` requires a non-empty pattern. Python's rule for an empty pattern is not modelled, and both patterns used here are non-empty.
- `Settings.Message`: the text for `WrongArity` is not Python's unpacking `ValueError` message.
- `Verification.Verify`: an exception raised by a collaborator is not modelled. Nor are malformed metadata beyond the modelled `Fault`s: a missing `request`, `codes` or `variables` key, or a missing cell, and an `action` that is not a string.
- `Verification.Verify`: `RuntimeError` is modelled as a `Failure` value rather than an exception.
- `Records.Context` holds only the `action` key and the context's own keys; other metadata keys are not modelled.
- `_fix_context_from_cell` (lines 151-158) is never called in `coml/magics.py`. `comlfix` builds its fresh context inline (lines 226-234), which `Records.FreshFixContext` models.
- `Agent.Status`: a collaborator can only report one of the keys of the status-icon table. The source raises `KeyError` at lines 300 and 341 for any other status, after some partial renders, and the model cannot express that failure.
