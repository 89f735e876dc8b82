# Sokoban to SMV, modelled in Dafny

`v_sokoban.py` solves a Sokoban level in three steps:

1. It turns the level, written in the XSB format (`@` keeper, `+` keeper on a
   goal, `$` box, `*` box on a goal, `#` wall, `.` goal, `-` floor), into an SMV
   model for the nuXmv model checker. The model's `CTLSPEC AG!(...)` claims that
   the level can never be won.
2. It runs nuXmv on the model.
3. It reads the counterexample trace back as a string of moves: `l u r d` walk,
   `L U R D` push.

This project models the two steps that are plain computation: the encoder
`convert_xsb_to_smv`, and the decoder `extract_solution` together with the
success test of `validate_nuxmv_execution`. It then proves what the emitted model
and the recovered plan look like.

The project has these files:

- `common.dfy`: `Option` and `Result`.
- `strings.dfy`: the Python string operations the code uses. These are
  `str.split` on one character, `in` on strings, `strip`, the ASCII part of
  `lower`, `"".join`, and the decimal printing of integers.
- `board.dfy`: the glyph table, cell positions, directions and neighbours, and
  the row-major order of the cells.
- `smv.dfy`: the emitted model as a list of statements (`Smv.Stmt`). `Smv.Encode`
  is the reference definition of what the encoder emits: the preamble, the `init`
  lines, the `DEFINE` predicates, the `next(shift_push)` table, one
  `next(board[i][j])` case per cell and the `CTLSPEC` line. Each part follows
  the branches of the source.
- `smv_encoder.dfy`: the encoder as the source writes it. It is a set of nested
  loops over rows and columns that append to the output, and is proved equal to
  `Smv.Encode`.
- `smv_properties.dfy`: what the emitted model contains, stated over
  `Smv.Encode`.
- `smv_render.dfy`: the exact text of every statement, including the source's
  irregular spacing, and properties of the printed text.
- `trace.dfy`: the line scan of `extract_solution` as a loop with the source's
  flag and `break`, proved equal to a declarative reference definition. It also
  holds the decision of `validate_nuxmv_execution`.

The model follows the code in these edge cases:

- **Ragged rows.** A row shorter than the longest one is not padded. The code
  raises `IndexError` in the `DEFINE` loop, after every glyph has been found
  to be known. The model gives `Err(IndexError)`.
- **No goals.** A level without goal cells is not rejected. The code emits
  `CTLSPEC AG!();`.
- **Empty board.** The code has no separate error for an empty board. The empty
  text splits into one empty row, and the code emits a model with
  `array 0..0 of array 0..-1`.
- **The corridor level** `#####`/`#@$.#`/`#####`. The code defines two push
  predicates: `Right_push_valid[1][1]` and `Left_push_valid[1][3]`.
- **The shift value** is the field between the first and the second `=` of the
  line. It is not everything after the first `=`.
- **A shift line without `=`** inside the trace raises `IndexError`. The model
  gives `Err(MissingAssignment(line))`.

The case section keeps the source's bounds as written:

- a left arrive needs `j < width-2`;
- an up arrive needs `i < height-2`;
- a right arrive needs `j > 1`;
- a down arrive needs `i > 1`;
- the down arms sit inside `j < width-1`;
- each push arm sits inside its arrive arm.

So on a border that is not walled, some moves that are defined in `DEFINE` lose
their arrive or push arm (`SmvProperties.MoveArms`, `SmvProperties.PushArms`,
`SmvProperties.OpenBorderLosesArrive`). On a level walled all round nothing is
lost (`SmvProperties.CaseSectionWalledComplete`).

## Model

| member | source | states |
|---|---|---|
| SmvEncoder.ConvertXsbToSmv | v_sokoban.py:16-179 | The nested loops return exactly the statement list of `Smv.Encode`, or its exception: the first unknown glyph, else `IndexError` for a short row. |
| SmvEncoder.EmitInits | v_sokoban.py:35-52 | The `init` loop yields the init section. On an unknown glyph it yields `ValueError`. |
| SmvEncoder.EmitDefines | v_sokoban.py:59-95 | The `DEFINE` loop over `height` by `width` yields the define section. When any row is shorter than the longest it yields `IndexError`. |
| SmvEncoder.EmitCases | v_sokoban.py:116-175 | The `next(board[i][j])` loop yields one case per cell of the grid, in row-major order. |
| Strings.JoinSplit | v_sokoban.py:23 | `split('\n')` loses nothing: joining the rows gives the text back. |
| Board.GlyphTag | v_sokoban.py:37-52 | A glyph has a cell value exactly when it is one of `@+$*#.-`. |
| Board.GlyphTagInjective | v_sokoban.py:37-50 | The glyph table is one-to-one. |
| Board.MaxLen | v_sokoban.py:25 | `width` bounds every row and is the length of some row. |
| SmvProperties.InitSectionLines | v_sokoban.py:35-52 | The init section succeeds exactly when every glyph is known. It then holds one `init` line per character of the rows, with that glyph's value, in row-major order. |
| SmvProperties.InitSectionError | v_sokoban.py:51-52 | The `ValueError` names the first unknown glyph in row-major order, with its row and column. Every earlier glyph is known. |
| SmvProperties.EncodeOutcomes | v_sokoban.py:23-95 | The encoder fails with `ValueError` exactly when some glyph is unknown. It fails with `IndexError` exactly when all glyphs are known and some row is short. It succeeds exactly when all glyphs are known and the rows are of equal length. |
| SmvProperties.EncodeFrame | v_sokoban.py:22-177 | A model opens with the header and declares the board as `0..height-1` by `0..width-1`. It initialises and steps the shift variables, and ends with the specification over the goal cells. |
| SmvProperties.PushTableIsMoveToPush | v_sokoban.py:107-113 | `next(shift_push)` maps each move symbol to the push symbol of the same direction, and everything else to `0`. |
| SmvProperties.GoalCellsExact | v_sokoban.py:100-102 | The win condition ranges over exactly the cells with glyph `.`, `+` or `*`, in row-major order. It is empty exactly when there is no such glyph. |
| SmvProperties.CellDefsMove | v_sokoban.py:61-91 | A cell defines a move predicate in direction `d` exactly when the cell is open and its neighbour in `d` lies on the board and is open. |
| SmvProperties.CellDefsPush | v_sokoban.py:61-95 | A cell defines a push predicate in direction `d` exactly when the cell and its two neighbours in `d` lie on the board and are open. |
| SmvProperties.DefineSectionMembers | v_sokoban.py:59-95 | The `DEFINE` section holds only move and push predicates. It holds a move predicate exactly where a cell and its neighbour are open, and a push predicate exactly where a cell and the next two cells in that direction are open. |
| SmvProperties.ArmGuardDefined | v_sokoban.py:116-172 | Each arm of a cell's case is guarded by a predicate of the right cell: the same cell for leaving, one step back for arriving, two steps back for a push. The referenced cell defines that predicate. |
| SmvProperties.CaseSectionGuarded | v_sokoban.py:116-172 | Every arm of the case section is guarded by a predicate that the `DEFINE` section defines. |
| SmvProperties.MoveArms | v_sokoban.py:122-168 | For a defined move, the leave arm is present exactly when the source's leave bound holds. The arrive arm is present exactly when its arrive bound holds. |
| SmvProperties.PushArms | v_sokoban.py:127-172 | For a defined push, the arm on the box's landing cell is present exactly when the source's push bound holds. |
| SmvProperties.PushNeedsArrive | v_sokoban.py:127-172 | A push arm comes only together with the arrive arm of the same direction, from the box's cell. |
| SmvProperties.WalledMoveArms | v_sokoban.py:122-168 | On a level walled all round, every defined move has both its leave and its arrive arm. |
| SmvProperties.WalledPushArms | v_sokoban.py:127-172 | On a level walled all round, every defined push has its push arm. |
| SmvProperties.CaseSectionWalledComplete | v_sokoban.py:116-172 | On a level walled all round, every move in the `DEFINE` section has its leave and arrive arms in the case section, and every push its push arm. |
| SmvProperties.OpenBorderLosesArrive | v_sokoban.py:148-155 | On the board `@-` the move right is defined, but the target cell has no arm for the keeper arriving. |
| SmvProperties.CorridorPushes | v_sokoban.py:80-159 | On `#####`/`#@$.#`/`#####` the keeper's cell defines a push to the right, and the goal cell defines one to the left. The goal cell's case has the arm that puts the box on the goal. |
| SmvProperties.CellArmsInPriorityOrder | v_sokoban.py:119-172 | A cell's arms come in the order Left, Up, Right, Down, and leave, arrive, push within each direction, with at most one of each. A wall cell has none. |
| SmvProperties.CaseSectionFramed | v_sokoban.py:116-175 | Each cell's case opens and closes exactly once: both the openings and the closings list every cell of the grid, in row-major order. |
| SmvProperties.ArmResultKeepsGoal | v_sokoban.py:125-172 | The guard is assumed to hold: the keeper stands on the cell it leaves, and a cell receiving the keeper or a box is vacant. Then each arm keeps a goal cell a goal cell and a plain cell plain. Leaving empties the cell, arriving puts the keeper there, and a push puts a box there. |
| SmvRender.IndexRoundTrip | v_sokoban.py:38 | The printed subscript `[i][j]` reads back as the cell it names. |
| SmvRender.CellVarInjective | v_sokoban.py:38 | Distinct cells get distinct `board[i][j]` variables. |
| SmvRender.TagNameInjective | v_sokoban.py:38-50 | Distinct cell values get distinct SMV names. |
| SmvRender.RenderAppend | v_sokoban.py:22-177 | Printing two statement lists one after the other prints their concatenation. |
| SmvRender.WinConditionEmpty | v_sokoban.py:100-177 | The win condition is empty exactly when there are no goal cells. The specification line then reads `CTLSPEC AG!();`. |
| SmvRender.RenderedModelFrame | v_sokoban.py:22-177 | The model text starts with `MODULE main\nVAR\n` and ends with the `CTLSPEC` line over the goal cells. |
| Trace.Scan | v_sokoban.py:275-292 | The flag-and-break loop, for any opening and closing marker, returns the decoding of the lines from the first opening line through the first closing line at or after it. A line holding both markers opens and closes the window at once. |
| Trace.ExtractSolution | v_sokoban.py:268-292 | The scan with the two markers of the source returns exactly what `Trace.DecodeTrace` defines: the move tokens of the shift lines, from the first `Trace Description` line through the first `-- Loop starts here` line at or after it, joined, and `None` when there are none. |
| Trace.ShiftField | v_sokoban.py:283 | The field exists exactly when the line has a `=`, and it holds no `=`. |
| Trace.IsMoveLetter | v_sokoban.py:285 | The filter keeps exactly the one-letter tokens `l u r d L U R D`. |
| Trace.TokensAreMoves | v_sokoban.py:279-289 | Every collected token passes the filter. |
| Trace.TokensErrorLine | v_sokoban.py:279-289 | An error names a shift line of the window that has no `=`. |
| Trace.TokensAppend | v_sokoban.py:278-289 | The tokens of two pieces of the trace, read one after the other, are those of the first followed by those of the second. An error in the second piece is the result. |
| Trace.TokensAreMoveFields | v_sokoban.py:279-289 | The scan raises exactly when some shift line of the window has no `=`. Otherwise it keeps the field of every shift line whose field is a move, and nothing else, in the order of the lines. |
| Trace.DecodeTraceFields | v_sokoban.py:278-292 | The plan is the move fields of the trace's shift lines, joined, or `None` when there are none. The result is an error exactly when a shift line of the trace has no `=`. |
| Trace.TokensErrPersists | v_sokoban.py:283 | Once a shift line has raised, the lines after it do not change the outcome. |
| Trace.SolutionIsMoves | v_sokoban.py:285-291 | A plan is never empty and is made of move letters only, one per token kept, in trace order. |
| Trace.NoTraceNoSolution | v_sokoban.py:278-292 | Without a `Trace Description` line the result is `None`. |
| Trace.LeadingLinesIgnored | v_sokoban.py:278-280 | Lines before the trace that do not open it have no effect, whatever they hold, including shift lines without `=`. |
| Trace.TrailingLinesIgnored | v_sokoban.py:287-289 | Once the trace has closed, the lines after it have no effect. |
| Trace.ValidateExecution | v_sokoban.py:188-197 | A run counts as successful exactly when the output file exists and its content contains `TRUE`. The test for `Error` and `usage` only picks between two ways of answering no. |

## Left out

- File and process I/O are left out. This covers reading the level and the
  output files, `ensure_output_directory`, `run_nuxmv` (writing the command
  files, the subprocess, timing), `save_solution` and `main` with its `argv`
  handling. The model takes the level text, the list of lines that `readlines`
  returns, and the content of the output file (`None` for a missing file) as
  arguments.
- The meaning of the emitted SMV model is not modelled. The project proves what
  the model contains, not what nuXmv concludes from it.
- `str.lower` is modelled on ASCII letters only. No other character lowers to
  one of `l u r d`, so the filter decides the same.
- The text of the `ValueError` message is not modelled. The error keeps the
  glyph, the row and the column that the message prints.
- `SmvRender.RenderedModelFrame`: only the first and the last line of the
  printed model are pinned down. The statements in between are characterised on
  the statement list, through `SmvProperties`.
