/**
 * The SMV model that `convert_xsb_to_smv` writes, as a list of statements,
 * and the statement list it produces for a given XSB text.
 *
 * Each statement stands for a fixed piece of the emitted text (`SmvRender`
 * prints it). The functions here say, section by section, which statements
 * the encoder emits and in what order; `SmvEncoder` holds the loops that
 * build the list and `SmvProperties` what is proved about it.
 */
module Smv {
  import opened Common
  import opened Strings
  import opened Board

  /** The three kinds of arm in a cell's `next` case: the keeper leaves, arrives, or a box is pushed in. */
  datatype ArmKind = Leave | Arrive | PushArrive

  /** The value an arm gives its cell: `ArmYes` when the cell holds `ArmTest`, else `ArmNo` (lines 124-173). */
  function ArmTest(k: ArmKind): Tag
  {
    match k
    case Leave => WkOnGoal
    case Arrive => Goal
    case PushArrive => Goal
  }

  function ArmYes(k: ArmKind): Tag
  {
    match k
    case Leave => Goal
    case Arrive => WkOnGoal
    case PushArrive => BoxOnGoal
  }

  function ArmNo(k: ArmKind): Tag
  {
    match k
    case Leave => Floor
    case Arrive => Wk
    case PushArrive => Box
  }

  /** The cell's next value when an arm of kind `k` fires on a cell holding `cur`. */
  function ArmResult(k: ArmKind, cur: Tag): Tag
  {
    if cur == ArmTest(k) then ArmYes(k) else ArmNo(k)
  }

  datatype Stmt =
    | ModuleHeader                                    // MODULE main / VAR
    | DeclBoard(maxRow: int, maxCol: int)             // board : array 0..maxRow of array 0..maxCol of {...}
    | DeclShifts                                      // the shift_move and shift_push declarations
    | AssignHeader                                    // ASSIGN
    | InitCell(at: Pos, tag: Tag)                     // init(board[i][j]) := tag
    | InitShifts                                      // init(shift_move) := 0; init(shift_push) := 0
    | DefineHeader                                    // DEFINE
    | MoveDef(dir: Dir, at: Pos, dest: Pos)           // <Dir>_valid[at]: keeper at `at`, floor or goal at `dest`
    | PushDef(dir: Dir, at: Pos, box: Pos, dest: Pos) // <Dir>_push_valid[at]: keeper, "box" at `box`, floor or goal at `dest`
    | NextShifts(pushTable: seq<(char, char)>)        // next(shift_move) and the case for next(shift_push)
    | CaseOpen(at: Pos)                               // next(board[i][j]) := case
    | Arm(at: Pos, kind: ArmKind, dir: Dir, ref: Pos) // guard on the predicate of `dir` at `ref`
    | Default(at: Pos)                                // TRUE : board[i][j]; esac;
    | Spec(goals: seq<Pos>)                           // CTLSPEC AG!(goal cells all "box_on_goal")

  /** `ValueError` for a glyph outside the table, `IndexError` for a row shorter than the longest. */
  datatype EncodeError = UnexpectedChar(glyph: char, row: nat, col: nat) | IndexError

  /** The value of `shift_move` that selects a step in direction `d`. */
  function MoveSymbol(d: Dir): char
  {
    match d
    case Left => 'l'
    case Up => 'u'
    case Right => 'r'
    case Down => 'd'
  }

  /** The value of `shift_push` that selects a push in direction `d`. */
  function PushSymbol(d: Dir): char
  {
    match d
    case Left => 'L'
    case Up => 'U'
    case Right => 'R'
    case Down => 'D'
  }

  /** The arms of the `next(shift_push)` case, in the order they are emitted. */
  const PushTable: seq<(char, char)> := [('l', 'L'), ('u', 'U'), ('r', 'R'), ('d', 'D')]

  /** The first-match reading of a case table; `None` is the closing `TRUE : 0` arm. */
  function Lookup(table: seq<(char, char)>, m: char): Option<char>
  {
    if table == [] then None
    else if table[0].0 == m then Some(table[0].1)
    else Lookup(table[1..], m)
  }

  /** The preamble: module header and the three declarations, up to the first `ASSIGN`. */
  function Preamble(h: nat, w: nat): seq<Stmt>
  {
    [ModuleHeader, DeclBoard(h - 1, w - 1), DeclShifts, AssignHeader]
  }

  /** The `init` line of one cell, for a glyph in the table (lines 35-50). */
  function CellInit(rows: seq<string>, p: Pos): seq<Stmt>
  {
    match GlyphTag(At(rows, p.row, p.col))
    case Some(t) => [InitCell(p, t)]
    case None => []
  }

  /** The `DEFINE` lines of one cell, four directions in order (lines 61-95). */
  function CellDefs(rows: seq<string>, w: nat, p: Pos): seq<Stmt>
  {
    if !Open(rows, p.row, p.col) then []
    else LeftDefs(rows, p) + UpDefs(rows, p) + RightDefs(rows, w, p) + DownDefs(rows, p)
  }

  /** Lines 63-69. */
  function LeftDefs(rows: seq<string>, p: Pos): seq<Stmt>
  {
    var i, j := p.row, p.col;
    if j > 0 && Open(rows, i, j - 1) then
      [MoveDef(Left, p, Pos(i, j - 1))]
      + (if j > 1 && Open(rows, i, j - 2) then [PushDef(Left, p, Pos(i, j - 1), Pos(i, j - 2))] else [])
    else []
  }

  /** Lines 71-78. */
  function UpDefs(rows: seq<string>, p: Pos): seq<Stmt>
  {
    var i, j := p.row, p.col;
    if i > 0 && Open(rows, i - 1, j) then
      [MoveDef(Up, p, Pos(i - 1, j))]
      + (if i > 1 && Open(rows, i - 2, j) then [PushDef(Up, p, Pos(i - 1, j), Pos(i - 2, j))] else [])
    else []
  }

  /** Lines 80-87. */
  function RightDefs(rows: seq<string>, w: nat, p: Pos): seq<Stmt>
  {
    var i, j := p.row, p.col;
    if j < w - 1 && Open(rows, i, j + 1) then
      [MoveDef(Right, p, Pos(i, j + 1))]
      + (if j < w - 2 && Open(rows, i, j + 2) then [PushDef(Right, p, Pos(i, j + 1), Pos(i, j + 2))] else [])
    else []
  }

  /** Lines 89-95. */
  function DownDefs(rows: seq<string>, p: Pos): seq<Stmt>
  {
    var i, j, h := p.row, p.col, |rows|;
    if i < h - 1 && Open(rows, i + 1, j) then
      [MoveDef(Down, p, Pos(i + 1, j))]
      + (if i < h - 2 && Open(rows, i + 2, j) then [PushDef(Down, p, Pos(i + 1, j), Pos(i + 2, j))] else [])
    else []
  }

  /** The Left arms of a non-wall cell (lines 122-133). */
  function LeftArms(rows: seq<string>, w: nat, p: Pos): seq<Stmt>
  {
    var i, j := p.row, p.col;
    if j > 0 then
      (if Open(rows, i, j - 1) then [Arm(p, Leave, Left, p)] else [])
      + (if j < w - 2 && Open(rows, i, j + 1) then
           [Arm(p, Arrive, Left, Pos(i, j + 1))]
           + (if j < w - 3 && Open(rows, i, j + 2) then [Arm(p, PushArrive, Left, Pos(i, j + 2))] else [])
         else [])
    else []
  }

  /** The Up arms of a non-wall cell (lines 135-146). */
  function UpArms(rows: seq<string>, p: Pos): seq<Stmt>
  {
    var i, j, h := p.row, p.col, |rows|;
    if i > 0 then
      (if Open(rows, i - 1, j) then [Arm(p, Leave, Up, p)] else [])
      + (if i < h - 2 && Open(rows, i + 1, j) then
           [Arm(p, Arrive, Up, Pos(i + 1, j))]
           + (if i < h - 3 && Open(rows, i + 2, j) then [Arm(p, PushArrive, Up, Pos(i + 2, j))] else [])
         else [])
    else []
  }

  /** The Right arms of a non-wall cell (lines 148-159). */
  function RightArms(rows: seq<string>, w: nat, p: Pos): seq<Stmt>
  {
    var i, j := p.row, p.col;
    if j < w - 1 then
      (if Open(rows, i, j + 1) then [Arm(p, Leave, Right, p)] else [])
      + (if j > 1 && Open(rows, i, j - 1) then
           [Arm(p, Arrive, Right, Pos(i, j - 1))]
           + (if j > 2 && Open(rows, i, j - 2) then [Arm(p, PushArrive, Right, Pos(i, j - 2))] else [])
         else [])
    else []
  }

  /** The Down arms, reached only inside the Right block's `j < width - 1` test (lines 161-172). */
  function DownArms(rows: seq<string>, w: nat, p: Pos): seq<Stmt>
  {
    var i, j, h := p.row, p.col, |rows|;
    if j < w - 1 && i < h - 1 then
      (if Open(rows, i + 1, j) then [Arm(p, Leave, Down, p)] else [])
      + (if i > 1 && Open(rows, i - 1, j) then
           [Arm(p, Arrive, Down, Pos(i - 1, j))]
           + (if i > 2 && Open(rows, i - 2, j) then [Arm(p, PushArrive, Down, Pos(i - 2, j))] else [])
         else [])
    else []
  }

  /** The guarded arms of one cell's `next` case; a wall cell has none. */
  function CellArms(rows: seq<string>, w: nat, p: Pos): seq<Stmt>
  {
    if !Open(rows, p.row, p.col) then []
    else LeftArms(rows, w, p) + UpArms(rows, p) + (RightArms(rows, w, p) + DownArms(rows, w, p))
  }

  /** One cell's whole `next` case (lines 118-175). */
  function CellCase(rows: seq<string>, w: nat, p: Pos): seq<Stmt>
  {
    [CaseOpen(p)] + CellArms(rows, w, p) + [Default(p)]
  }

  /** The three sections built by a loop over the cells. */
  datatype Section = Inits | Defines | Cases

  /** What one cell contributes to a section. */
  function Chunk(sec: Section, rows: seq<string>, w: nat, p: Pos): seq<Stmt>
  {
    match sec
    case Inits => CellInit(rows, p)
    case Defines => CellDefs(rows, w, p)
    case Cases => CellCase(rows, w, p)
  }

  /** `f` of each cell of `cells`, one after another. */
  function ConcatMap(f: Pos -> seq<Stmt>, cells: seq<Pos>): seq<Stmt>
  {
    if cells == [] then [] else ConcatMap(f, cells[..|cells| - 1]) + f(cells[|cells| - 1])
  }

  /** The cells of `cells` that `f` keeps, in their order. */
  function Filter(f: Pos -> bool, cells: seq<Pos>): seq<Pos>
  {
    if cells == [] then []
    else Filter(f, cells[..|cells| - 1]) + (if f(cells[|cells| - 1]) then [cells[|cells| - 1]] else [])
  }

  function ChunkOf(sec: Section, rows: seq<string>, w: nat): Pos -> seq<Stmt>
  {
    p => Chunk(sec, rows, w, p)
  }

  /** The chunks of `cells`, one after another, as the loops append them. */
  function Emit(sec: Section, rows: seq<string>, w: nat, cells: seq<Pos>): seq<Stmt>
  {
    ConcatMap(ChunkOf(sec, rows, w), cells)
  }

  /** The two ways the encoder picks cells out of the board. */
  datatype CellClass = BadGlyph | GoalGlyph

  predicate Selects(cls: CellClass, rows: seq<string>, p: Pos)
  {
    match cls
    case BadGlyph => GlyphTag(At(rows, p.row, p.col)).None?
    case GoalGlyph => IsGoalGlyph(At(rows, p.row, p.col))
  }

  function SelectorOf(cls: CellClass, rows: seq<string>): Pos -> bool
  {
    p => Selects(cls, rows, p)
  }

  /** The cells of `cells` that `cls` picks, in their order. */
  function Select(cls: CellClass, rows: seq<string>, cells: seq<Pos>): seq<Pos>
  {
    Filter(SelectorOf(cls, rows), cells)
  }

  /** The `init` lines, or the `ValueError` of the first glyph outside the table. */
  function InitSection(rows: seq<string>): Result<seq<Stmt>, EncodeError>
  {
    var cells := CellsOf(rows, |rows|);
    var bad := Select(BadGlyph, rows, cells);
    if bad == [] then Ok(Emit(Inits, rows, MaxLen(rows), cells))
    else Err(UnexpectedChar(At(rows, bad[0].row, bad[0].col), bad[0].row, bad[0].col))
  }

  /** The `DEFINE` lines, or `IndexError` when some row is shorter than `w`. */
  function DefineSection(rows: seq<string>, w: nat): Result<seq<Stmt>, EncodeError>
  {
    if Rectangular(rows, w) then Ok(Emit(Defines, rows, w, GridCells(w, |rows|))) else Err(IndexError)
  }

  /** The `next(board[i][j])` cases of all cells, row by row. */
  function CaseSection(rows: seq<string>, w: nat): seq<Stmt>
  {
    Emit(Cases, rows, w, GridCells(w, |rows|))
  }

  /** The cells of the win condition: glyph `.`, `+` or `*`, in row-major order (lines 100-101). */
  function GoalCells(rows: seq<string>): seq<Pos>
  {
    Select(GoalGlyph, rows, CellsOf(rows, |rows|))
  }

  /** The statements `convert_xsb_to_smv(xsb)` emits, or the exception it raises. */
  function Encode(xsb: string): Result<seq<Stmt>, EncodeError>
  {
    var rows := Split(xsb, '\n');
    var w := MaxLen(rows);
    match InitSection(rows)
    case Err(e) => Err(e)
    case Ok(inits) =>
      match DefineSection(rows, w)
      case Err(e) => Err(e)
      case Ok(defs) =>
        Ok(Preamble(|rows|, w) + inits + [InitShifts, DefineHeader] + defs
           + [AssignHeader, NextShifts(PushTable)] + CaseSection(rows, w) + [Spec(GoalCells(rows))])
  }

  /** Appending one cell appends that cell's part. */
  lemma ConcatMapSnoc(f: Pos -> seq<Stmt>, cells: seq<Pos>, p: Pos)
    ensures ConcatMap(f, cells + [p]) == ConcatMap(f, cells) + f(p)
  {
    assert (cells + [p])[..|cells|] == cells;
  }

  lemma {:induction false} ConcatMapAppend(f: Pos -> seq<Stmt>, a: seq<Pos>, b: seq<Pos>)
    ensures ConcatMap(f, a + b) == ConcatMap(f, a) + ConcatMap(f, b)
    decreases |b|
  {
    if b == [] {
      assert a + b == a;
    } else {
      var b' := b[..|b| - 1];
      var q := b[|b| - 1];
      assert a + b == (a + b') + [q];
      assert b == b' + [q];
      ConcatMapAppend(f, a, b');
      ConcatMapSnoc(f, a + b', q);
      ConcatMapSnoc(f, b', q);
    }
  }

  lemma {:induction false} FilterAppend(f: Pos -> bool, a: seq<Pos>, b: seq<Pos>)
    ensures Filter(f, a + b) == Filter(f, a) + Filter(f, b)
    decreases |b|
  {
    if b == [] {
      assert a + b == a;
    } else {
      var b' := b[..|b| - 1];
      assert (a + b)[..|a + b| - 1] == a + b';
      assert (a + b)[|a + b| - 1] == b[|b| - 1];
      FilterAppend(f, a, b');
    }
  }

  /** Appending one cell to the loop's cells appends that cell's chunk. */
  lemma EmitSnoc(sec: Section, rows: seq<string>, w: nat, cells: seq<Pos>, p: Pos)
    ensures Emit(sec, rows, w, cells + [p]) == Emit(sec, rows, w, cells) + Chunk(sec, rows, w, p)
  {
    ConcatMapSnoc(ChunkOf(sec, rows, w), cells, p);
  }

  /** `f` of the cells of the first `n` rows of a `w`-wide grid, row after row. */
  function RowsMap(f: Pos -> seq<Stmt>, w: nat, n: nat): seq<Stmt>
  {
    if n == 0 then [] else RowsMap(f, w, n - 1) + ConcatMap(f, RowCells(n - 1, w))
  }

  /** Mapping row by row is mapping the grid cell by cell. */
  lemma {:induction false} RowsMapGrid(f: Pos -> seq<Stmt>, w: nat, n: nat)
    ensures RowsMap(f, w, n) == ConcatMap(f, GridCells(w, n))
  {
    if n > 0 {
      RowsMapGrid(f, w, n - 1);
      ConcatMapAppend(f, GridCells(w, n - 1), RowCells(n - 1, w));
    }
  }

  /** The chunks of the first `n` rows of a `w`-wide grid, row after row. */
  function EmitRows(sec: Section, rows: seq<string>, w: nat, n: nat): seq<Stmt>
  {
    RowsMap(ChunkOf(sec, rows, w), w, n)
  }

  /** One more row of chunks. */
  lemma EmitRowsStep(sec: Section, rows: seq<string>, w: nat, n: nat)
    ensures EmitRows(sec, rows, w, n + 1) == EmitRows(sec, rows, w, n) + Emit(sec, rows, w, RowCells(n, w))
  {
  }

  /** Emitting row by row is emitting the grid cell by cell. */
  lemma EmitRowsGrid(sec: Section, rows: seq<string>, w: nat, n: nat)
    ensures EmitRows(sec, rows, w, n) == Emit(sec, rows, w, GridCells(w, n))
  {
    RowsMapGrid(ChunkOf(sec, rows, w), w, n);
  }

  /** One more cell of a row. */
  lemma EmitRowStep(sec: Section, rows: seq<string>, w: nat, i: nat, j: nat)
    ensures Emit(sec, rows, w, RowCells(i, j + 1)) == Emit(sec, rows, w, RowCells(i, j)) + Chunk(sec, rows, w, Pos(i, j))
  {
    EmitSnoc(sec, rows, w, RowCells(i, j), Pos(i, j));
  }

  lemma EmitAppend(sec: Section, rows: seq<string>, w: nat, a: seq<Pos>, b: seq<Pos>)
    ensures Emit(sec, rows, w, a + b) == Emit(sec, rows, w, a) + Emit(sec, rows, w, b)
  {
    ConcatMapAppend(ChunkOf(sec, rows, w), a, b);
  }

  /**
   * When every cell before `(i, j)` has a glyph of the table and `(i, j)` does not,
   * `(i, j)` is the first bad cell of the board.
   */
  lemma FirstBadGlyph(rows: seq<string>, i: nat, j: nat)
    requires i < |rows| && j < |rows[i]|
    requires Select(BadGlyph, rows, CellsOf(rows, i) + RowCells(i, j)) == []
    requires GlyphTag(rows[i][j]).None?
    ensures var bad := Select(BadGlyph, rows, CellsOf(rows, |rows|)); bad != [] && bad[0] == Pos(i, j)
  {
    var f := SelectorOf(BadGlyph, rows);
    var before := CellsOf(rows, i) + RowCells(i, j);
    var all := CellsOf(rows, |rows|);
    CellsUpToPrefix(rows, i, j);
    PrefixRest(before + [Pos(i, j)], all);
    assert f(Pos(i, j));
    FilterFirst(f, before, Pos(i, j), all[|before| + 1..]);
  }

  /** After a run that `f` drops, the first cell `f` keeps heads the selection. */
  lemma FilterFirst(f: Pos -> bool, a: seq<Pos>, p: Pos, b: seq<Pos>)
    requires Filter(f, a) == [] && f(p)
    ensures Filter(f, a + [p] + b) != [] && Filter(f, a + [p] + b)[0] == p
  {
    FilterOne(f, p);
    FilterAppend(f, a, [p]);
    FilterAppend(f, a + [p], b);
  }

  lemma FilterOne(f: Pos -> bool, p: Pos)
    requires f(p)
    ensures Filter(f, [p]) == [p]
  {
    assert [p][..0] == [];
  }

  /** An unknown glyph at `(i, j)` after none: the init section is the exception for `(i, j)`. */
  lemma InitSectionFailsAt(rows: seq<string>, i: nat, j: nat)
    requires i < |rows| && j < |rows[i]|
    requires Select(BadGlyph, rows, CellsOf(rows, i)) == []
    requires Select(BadGlyph, rows, RowCells(i, j)) == []
    requires GlyphTag(rows[i][j]).None?
    ensures InitSection(rows) == Err(UnexpectedChar(rows[i][j], i, j))
  {
    FilterAppend(SelectorOf(BadGlyph, rows), CellsOf(rows, i), RowCells(i, j));
    FirstBadGlyph(rows, i, j);
  }

  /** Rows with no unknown glyph, then one more such row. */
  lemma CleanRowsExtend(rows: seq<string>, i: nat)
    requires i < |rows|
    requires Select(BadGlyph, rows, CellsOf(rows, i)) == []
    requires Select(BadGlyph, rows, RowCells(i, |rows[i]|)) == []
    ensures Select(BadGlyph, rows, CellsOf(rows, i + 1)) == []
  {
    FilterAppend(SelectorOf(BadGlyph, rows), CellsOf(rows, i), RowCells(i, |rows[i]|));
  }

  /** A known glyph at `(i, j)`: one more init line and still no unknown glyph in the row. */
  lemma InitStep(rows: seq<string>, w: nat, i: nat, j: nat)
    requires i < |rows| && j < |rows[i]|
    requires Select(BadGlyph, rows, RowCells(i, j)) == []
    requires GlyphTag(rows[i][j]).Some?
    ensures Select(BadGlyph, rows, RowCells(i, j + 1)) == []
    ensures Emit(Inits, rows, w, RowCells(i, j + 1))
         == Emit(Inits, rows, w, RowCells(i, j)) + [InitCell(Pos(i, j), GlyphTag(rows[i][j]).value)]
  {
    var p := Pos(i, j);
    assert RowCells(i, j) + [p] == RowCells(i, j + 1);
    EmitSnoc(Inits, rows, w, RowCells(i, j), p);
    FilterAppend(SelectorOf(BadGlyph, rows), RowCells(i, j), [p]);
    assert [p][..0] == [];
  }
}
