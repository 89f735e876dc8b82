/**
 * `convert_xsb_to_smv` as the loops that build its output: one loop nest
 * per section, each appending to an accumulator as the source appends to
 * `smv_content`, and each proved to produce the section `Smv` specifies.
 */
module SmvEncoder {
  import opened Common
  import opened Strings
  import opened Board
  import opened Smv

  /** The whole encoder: the statements of the model, or the exception raised. */
  method ConvertXsbToSmv(xsb: string) returns (r: Result<seq<Stmt>, EncodeError>)
    ensures r == Encode(xsb)
  {
    var rows := Split(xsb, '\n');
    var height := |rows|;
    var width := MaxLen(rows);
    var smv := Preamble(height, width);
    var inits := EmitInits(rows);
    if inits.Err? {
      return Err(inits.error);
    }
    smv := smv + inits.value + [InitShifts, DefineHeader];
    var defs := EmitDefines(rows, width);
    if defs.Err? {
      return Err(defs.error);
    }
    var goals := GoalCells(rows);
    smv := smv + defs.value + [AssignHeader, NextShifts(PushTable)];
    var cases := EmitCases(rows, width);
    smv := smv + cases + [Spec(goals)];
    return Ok(smv);
  }

  /** The `init` loop over `enumerate(rows)` and `enumerate(row)` (lines 35-52). */
  method EmitInits(rows: seq<string>) returns (r: Result<seq<Stmt>, EncodeError>)
    ensures r == InitSection(rows)
  {
    ghost var w := MaxLen(rows);
    var out: seq<Stmt> := [];
    var i: nat := 0;
    while i < |rows|
      invariant i <= |rows|
      invariant Select(BadGlyph, rows, CellsOf(rows, i)) == []
      invariant out == Emit(Inits, rows, w, CellsOf(rows, i))
    {
      var row := InitRow(rows, i);
      if row.Err? {
        InitSectionFailsAt(rows, i, row.error.col);
        return row;
      }
      CleanRowsExtend(rows, i);
      EmitAppend(Inits, rows, w, CellsOf(rows, i), RowCells(i, |rows[i]|));
      out := out + row.value;
      i := i + 1;
    }
    return Ok(out);
  }

  /**
   * The `init` lines of row `i` (lines 36-52), or the exception for its first
   * unknown glyph, which is the first of the board when the rows before it had none.
   */
  method InitRow(rows: seq<string>, i: nat) returns (r: Result<seq<Stmt>, EncodeError>)
    requires i < |rows|
    ensures r.Ok? ==> r.value == Emit(Inits, rows, MaxLen(rows), RowCells(i, |rows[i]|))
    ensures r.Ok? ==> Select(BadGlyph, rows, RowCells(i, |rows[i]|)) == []
    ensures r.Err? ==> var e := r.error;
      && e.UnexpectedChar? && e.row == i && e.col < |rows[i]| && e.glyph == rows[i][e.col]
      && GlyphTag(e.glyph).None?
      && Select(BadGlyph, rows, RowCells(i, e.col)) == []
  {
    ghost var w := MaxLen(rows);
    var row := rows[i];
    var out: seq<Stmt> := [];
    var j: nat := 0;
    while j < |row|
      invariant j <= |row|
      invariant Select(BadGlyph, rows, RowCells(i, j)) == []
      invariant out == Emit(Inits, rows, w, RowCells(i, j))
    {
      var c := row[j];
      match GlyphTag(c) {
        case Some(t) =>
          InitStep(rows, w, i, j);
          out := out + [InitCell(Pos(i, j), t)];
        case None =>
          return Err(UnexpectedChar(c, i, j));
      }
      j := j + 1;
    }
    return Ok(out);
  }

  /**
   * The `DEFINE` loop over `range(height)` by `range(width)` (lines 59-95).
   * An index past the end of a short row raises `IndexError`, as the source does.
   */
  method EmitDefines(rows: seq<string>, width: nat) returns (r: Result<seq<Stmt>, EncodeError>)
    requires forall k :: 0 <= k < |rows| ==> |rows[k]| <= width
    ensures r == DefineSection(rows, width)
  {
    var height := |rows|;
    var out: seq<Stmt> := [];
    var i: nat := 0;
    while i < height
      invariant i <= height
      invariant Rectangular(rows[..i], width)
      invariant i > 0 ==> |rows[i - 1]| == width
      invariant i > 1 ==> |rows[i - 2]| == width
      invariant out == EmitRows(Defines, rows, width, i)
    {
      var row := DefineRow(rows, width, i);
      if row.Err? {
        return Err(IndexError);
      }
      RectangularExtend(rows, width, i);
      EmitRowsStep(Defines, rows, width, i);
      out := out + row.value;
      i := i + 1;
    }
    assert rows[..height] == rows;
    EmitRowsGrid(Defines, rows, width, height);
    return Ok(out);
  }

  /** The lines one pass of `for j in range(width)` adds to `DEFINE` (lines 60-95). */
  method DefineRow(rows: seq<string>, width: nat, i: nat) returns (r: Result<seq<Stmt>, EncodeError>)
    requires i < |rows| && |rows[i]| <= width
    requires i > 0 ==> |rows[i - 1]| == width
    requires i > 1 ==> |rows[i - 2]| == width
    ensures r.Ok? ==> r.value == Emit(Defines, rows, width, RowCells(i, width)) && |rows[i]| == width
    ensures r.Err? ==> r.error == IndexError && !Rectangular(rows, width)
  {
    var out: seq<Stmt> := [];
    var j: nat := 0;
    while j < width
      invariant j <= width && j <= |rows[i]|
      invariant out == Emit(Defines, rows, width, RowCells(i, j))
    {
      if j >= |rows[i]| {
        return Err(IndexError);
      }
      EmitRowStep(Defines, rows, width, i, j);
      var cell := DefineCell(rows, width, i, j);
      if cell.Err? {
        return Err(IndexError);
      }
      out := out + cell.value;
      j := j + 1;
    }
    return Ok(out);
  }

  /**
   * The `DEFINE` lines of the cell at `(i, j)` (lines 61-95), or the
   * `IndexError` that reading past the end of a short row raises.
   */
  method DefineCell(rows: seq<string>, width: nat, i: nat, j: nat) returns (r: Result<seq<Stmt>, EncodeError>)
    requires i < |rows| && j < |rows[i]| <= width && j < width
    requires i > 0 ==> |rows[i - 1]| == width
    requires i > 1 ==> |rows[i - 2]| == width
    ensures r.Ok? ==> r.value == Chunk(Defines, rows, width, Pos(i, j))
    ensures r.Err? ==> r.error == IndexError && !Rectangular(rows, width)
  {
    var p := Pos(i, j);
    if rows[i][j] == '#' {
      return Ok([]);
    }
    var left := LeftDefsAt(rows, i, j);
    var up := UpDefsAt(rows, i, j);
    var right := RightDefsAt(rows, width, i, j);
    if right.Err? {
      return Err(IndexError);
    }
    var down := DownDefsAt(rows, i, j);
    if down.Err? {
      return Err(IndexError);
    }
    return Ok(left + up + right.value + down.value);
  }

  /** The Left move and push definitions (lines 63-69). */
  method LeftDefsAt(rows: seq<string>, i: nat, j: nat) returns (defs: seq<Stmt>)
    requires i < |rows| && j < |rows[i]|
    ensures defs == LeftDefs(rows, Pos(i, j))
  {
    var p := Pos(i, j);
    defs := [];
    if j > 0 && rows[i][j - 1] != '#' {
      defs := defs + [MoveDef(Left, p, Pos(i, j - 1))];
      if j > 1 && rows[i][j - 2] != '#' {
        defs := defs + [PushDef(Left, p, Pos(i, j - 1), Pos(i, j - 2))];
      }
    }
  }

  /** The Up move and push definitions (lines 71-78), reading rows above that are already known to be full. */
  method UpDefsAt(rows: seq<string>, i: nat, j: nat) returns (defs: seq<Stmt>)
    requires i < |rows|
    requires i > 0 ==> j < |rows[i - 1]|
    requires i > 1 ==> j < |rows[i - 2]|
    ensures defs == UpDefs(rows, Pos(i, j))
  {
    var p := Pos(i, j);
    defs := [];
    if i > 0 && rows[i - 1][j] != '#' {
      defs := defs + [MoveDef(Up, p, Pos(i - 1, j))];
      if i > 1 && rows[i - 2][j] != '#' {
        defs := defs + [PushDef(Up, p, Pos(i - 1, j), Pos(i - 2, j))];
      }
    }
  }

  /** The Right move and push definitions (lines 80-87); a short row raises `IndexError`. */
  method RightDefsAt(rows: seq<string>, width: nat, i: nat, j: nat) returns (r: Result<seq<Stmt>, EncodeError>)
    requires i < |rows| && j < |rows[i]| <= width
    ensures r.Ok? ==> r.value == RightDefs(rows, width, Pos(i, j))
    ensures r.Err? ==> r.error == IndexError && |rows[i]| < width
  {
    var p := Pos(i, j);
    var defs: seq<Stmt> := [];
    if j < width - 1 {
      if j + 1 >= |rows[i]| {
        return Err(IndexError);
      }
      if rows[i][j + 1] != '#' {
        defs := defs + [MoveDef(Right, p, Pos(i, j + 1))];
        if j < width - 2 {
          if j + 2 >= |rows[i]| {
            return Err(IndexError);
          }
          if rows[i][j + 2] != '#' {
            defs := defs + [PushDef(Right, p, Pos(i, j + 1), Pos(i, j + 2))];
          }
        }
      }
    }
    return Ok(defs);
  }

  /** The Down move and push definitions (lines 89-95); a short row below raises `IndexError`. */
  method DownDefsAt(rows: seq<string>, i: nat, j: nat) returns (r: Result<seq<Stmt>, EncodeError>)
    requires i < |rows|
    ensures r.Ok? ==> r.value == DownDefs(rows, Pos(i, j))
    ensures r.Err? ==> r.error == IndexError && exists k :: i < k < |rows| && j >= |rows[k]|
  {
    var p := Pos(i, j);
    var height := |rows|;
    var defs: seq<Stmt> := [];
    if i < height - 1 {
      if j >= |rows[i + 1]| {
        return Err(IndexError);
      }
      if rows[i + 1][j] != '#' {
        defs := defs + [MoveDef(Down, p, Pos(i + 1, j))];
        if i < height - 2 {
          if j >= |rows[i + 2]| {
            return Err(IndexError);
          }
          if rows[i + 2][j] != '#' {
            defs := defs + [PushDef(Down, p, Pos(i + 1, j), Pos(i + 2, j))];
          }
        }
      }
    }
    return Ok(defs);
  }

  /** The `next(board[i][j])` loop over `range(height)` by `range(width)` (lines 116-175). */
  method EmitCases(rows: seq<string>, width: nat) returns (cases: seq<Stmt>)
    requires Rectangular(rows, width)
    ensures cases == CaseSection(rows, width)
  {
    var height := |rows|;
    var out: seq<Stmt> := [];
    var i: nat := 0;
    while i < height
      invariant i <= height
      invariant out == EmitRows(Cases, rows, width, i)
    {
      var row := CaseRow(rows, width, i);
      EmitRowsStep(Cases, rows, width, i);
      out := out + row;
      i := i + 1;
    }
    EmitRowsGrid(Cases, rows, width, height);
    return out;
  }

  /** The cases one pass of `for j in range(width)` adds (lines 117-175). */
  method CaseRow(rows: seq<string>, width: nat, i: nat) returns (cases: seq<Stmt>)
    requires Rectangular(rows, width) && i < |rows|
    ensures cases == Emit(Cases, rows, width, RowCells(i, width))
  {
    cases := [];
    var j: nat := 0;
    while j < width
      invariant j <= width
      invariant cases == Emit(Cases, rows, width, RowCells(i, j))
    {
      EmitRowStep(Cases, rows, width, i, j);
      var cell := CaseCell(rows, width, i, j);
      cases := cases + cell;
      j := j + 1;
    }
  }

  /** The `next(board[i][j])` case of the cell at `(i, j)` (lines 118-175). */
  method CaseCell(rows: seq<string>, width: nat, i: nat, j: nat) returns (cell: seq<Stmt>)
    requires Rectangular(rows, width) && i < |rows| && j < width
    ensures cell == Chunk(Cases, rows, width, Pos(i, j))
  {
    var p := Pos(i, j);
    var arms: seq<Stmt> := [];
    if rows[i][j] != '#' {
      var left := LeftArmsAt(rows, width, i, j);
      var up := UpArmsAt(rows, width, i, j);
      var rightDown := RightDownArmsAt(rows, width, i, j);
      arms := left + up + rightDown;
    }
    cell := [CaseOpen(p)] + arms + [Default(p)];
  }

  /** The Left arms (lines 122-133). */
  method LeftArmsAt(rows: seq<string>, width: nat, i: nat, j: nat) returns (arms: seq<Stmt>)
    requires Rectangular(rows, width) && i < |rows| && j < width
    ensures arms == LeftArms(rows, width, Pos(i, j))
  {
    var p := Pos(i, j);
    arms := [];
    if j > 0 {
      if rows[i][j - 1] != '#' {
        arms := arms + [Arm(p, Leave, Left, p)];
      }
      if j < width - 2 && rows[i][j + 1] != '#' {
        arms := arms + [Arm(p, Arrive, Left, Pos(i, j + 1))];
        if j < width - 3 && rows[i][j + 2] != '#' {
          arms := arms + [Arm(p, PushArrive, Left, Pos(i, j + 2))];
        }
      }
    }
  }

  /** The Up arms (lines 135-146). */
  method UpArmsAt(rows: seq<string>, width: nat, i: nat, j: nat) returns (arms: seq<Stmt>)
    requires Rectangular(rows, width) && i < |rows| && j < width
    ensures arms == UpArms(rows, Pos(i, j))
  {
    var p := Pos(i, j);
    var height := |rows|;
    arms := [];
    if i > 0 {
      if rows[i - 1][j] != '#' {
        arms := arms + [Arm(p, Leave, Up, p)];
      }
      if i < height - 2 && rows[i + 1][j] != '#' {
        arms := arms + [Arm(p, Arrive, Up, Pos(i + 1, j))];
        if i < height - 3 && rows[i + 2][j] != '#' {
          arms := arms + [Arm(p, PushArrive, Up, Pos(i + 2, j))];
        }
      }
    }
  }

  /** The `if j < width - 1` block: the Right arms, then the Down arms nested inside it (lines 148-172). */
  method RightDownArmsAt(rows: seq<string>, width: nat, i: nat, j: nat) returns (arms: seq<Stmt>)
    requires Rectangular(rows, width) && i < |rows| && j < width
    ensures arms == RightArms(rows, width, Pos(i, j)) + DownArms(rows, width, Pos(i, j))
  {
    arms := [];
    if j < width - 1 {
      var right := RightArmsAt(rows, width, i, j);
      var down := DownArmsAt(rows, width, i, j);
      arms := right + down;
    }
  }

  /** The Right arms, inside `if j < width - 1` (lines 149-159). */
  method RightArmsAt(rows: seq<string>, width: nat, i: nat, j: nat) returns (arms: seq<Stmt>)
    requires Rectangular(rows, width) && i < |rows| && j < width - 1
    ensures arms == RightArms(rows, width, Pos(i, j))
  {
    var p := Pos(i, j);
    arms := [];
    if rows[i][j + 1] != '#' {
      arms := arms + [Arm(p, Leave, Right, p)];
    }
    if j > 1 && rows[i][j - 1] != '#' {
      arms := arms + [Arm(p, Arrive, Right, Pos(i, j - 1))];
      if j > 2 && rows[i][j - 2] != '#' {
        arms := arms + [Arm(p, PushArrive, Right, Pos(i, j - 2))];
      }
    }
  }

  /** The Down arms, inside `if j < width - 1` (lines 161-172). */
  method DownArmsAt(rows: seq<string>, width: nat, i: nat, j: nat) returns (arms: seq<Stmt>)
    requires Rectangular(rows, width) && i < |rows| && j < width - 1
    ensures arms == DownArms(rows, width, Pos(i, j))
  {
    var p := Pos(i, j);
    var height := |rows|;
    arms := [];
    if i < height - 1 {
      if rows[i + 1][j] != '#' {
        arms := arms + [Arm(p, Leave, Down, p)];
      }
      if i > 1 && rows[i - 1][j] != '#' {
        arms := arms + [Arm(p, Arrive, Down, Pos(i - 1, j))];
        if i > 2 && rows[i - 2][j] != '#' {
          arms := arms + [Arm(p, PushArrive, Down, Pos(i - 2, j))];
        }
      }
    }
  }
}
