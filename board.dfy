/**
 * The XSB board as the encoder reads it: rows of glyphs, the seven-entry
 * glyph table, board positions, the four directions and the row-major order
 * in which the encoder's nested loops visit the cells.
 */
module Board {
  import opened Common

  /** The seven cell values of the emitted `board` variable, in the order they are declared. */
  datatype Tag = Wk | WkOnGoal | Box | BoxOnGoal | Wall | Goal | Floor

  /** The glyph table of `convert_xsb_to_smv`; `None` for a glyph the encoder rejects. */
  function GlyphTag(c: char): (t: Option<Tag>)
    ensures t.Some? <==> c in {'@', '+', '$', '*', '#', '.', '-'}
  {
    match c
    case '@' => Some(Wk)
    case '+' => Some(WkOnGoal)
    case '$' => Some(Box)
    case '*' => Some(BoxOnGoal)
    case '#' => Some(Wall)
    case '.' => Some(Goal)
    case '-' => Some(Floor)
    case _ => None
  }

  /** A tag whose cell is a goal square. */
  predicate OnGoal(t: Tag)
  {
    t in {Goal, WkOnGoal, BoxOnGoal}
  }

  /** What stands on a cell. */
  datatype Occupant = Vacant | Keeper | Crate | Solid

  function OccupantOf(t: Tag): Occupant
  {
    match t
    case Wk => Keeper
    case WkOnGoal => Keeper
    case Box => Crate
    case BoxOnGoal => Crate
    case Wall => Solid
    case Goal => Vacant
    case Floor => Vacant
  }

  /** The glyph an XSB file uses for each tag. */
  function TagGlyph(t: Tag): (c: char)
    ensures GlyphTag(c) == Some(t)
  {
    match t
    case Wk => '@'
    case WkOnGoal => '+'
    case Box => '$'
    case BoxOnGoal => '*'
    case Wall => '#'
    case Goal => '.'
    case Floor => '-'
  }

  /** The table is one-to-one: a glyph that maps to a tag is that tag's glyph. */
  lemma GlyphTagInjective(c: char)
    ensures GlyphTag(c).Some? ==> TagGlyph(GlyphTag(c).value) == c
  {
  }

  /** The glyphs whose cells make up the win condition. */
  predicate IsGoalGlyph(c: char)
  {
    c in {'.', '+', '*'}
  }

  /** A goal glyph is exactly one whose tag lies on a goal. */
  lemma GoalGlyphIsGoalTag(c: char)
    ensures IsGoalGlyph(c) <==> GlyphTag(c) in {Some(Goal), Some(WkOnGoal), Some(BoxOnGoal)}
  {
  }

  datatype Pos = Pos(row: nat, col: nat)

  /** The four directions, in the priority order the transition cases use. */
  datatype Dir = Left | Up | Right | Down

  function DirRank(d: Dir): nat
  {
    match d
    case Left => 0
    case Up => 1
    case Right => 2
    case Down => 3
  }

  function Opposite(d: Dir): Dir
  {
    match d
    case Left => Right
    case Up => Down
    case Right => Left
    case Down => Up
  }

  predicate InGrid(p: Pos, h: nat, w: nat)
  {
    p.row < h && p.col < w
  }

  /** The cell `k` steps from `p` in direction `d`, when both lie on an `h` by `w` board. */
  function Neighbor(p: Pos, d: Dir, k: nat, h: nat, w: nat): (q: Option<Pos>)
    ensures q.Some? ==> InGrid(q.value, h, w)
  {
    if !InGrid(p, h, w) then None
    else match d
      case Left => if k <= p.col then Some(Pos(p.row, p.col - k)) else None
      case Up => if k <= p.row then Some(Pos(p.row - k, p.col)) else None
      case Right => if p.col + k < w then Some(Pos(p.row, p.col + k)) else None
      case Down => if p.row + k < h then Some(Pos(p.row + k, p.col)) else None
  }

  /** Stepping back against `d` and then forward along `d` returns to the start. */
  lemma NeighborOpposite(p: Pos, d: Dir, k: nat, h: nat, w: nat)
    ensures Neighbor(p, Opposite(d), k, h, w).Some? ==>
      Neighbor(Neighbor(p, Opposite(d), k, h, w).value, d, k, h, w) == Some(p)
  {
  }

  /** Stepping along `d` and then back against `d` returns to the start. */
  lemma NeighborBack(p: Pos, d: Dir, k: nat, h: nat, w: nat)
    ensures Neighbor(p, d, k, h, w).Some? ==>
      Neighbor(Neighbor(p, d, k, h, w).value, Opposite(d), k, h, w) == Some(p)
  {
  }

  /** The glyph at row `i`, column `j`; outside the text it reads as a wall. */
  function At(rows: seq<string>, i: int, j: int): char
  {
    if 0 <= i < |rows| && 0 <= j < |rows[i]| then rows[i][j] else '#'
  }

  /** The glyph at `(i, j)` is not `'#'` (the encoder's `rows[i][j] != '#'`). */
  predicate Open(rows: seq<string>, i: int, j: int)
  {
    At(rows, i, j) != '#'
  }

  /** Every row has exactly `w` glyphs. */
  predicate Rectangular(rows: seq<string>, w: nat)
  {
    forall k :: 0 <= k < |rows| ==> |rows[k]| == w
  }

  /** Python's `max(len(row) for row in rows)`. */
  function MaxLen(rows: seq<string>): (w: nat)
    ensures forall k :: 0 <= k < |rows| ==> |rows[k]| <= w
    ensures |rows| > 0 ==> exists k :: 0 <= k < |rows| && |rows[k]| == w
  {
    if rows == [] then 0
    else
      var rest := MaxLen(rows[1..]);
      assert forall k :: 1 <= k < |rows| ==> rows[k] == rows[1..][k - 1];
      if |rows[0]| >= rest then |rows[0]| else rest
  }

  /** Position `p` comes strictly before `q` in row-major order. */
  predicate Before(p: Pos, q: Pos)
  {
    p.row < q.row || (p.row == q.row && p.col < q.col)
  }

  /** Strictly increasing in row-major order: hence ordered and free of repeats. */
  predicate RowMajor(s: seq<Pos>)
  {
    forall a, b :: 0 <= a < b < |s| ==> Before(s[a], s[b])
  }

  /** The cells `(i, 0) .. (i, n - 1)`, as `for j in range(n)` visits them. */
  function RowCells(i: nat, n: nat): (cells: seq<Pos>)
    ensures |cells| == n
    ensures forall k :: 0 <= k < n ==> cells[k] == Pos(i, k)
  {
    if n == 0 then [] else RowCells(i, n - 1) + [Pos(i, n - 1)]
  }

  /** The cells of `rows[..k]` in the order `enumerate(rows)`, `enumerate(row)` visits them. */
  function CellsOf(rows: seq<string>, k: nat): seq<Pos>
    requires k <= |rows|
  {
    if k == 0 then [] else CellsOf(rows, k - 1) + RowCells(k - 1, |rows[k - 1]|)
  }

  /** The cells of `range(k)` by `range(w)`, in the order the nested loops visit them. */
  function GridCells(w: nat, k: nat): seq<Pos>
  {
    if k == 0 then [] else GridCells(w, k - 1) + RowCells(k - 1, w)
  }

  /** On a rectangular board both loop orders visit the same cells. */
  lemma {:induction false} CellsOfRectangular(rows: seq<string>, w: nat, k: nat)
    requires Rectangular(rows, w) && k <= |rows|
    ensures CellsOf(rows, k) == GridCells(w, k)
  {
    if k > 0 {
      CellsOfRectangular(rows, w, k - 1);
    }
  }

  /** The grid enumeration holds exactly the cells of the board. */
  lemma {:induction false} GridCellsMembers(w: nat, k: nat, p: Pos)
    ensures p in GridCells(w, k) <==> InGrid(p, k, w)
  {
    if k > 0 {
      GridCellsMembers(w, k - 1, p);
      AppendRowMembers(GridCells(w, k - 1), k - 1, w, p);
    }
  }

  /** The grid enumeration is strictly increasing in row-major order. */
  lemma {:induction false} GridCellsRowMajor(w: nat, k: nat)
    ensures RowMajor(GridCells(w, k))
    ensures forall a :: 0 <= a < |GridCells(w, k)| ==> GridCells(w, k)[a].row < k
  {
    if k > 0 {
      GridCellsRowMajor(w, k - 1);
      RowMajorAppendRow(GridCells(w, k - 1), k - 1, w);
    }
  }

  /** Appending row `i` to cells of the rows above it keeps row-major order. */
  lemma RowMajorAppendRow(prev: seq<Pos>, i: nat, n: nat)
    requires RowMajor(prev) && forall a :: 0 <= a < |prev| ==> prev[a].row < i
    ensures RowMajor(prev + RowCells(i, n))
    ensures forall a :: 0 <= a < |prev + RowCells(i, n)| ==> (prev + RowCells(i, n))[a].row < i + 1
  {
    var row := RowCells(i, n);
    var all := prev + row;
    assert forall a :: |prev| <= a < |all| ==> all[a] == row[a - |prev|];
    assert forall a :: 0 <= a < |prev| ==> all[a] == prev[a];
  }

  /** A cell is in `prev` followed by row `i` when it is in `prev` or is one of the row's `n` cells. */
  lemma AppendRowMembers(prev: seq<Pos>, i: nat, n: nat, p: Pos)
    ensures p in prev + RowCells(i, n) <==> p in prev || (p.row == i && p.col < n)
  {
    if p.row == i && p.col < n {
      assert RowCells(i, n)[p.col] == p;
    }
  }

  /** The enumeration holds exactly the cells of the text: row `i` has `|rows[i]|` of them. */
  lemma {:induction false} CellsOfMembers(rows: seq<string>, k: nat, p: Pos)
    requires k <= |rows|
    ensures p in CellsOf(rows, k) <==> p.row < k && p.col < |rows[p.row]|
  {
    if k > 0 {
      var prev, n := CellsOf(rows, k - 1), |rows[k - 1]|;
      CellsOfMembers(rows, k - 1, p);
      assert CellsOf(rows, k) == prev + RowCells(k - 1, n);
      AppendRowMembers(prev, k - 1, n, p);
      assert p.row == k - 1 ==> |rows[p.row]| == n;
    }
  }

  /** The enumeration is strictly increasing in row-major order. */
  lemma {:induction false} CellsOfRowMajor(rows: seq<string>, k: nat)
    requires k <= |rows|
    ensures RowMajor(CellsOf(rows, k))
    ensures forall a :: 0 <= a < |CellsOf(rows, k)| ==> CellsOf(rows, k)[a].row < k
  {
    if k > 0 {
      var prev, n := CellsOf(rows, k - 1), |rows[k - 1]|;
      CellsOfRowMajor(rows, k - 1);
      assert CellsOf(rows, k) == prev + RowCells(k - 1, n);
      RowMajorAppendRow(prev, k - 1, n);
    }
  }

  /** `CellsOf` grows by extension: an earlier enumeration is a prefix of a later one. */
  lemma {:induction false} CellsOfPrefix(rows: seq<string>, i: nat, k: nat)
    requires i <= k <= |rows|
    ensures CellsOf(rows, i) <= CellsOf(rows, k)
    decreases k - i
  {
    if i < k {
      CellsOfPrefix(rows, i, k - 1);
    }
  }

  /** The cells visited before `(i, j)`, followed by `(i, j)`, start the full enumeration. */
  lemma CellsUpToPrefix(rows: seq<string>, i: nat, j: nat)
    requires i < |rows| && j < |rows[i]|
    ensures CellsOf(rows, i) + RowCells(i, j) + [Pos(i, j)] <= CellsOf(rows, |rows|)
  {
    CellsOfPrefix(rows, i + 1, |rows|);
    assert CellsOf(rows, i + 1) == CellsOf(rows, i) + RowCells(i, |rows[i]|);
    assert RowCells(i, j + 1) <= RowCells(i, |rows[i]|);
    assert CellsOf(rows, i) + RowCells(i, j) + [Pos(i, j)] == CellsOf(rows, i) + RowCells(i, j + 1);
  }

  /** A rectangular prefix stays rectangular when the next row has the same width. */
  lemma RectangularExtend(rows: seq<string>, w: nat, i: nat)
    requires i < |rows| && Rectangular(rows[..i], w) && |rows[i]| == w
    ensures Rectangular(rows[..i + 1], w)
  {
    assert forall k :: 0 <= k < i ==> rows[..i + 1][k] == rows[..i][k];
  }

  /** A prefix followed by the rest is the whole. */
  lemma PrefixRest(a: seq<Pos>, b: seq<Pos>)
    requires a <= b
    ensures b == a + b[|a|..]
  {
    assert forall k :: 0 <= k < |a| ==> b[k] == a[k];
  }
}
