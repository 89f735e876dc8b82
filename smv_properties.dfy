/**
 * What is proved about the statements `convert_xsb_to_smv` emits: the error
 * paths, one `init` line per glyph in row-major order, the exact conditions
 * of the `DEFINE` predicates, the priority order and the guards of the
 * transition arms (including where the source's bounds leave arms out), one
 * closing default per cell, and the win condition over the goal cells.
 */
module SmvProperties {
  import opened Common
  import opened Strings
  import opened Board
  import opened Smv

  // ---------------------------------------------------------------------------
  // Generic facts about the cell-by-cell building blocks
  // ---------------------------------------------------------------------------

  /** A statement is emitted for the cells exactly when some cell's part holds it. */
  lemma {:induction false} ConcatMapMember(f: Pos -> seq<Stmt>, cells: seq<Pos>, x: Stmt)
    ensures x in ConcatMap(f, cells) <==> exists c :: c in cells && x in f(c)
    decreases |cells|
  {
    if cells != [] {
      var init, last := cells[..|cells| - 1], cells[|cells| - 1];
      ConcatMapMember(f, init, x);
      assert cells == init + [last];
      if x in ConcatMap(f, cells) {
        if x !in f(last) {
          var c :| c in init && x in f(c);
          assert c in cells;
        }
      } else {
        forall c | c in cells
          ensures x !in f(c)
        {
          if c != last {
            assert c in init;
          }
        }
      }
    }
  }

  /** `Filter` keeps exactly the cells `f` accepts. */
  lemma {:induction false} FilterMembers(f: Pos -> bool, s: seq<Pos>, x: Pos)
    ensures x in Filter(f, s) <==> x in s && f(x)
    decreases |s|
  {
    if s != [] {
      var init := s[..|s| - 1];
      FilterMembers(f, init, x);
      assert s == init + [s[|s| - 1]];
    }
  }

  /** `Filter` drops everything exactly when no cell is accepted. */
  lemma {:induction false} FilterNone(f: Pos -> bool, s: seq<Pos>)
    ensures Filter(f, s) == [] <==> forall k :: 0 <= k < |s| ==> !f(s[k])
    decreases |s|
  {
    if s != [] {
      var init := s[..|s| - 1];
      FilterNone(f, init);
      assert forall k :: 0 <= k < |init| ==> init[k] == s[k];
    }
  }

  /** The first cell `Filter` keeps is the first accepted cell of `s`. */
  lemma {:induction false} FilterHead(f: Pos -> bool, s: seq<Pos>)
    ensures Filter(f, s) != [] ==>
      exists k0 :: 0 <= k0 < |s| && Filter(f, s)[0] == s[k0] && f(s[k0]) && forall k :: 0 <= k < k0 ==> !f(s[k])
    decreases |s|
  {
    if s != [] {
      var init := s[..|s| - 1];
      FilterHead(f, init);
      FilterNone(f, init);
      assert forall k :: 0 <= k < |init| ==> init[k] == s[k];
      if Filter(f, init) == [] && f(s[|s| - 1]) {
        assert Filter(f, s)[0] == s[|s| - 1];
      }
    }
  }

  /** Keeping some cells of a row-major enumeration leaves it row-major. */
  lemma {:induction false} FilterRowMajor(f: Pos -> bool, s: seq<Pos>)
    requires RowMajor(s)
    ensures RowMajor(Filter(f, s))
    decreases |s|
  {
    if s != [] {
      var init, last := s[..|s| - 1], s[|s| - 1];
      assert forall a, b :: 0 <= a < b < |init| ==> init[a] == s[a] && init[b] == s[b];
      FilterRowMajor(f, init);
      var kept := Filter(f, init);
      if f(last) {
        forall x | x in kept
          ensures Before(x, last)
        {
          FilterMembers(f, init, x);
          var a :| 0 <= a < |init| && init[a] == x;
          assert s[a] == x;
        }
        var all := kept + [last];
        forall a, b | 0 <= a < b < |all|
          ensures Before(all[a], all[b])
        {
          if b == |kept| {
            assert all[a] in kept;
          } else {
            assert all[a] == kept[a] && all[b] == kept[b];
          }
        }
      }
    }
  }

  // ---------------------------------------------------------------------------
  // The init section and the error paths (lines 35-52, 61)
  // ---------------------------------------------------------------------------

  /** Every glyph of the text is in the seven-entry table. */
  predicate KnownGlyphs(rows: seq<string>)
  {
    forall i, j :: 0 <= i < |rows| && 0 <= j < |rows[i]| ==> GlyphTag(rows[i][j]).Some?
  }

  /** The glyph of a cell of the enumeration, by its tag. */
  function TagAt(rows: seq<string>, p: Pos): Option<Tag>
  {
    GlyphTag(At(rows, p.row, p.col))
  }

  /** For cells whose glyphs are all known, one `init` line per cell, in the cells' order. */
  lemma {:induction false} InitsOfKnownGlyphs(rows: seq<string>, w: nat, cells: seq<Pos>)
    requires forall k :: 0 <= k < |cells| ==> TagAt(rows, cells[k]).Some?
    ensures |Emit(Inits, rows, w, cells)| == |cells|
    ensures forall k :: 0 <= k < |cells| ==> Emit(Inits, rows, w, cells)[k] == InitCell(cells[k], TagAt(rows, cells[k]).value)
    decreases |cells|
  {
    if cells != [] {
      var init, last := cells[..|cells| - 1], cells[|cells| - 1];
      assert forall k :: 0 <= k < |init| ==> init[k] == cells[k];
      InitsOfKnownGlyphs(rows, w, init);
      assert Emit(Inits, rows, w, cells) == Emit(Inits, rows, w, init) + [InitCell(last, TagAt(rows, last).value)];
    }
  }

  /**
   * The init section succeeds exactly when every glyph is in the table, and then
   * holds one `init` line per glyph of the text, with that glyph's tag, in
   * row-major order.
   */
  lemma InitSectionLines(rows: seq<string>)
    ensures InitSection(rows).Ok? <==> KnownGlyphs(rows)
    ensures InitSection(rows).Ok? ==>
      var s, cells := InitSection(rows).value, CellsOf(rows, |rows|);
      && RowMajor(cells)
      && (forall p: Pos :: p in cells <==> p.row < |rows| && p.col < |rows[p.row]|)
      && |s| == |cells|
      && forall k :: 0 <= k < |s| ==> s[k] == InitCell(cells[k], TagAt(rows, cells[k]).value)
  {
    var cells := CellsOf(rows, |rows|);
    var f := SelectorOf(BadGlyph, rows);
    CellsOfRowMajor(rows, |rows|);
    forall p: Pos
      ensures p in cells <==> p.row < |rows| && p.col < |rows[p.row]|
    {
      CellsOfMembers(rows, |rows|, p);
    }
    FilterNone(f, cells);
    if KnownGlyphs(rows) {
      forall k | 0 <= k < |cells|
        ensures !f(cells[k])
      {
        assert cells[k] in cells;
      }
    } else {
      var i, j :| 0 <= i < |rows| && 0 <= j < |rows[i]| && GlyphTag(rows[i][j]).None?;
      assert Pos(i, j) in cells;
      var k :| 0 <= k < |cells| && cells[k] == Pos(i, j);
      assert f(cells[k]);
    }
    if InitSection(rows).Ok? {
      InitsOfKnownGlyphs(rows, MaxLen(rows), cells);
    }
  }

  /**
   * When the init section fails, it reports the first unknown glyph in
   * row-major order: its glyph and position, with every earlier glyph known.
   */
  lemma InitSectionError(rows: seq<string>)
    ensures InitSection(rows).Err? ==>
      var e := InitSection(rows).error;
      && e.UnexpectedChar?
      && e.row < |rows| && e.col < |rows[e.row]| && e.glyph == rows[e.row][e.col]
      && GlyphTag(e.glyph).None?
      && forall p: Pos :: p.row < |rows| && p.col < |rows[p.row]| && Before(p, Pos(e.row, e.col)) ==>
           GlyphTag(rows[p.row][p.col]).Some?
  {
    FirstBadCell(rows);
  }

  /** The first cell the `ValueError` scan selects: an unknown glyph, with every earlier glyph known. */
  lemma FirstBadCell(rows: seq<string>)
    ensures var bad := Select(BadGlyph, rows, CellsOf(rows, |rows|));
      bad != [] ==>
        var q := bad[0];
        && q.row < |rows| && q.col < |rows[q.row]| && GlyphTag(rows[q.row][q.col]).None?
        && forall p: Pos :: p.row < |rows| && p.col < |rows[p.row]| && Before(p, q) ==>
             GlyphTag(rows[p.row][p.col]).Some?
  {
    var cells := CellsOf(rows, |rows|);
    var f := SelectorOf(BadGlyph, rows);
    if Filter(f, cells) != [] {
      FilterHead(f, cells);
      var k0 :| 0 <= k0 < |cells| && Filter(f, cells)[0] == cells[k0] && f(cells[k0])
        && forall k :: 0 <= k < k0 ==> !f(cells[k]);
      CellsOfMembers(rows, |rows|, cells[k0]);
      CellsOfRowMajor(rows, |rows|);
      forall p: Pos | p.row < |rows| && p.col < |rows[p.row]| && Before(p, cells[k0])
        ensures GlyphTag(rows[p.row][p.col]).Some?
      {
        CellsOfMembers(rows, |rows|, p);
        NoneSelectedBefore(f, cells, k0, p);
      }
    }
  }

  /** In a row-major enumeration, a cell before the first selected one is not selected. */
  lemma NoneSelectedBefore(f: Pos -> bool, cells: seq<Pos>, k0: nat, p: Pos)
    requires RowMajor(cells) && k0 < |cells| && forall k :: 0 <= k < k0 ==> !f(cells[k])
    requires p in cells && Before(p, cells[k0])
    ensures !f(p)
  {
    var k :| 0 <= k < |cells| && cells[k] == p;
  }

  /** The encoder's three outcomes, by the text's glyphs and row lengths. */
  lemma EncodeOutcomes(xsb: string)
    ensures var rows := Split(xsb, '\n');
      && (Encode(xsb).Err? && Encode(xsb).error.UnexpectedChar? <==> !KnownGlyphs(rows))
      && (Encode(xsb) == Err(IndexError) <==>
            KnownGlyphs(rows) && exists k :: 0 <= k < |rows| && |rows[k]| < MaxLen(rows))
      && (Encode(xsb).Ok? <==> KnownGlyphs(rows) && Rectangular(rows, MaxLen(rows)))
  {
    var rows := Split(xsb, '\n');
    InitSectionLines(rows);
    InitSectionError(rows);
  }

  /**
   * The frame of the emitted model: the preamble declares the board as
   * `0..height-1` by `0..width-1` with `width` the longest row, the shift
   * variables are initialised and stepped by the push table, and the
   * specification comes last.
   */
  lemma EncodeFrame(xsb: string)
    ensures Encode(xsb).Ok? ==>
      var rows := Split(xsb, '\n');
      Framed(Encode(xsb).value, |rows|, MaxLen(rows), GoalCells(rows))
  {
    if Encode(xsb).Ok? {
      var rows := Split(xsb, '\n');
      var w := MaxLen(rows);
      EncodeParts(xsb);
      ModelLayout(|rows|, w, InitSection(rows).value, DefineSection(rows, w).value,
                  CaseSection(rows, w), GoalCells(rows));
    }
  }

  /**
   * The model's fixed statements: it opens with the module header and
   * declares the board as `0..h-1` by `0..w-1`, initialises and steps the
   * shift variables by the push table, and closes with the specification
   * over `goals`.
   */
  predicate Framed(s: seq<Stmt>, h: nat, w: nat, goals: seq<Pos>)
  {
    && |s| >= 8
    && s[0] == ModuleHeader && s[1] == DeclBoard(h - 1, w - 1) && s[2] == DeclShifts && s[3] == AssignHeader
    && InitShifts in s && NextShifts(PushTable) in s
    && s[|s| - 1] == Spec(goals)
  }

  /** A successful encoding is the concatenation of its sections. */
  lemma EncodeParts(xsb: string)
    ensures Encode(xsb).Ok? ==>
      var rows := Split(xsb, '\n');
      var w := MaxLen(rows);
      && InitSection(rows).Ok? && DefineSection(rows, w).Ok?
      && Encode(xsb).value
         == Preamble(|rows|, w) + InitSection(rows).value + [InitShifts, DefineHeader] + DefineSection(rows, w).value
            + [AssignHeader, NextShifts(PushTable)] + CaseSection(rows, w) + [Spec(GoalCells(rows))]
  {
  }

  /** Where the fixed statements sit in the model's concatenation of sections. */
  lemma ModelLayout(h: nat, w: nat, inits: seq<Stmt>, defs: seq<Stmt>, cases: seq<Stmt>, goals: seq<Pos>)
    ensures Framed(Preamble(h, w) + inits + [InitShifts, DefineHeader] + defs
                   + [AssignHeader, NextShifts(PushTable)] + cases + [Spec(goals)], h, w, goals)
  {
    var pre := Preamble(h, w);
    var a := pre + inits + [InitShifts, DefineHeader];
    var b := a + defs + [AssignHeader, NextShifts(PushTable)];
    var s := b + cases + [Spec(goals)];
    assert s[|pre| + |inits|] == InitShifts;
    assert s[|a| + |defs| + 1] == NextShifts(PushTable);
  }

  /** `next(shift_push)` maps each move symbol to its push symbol and anything else to `0`. */
  lemma PushTableIsMoveToPush(m: char)
    ensures forall d :: Lookup(PushTable, MoveSymbol(d)) == Some(PushSymbol(d))
    ensures (forall d :: m != MoveSymbol(d)) ==> Lookup(PushTable, m) == None
  {
    if forall d :: m != MoveSymbol(d) {
      assert m != MoveSymbol(Left) && m != MoveSymbol(Up) && m != MoveSymbol(Right) && m != MoveSymbol(Down);
      var t1 := PushTable[1..];
      var t2 := t1[1..];
      var t3 := t2[1..];
      assert Lookup(PushTable, m) == Lookup(t1, m) == Lookup(t2, m) == Lookup(t3, m) == Lookup(t3[1..], m);
      assert t3[1..] == [];
    }
  }

  // ---------------------------------------------------------------------------
  // The win condition (lines 100-102, 177)
  // ---------------------------------------------------------------------------

  /**
   * The win condition ranges over exactly the cells whose glyph is `.`, `+` or
   * `*`, in row-major order; with none it is empty.
   */
  lemma GoalCellsExact(rows: seq<string>)
    ensures forall p: Pos :: p in GoalCells(rows) <==>
      p.row < |rows| && p.col < |rows[p.row]| && IsGoalGlyph(rows[p.row][p.col])
    ensures RowMajor(GoalCells(rows))
    ensures GoalCells(rows) == [] <==>
      forall i, j :: 0 <= i < |rows| && 0 <= j < |rows[i]| ==> !IsGoalGlyph(rows[i][j])
  {
    forall p: Pos
      ensures p in GoalCells(rows) <==> p.row < |rows| && p.col < |rows[p.row]| && IsGoalGlyph(rows[p.row][p.col])
    {
      GoalCellMember(rows, p);
    }
    CellsOfRowMajor(rows, |rows|);
    FilterRowMajor(SelectorOf(GoalGlyph, rows), CellsOf(rows, |rows|));
    if GoalCells(rows) != [] {
      var p := GoalCells(rows)[0];
      assert p in GoalCells(rows);
    } else {
      forall i, j | 0 <= i < |rows| && 0 <= j < |rows[i]|
        ensures !IsGoalGlyph(rows[i][j])
      {
        assert Pos(i, j) !in GoalCells(rows);
      }
    }
  }

  lemma GoalCellMember(rows: seq<string>, p: Pos)
    ensures p in GoalCells(rows) <==> p.row < |rows| && p.col < |rows[p.row]| && IsGoalGlyph(rows[p.row][p.col])
  {
    FilterMembers(SelectorOf(GoalGlyph, rows), CellsOf(rows, |rows|), p);
    CellsOfMembers(rows, |rows|, p);
  }

  // ---------------------------------------------------------------------------
  // The DEFINE predicates (lines 59-95)
  // ---------------------------------------------------------------------------

  /** A cell's `DEFINE` lines are move and push predicates of that cell. */
  lemma CellDefsShape(rows: seq<string>, w: nat, p: Pos, x: Stmt)
    requires x in CellDefs(rows, w, p)
    ensures (x.MoveDef? || x.PushDef?) && x.at == p
  {
    var l, u, r, dn := LeftDefs(rows, p), UpDefs(rows, p), RightDefs(rows, w, p), DownDefs(rows, p);
    assert CellDefs(rows, w, p) == l + u + r + dn;
    if x in l {
    } else if x in u {
    } else if x in r {
    } else {
      assert x in dn;
    }
  }

  /** The `DEFINE` lines of one direction's block, Left to Down. */
  function DirDefs(rows: seq<string>, w: nat, p: Pos, d: Dir): seq<Stmt>
  {
    match d
    case Left => LeftDefs(rows, p)
    case Up => UpDefs(rows, p)
    case Right => RightDefs(rows, w, p)
    case Down => DownDefs(rows, p)
  }

  /**
   * The predicates direction `d` defines at cell `p`: the move when the
   * neighbour one step away is on the board and not `'#'`, and the push when
   * the cell two steps away is on the board and not `'#'` as well.
   */
  predicate DefinedAs(rows: seq<string>, w: nat, p: Pos, d: Dir, x: Stmt)
  {
    var n1, n2 := Neighbor(p, d, 1, |rows|, w), Neighbor(p, d, 2, |rows|, w);
    && n1.Some? && Open(rows, n1.value.row, n1.value.col)
    && (|| x == MoveDef(d, p, n1.value)
        || (n2.Some? && Open(rows, n2.value.row, n2.value.col) && x == PushDef(d, p, n1.value, n2.value)))
  }

  lemma DirDefsMembers(rows: seq<string>, w: nat, p: Pos, d: Dir, x: Stmt)
    requires InGrid(p, |rows|, w)
    ensures x in DirDefs(rows, w, p, d) <==> DefinedAs(rows, w, p, d, x)
  {
    match d
    case Left => LeftDefsMembers(rows, w, p, x);
    case Up => UpDefsMembers(rows, w, p, x);
    case Right => RightDefsMembers(rows, w, p, x);
    case Down => DownDefsMembers(rows, w, p, x);
  }

  lemma LeftDefsMembers(rows: seq<string>, w: nat, p: Pos, x: Stmt)
    requires InGrid(p, |rows|, w)
    ensures x in LeftDefs(rows, p) <==> DefinedAs(rows, w, p, Left, x)
  {
  }

  lemma UpDefsMembers(rows: seq<string>, w: nat, p: Pos, x: Stmt)
    requires InGrid(p, |rows|, w)
    ensures x in UpDefs(rows, p) <==> DefinedAs(rows, w, p, Up, x)
  {
  }

  lemma RightDefsMembers(rows: seq<string>, w: nat, p: Pos, x: Stmt)
    requires InGrid(p, |rows|, w)
    ensures x in RightDefs(rows, w, p) <==> DefinedAs(rows, w, p, Right, x)
  {
  }

  lemma DownDefsMembers(rows: seq<string>, w: nat, p: Pos, x: Stmt)
    requires InGrid(p, |rows|, w)
    ensures x in DownDefs(rows, p) <==> DefinedAs(rows, w, p, Down, x)
  {
  }

  /** An open cell defines exactly what its four blocks define. */
  lemma CellDefsMembers(rows: seq<string>, w: nat, p: Pos, x: Stmt)
    requires InGrid(p, |rows|, w)
    ensures x in CellDefs(rows, w, p) <==>
      Open(rows, p.row, p.col) && exists d :: DefinedAs(rows, w, p, d, x)
  {
    if Open(rows, p.row, p.col) {
      var l, u, r, dn := LeftDefs(rows, p), UpDefs(rows, p), RightDefs(rows, w, p), DownDefs(rows, p);
      assert CellDefs(rows, w, p) == l + u + r + dn;
      if x in CellDefs(rows, w, p) {
        if x in l {
          LeftDefsMembers(rows, w, p, x);
        } else if x in u {
          UpDefsMembers(rows, w, p, x);
        } else if x in r {
          RightDefsMembers(rows, w, p, x);
        } else {
          DownDefsMembers(rows, w, p, x);
        }
      } else {
        forall d | true
          ensures !DefinedAs(rows, w, p, d, x)
        {
          DirDefsMembers(rows, w, p, d, x);
        }
      }
    }
  }

  /**
   * `<Dir>_valid[p]` is defined, with its target `q`, exactly when `p` and the
   * neighbour `q` one step in that direction are both on the board and neither
   * is `'#'`.
   */
  lemma CellDefsMove(rows: seq<string>, w: nat, p: Pos, d: Dir, a: Pos, q: Pos)
    requires InGrid(p, |rows|, w)
    ensures MoveDef(d, a, q) in CellDefs(rows, w, p) <==>
      a == p && Open(rows, p.row, p.col) && Neighbor(p, d, 1, |rows|, w) == Some(q) && Open(rows, q.row, q.col)
  {
    var x := MoveDef(d, a, q);
    CellDefsMembers(rows, w, p, x);
    if exists d' :: DefinedAs(rows, w, p, d', x) {
      var d' :| DefinedAs(rows, w, p, d', x);
      assert d' == d;
    }
    if a == p && Open(rows, p.row, p.col) && Neighbor(p, d, 1, |rows|, w) == Some(q) && Open(rows, q.row, q.col) {
      assert DefinedAs(rows, w, p, d, x);
    }
  }

  /**
   * `<Dir>_push_valid[p]` is defined, with box cell `b` and target `q`, exactly
   * when `p`, its neighbour `b` and the cell `q` two steps away are all on the
   * board and none is `'#'`.
   */
  lemma CellDefsPush(rows: seq<string>, w: nat, p: Pos, d: Dir, a: Pos, b: Pos, q: Pos)
    requires InGrid(p, |rows|, w)
    ensures PushDef(d, a, b, q) in CellDefs(rows, w, p) <==>
      && a == p && Open(rows, p.row, p.col)
      && Neighbor(p, d, 1, |rows|, w) == Some(b) && Open(rows, b.row, b.col)
      && Neighbor(p, d, 2, |rows|, w) == Some(q) && Open(rows, q.row, q.col)
  {
    var x := PushDef(d, a, b, q);
    CellDefsMembers(rows, w, p, x);
    if exists d' :: DefinedAs(rows, w, p, d', x) {
      var d' :| DefinedAs(rows, w, p, d', x);
      assert d' == d;
    }
    if && a == p && Open(rows, p.row, p.col)
       && Neighbor(p, d, 1, |rows|, w) == Some(b) && Open(rows, b.row, b.col)
       && Neighbor(p, d, 2, |rows|, w) == Some(q) && Open(rows, q.row, q.col) {
      assert DefinedAs(rows, w, p, d, x);
    }
  }

  /** The whole `DEFINE` section holds exactly the predicates of the cells of the board. */
  lemma DefineSectionMembers(rows: seq<string>, w: nat)
    ensures DefineSection(rows, w).Ok? ==>
      var defs := DefineSection(rows, w).value;
      && (forall x :: x in defs ==> x.MoveDef? || x.PushDef?)
      && (forall d, a, q :: MoveDef(d, a, q) in defs <==>
            InGrid(a, |rows|, w) && Open(rows, a.row, a.col)
            && Neighbor(a, d, 1, |rows|, w) == Some(q) && Open(rows, q.row, q.col))
      && (forall d, a, b, q :: PushDef(d, a, b, q) in defs <==>
            && InGrid(a, |rows|, w) && Open(rows, a.row, a.col)
            && Neighbor(a, d, 1, |rows|, w) == Some(b) && Open(rows, b.row, b.col)
            && Neighbor(a, d, 2, |rows|, w) == Some(q) && Open(rows, q.row, q.col))
  {
    if DefineSection(rows, w).Ok? {
      var f := ChunkOf(Defines, rows, w);
      var grid := GridCells(w, |rows|);
      forall x | x in Emit(Defines, rows, w, grid)
        ensures x.MoveDef? || x.PushDef?
      {
        ConcatMapMember(f, grid, x);
        var c :| c in grid && x in f(c);
        CellDefsShape(rows, w, c, x);
      }
      forall d, a, q
        ensures MoveDef(d, a, q) in Emit(Defines, rows, w, grid) <==>
          InGrid(a, |rows|, w) && Open(rows, a.row, a.col)
          && Neighbor(a, d, 1, |rows|, w) == Some(q) && Open(rows, q.row, q.col)
      {
        var x := MoveDef(d, a, q);
        ConcatMapMember(f, grid, x);
        GridCellsMembers(w, |rows|, a);
        if x in Emit(Defines, rows, w, grid) {
          var c :| c in grid && x in f(c);
          CellDefsShape(rows, w, c, x);
          GridCellsMembers(w, |rows|, c);
          CellDefsMove(rows, w, c, d, a, q);
        } else if InGrid(a, |rows|, w) {
          CellDefsMove(rows, w, a, d, a, q);
          assert x !in f(a);
        }
      }
      forall d, a, b, q
        ensures PushDef(d, a, b, q) in Emit(Defines, rows, w, grid) <==>
          && InGrid(a, |rows|, w) && Open(rows, a.row, a.col)
          && Neighbor(a, d, 1, |rows|, w) == Some(b) && Open(rows, b.row, b.col)
          && Neighbor(a, d, 2, |rows|, w) == Some(q) && Open(rows, q.row, q.col)
      {
        var x := PushDef(d, a, b, q);
        ConcatMapMember(f, grid, x);
        GridCellsMembers(w, |rows|, a);
        if x in Emit(Defines, rows, w, grid) {
          var c :| c in grid && x in f(c);
          CellDefsShape(rows, w, c, x);
          GridCellsMembers(w, |rows|, c);
          CellDefsPush(rows, w, c, d, a, b, q);
        } else if InGrid(a, |rows|, w) {
          CellDefsPush(rows, w, a, d, a, b, q);
          assert x !in f(a);
        }
      }
    }
  }

  // ---------------------------------------------------------------------------
  // The transition arms (lines 116-175)
  // ---------------------------------------------------------------------------

  /** The arms of one direction's block, Left to Down. */
  function DirArms(rows: seq<string>, w: nat, p: Pos, d: Dir): seq<Stmt>
  {
    match d
    case Left => LeftArms(rows, w, p)
    case Up => UpArms(rows, p)
    case Right => RightArms(rows, w, p)
    case Down => DownArms(rows, w, p)
  }

  /** The source's bound on a leave arm: a Down arm only left of the last column. */
  predicate LeaveWindow(d: Dir, p: Pos, w: nat)
  {
    d == Down ==> p.col + 1 < w
  }

  /**
   * The source's bounds on an arrive arm, by the cell `r` the keeper comes from:
   * `r` must keep one more cell of margin than the board needs (lines 127,
   * 140, 153, 166), and a Down arm must lie left of the last column.
   */
  predicate ArriveWindow(d: Dir, r: Pos, h: nat, w: nat)
  {
    match d
    case Left => 1 < r.col && r.col + 1 < w
    case Up => 1 < r.row && r.row + 1 < h
    case Right => 0 < r.col && r.col + 2 < w
    case Down => 0 < r.row && r.row + 2 < h && r.col + 1 < w
  }

  /** The source's bounds on a push arm, by the cell `r` the keeper pushes from (lines 129, 142, 155, 169). */
  predicate PushWindow(d: Dir, r: Pos, h: nat, w: nat)
  {
    match d
    case Left => 2 < r.col && r.col + 1 < w
    case Up => 2 < r.row && r.row + 1 < h
    case Right => 0 < r.col && r.col + 3 < w
    case Down => 0 < r.row && r.row + 3 < h && r.col + 1 < w
  }

  /**
   * The arms direction `d` gives the open cell `p`: it leaves when the next
   * cell in `d` is not `'#'`; the keeper arrives from the cell behind `p`, and
   * a box is pushed in by a keeper two cells behind, when those are not `'#'`
   * and lie within the source's bounds; the push only together with the arrive.
   */
  predicate ArmedAs(rows: seq<string>, w: nat, p: Pos, d: Dir, x: Stmt)
  {
    var h := |rows|;
    var n1 := Neighbor(p, d, 1, h, w);
    var b1, b2 := Neighbor(p, Opposite(d), 1, h, w), Neighbor(p, Opposite(d), 2, h, w);
    || (x == Arm(p, Leave, d, p) && n1.Some? && Open(rows, n1.value.row, n1.value.col) && LeaveWindow(d, p, w))
    || (&& b1.Some? && Open(rows, b1.value.row, b1.value.col) && ArriveWindow(d, b1.value, h, w)
        && (|| x == Arm(p, Arrive, d, b1.value)
            || (&& b2.Some? && Open(rows, b2.value.row, b2.value.col) && PushWindow(d, b2.value, h, w)
                && x == Arm(p, PushArrive, d, b2.value))))
  }

  lemma DirArmsMembers(rows: seq<string>, w: nat, p: Pos, d: Dir, x: Stmt)
    requires InGrid(p, |rows|, w)
    ensures x in DirArms(rows, w, p, d) <==> ArmedAs(rows, w, p, d, x)
  {
    match d
    case Left => LeftArmsMembers(rows, w, p, x);
    case Up => UpArmsMembers(rows, w, p, x);
    case Right => RightArmsMembers(rows, w, p, x);
    case Down => DownArmsMembers(rows, w, p, x);
  }

  lemma LeftArmsMembers(rows: seq<string>, w: nat, p: Pos, x: Stmt)
    requires InGrid(p, |rows|, w)
    ensures x in LeftArms(rows, w, p) <==> ArmedAs(rows, w, p, Left, x)
  {
  }

  lemma UpArmsMembers(rows: seq<string>, w: nat, p: Pos, x: Stmt)
    requires InGrid(p, |rows|, w)
    ensures x in UpArms(rows, p) <==> ArmedAs(rows, w, p, Up, x)
  {
  }

  lemma RightArmsMembers(rows: seq<string>, w: nat, p: Pos, x: Stmt)
    requires InGrid(p, |rows|, w)
    ensures x in RightArms(rows, w, p) <==> ArmedAs(rows, w, p, Right, x)
  {
  }

  lemma DownArmsMembers(rows: seq<string>, w: nat, p: Pos, x: Stmt)
    requires InGrid(p, |rows|, w)
    ensures x in DownArms(rows, w, p) <==> ArmedAs(rows, w, p, Down, x)
  {
  }

  /** A cell's arms are exactly what its four blocks give it; a wall cell has none. */
  lemma CellArmsMembers(rows: seq<string>, w: nat, p: Pos, x: Stmt)
    requires InGrid(p, |rows|, w)
    ensures x in CellArms(rows, w, p) <==>
      Open(rows, p.row, p.col) && exists d :: ArmedAs(rows, w, p, d, x)
  {
    if Open(rows, p.row, p.col) {
      var l, u, r, dn := LeftArms(rows, w, p), UpArms(rows, p), RightArms(rows, w, p), DownArms(rows, w, p);
      assert CellArms(rows, w, p) == l + u + (r + dn);
      if x in CellArms(rows, w, p) {
        if x in l {
          LeftArmsMembers(rows, w, p, x);
        } else if x in u {
          UpArmsMembers(rows, w, p, x);
        } else if x in r {
          RightArmsMembers(rows, w, p, x);
        } else {
          DownArmsMembers(rows, w, p, x);
        }
      } else {
        forall d | true
          ensures !ArmedAs(rows, w, p, d, x)
        {
          DirArmsMembers(rows, w, p, d, x);
        }
      }
    }
  }

  /** The predicate an arm's guard reads: the move or push predicate of its reference cell. */
  function GuardDef(x: Stmt, h: nat, w: nat): Option<Stmt>
  {
    match x
    case Arm(at, kind, d, r) =>
      (match kind
       case Leave => (match Neighbor(r, d, 1, h, w) case Some(q) => Some(MoveDef(d, r, q)) case None => None)
       case Arrive => Some(MoveDef(d, r, at))
       case PushArrive => (match Neighbor(r, d, 1, h, w) case Some(b) => Some(PushDef(d, r, b, at)) case None => None))
    case _ => None
  }

  /**
   * Every arm of a cell reads a predicate that the `DEFINE` section defines:
   * a leave arm its own cell's move, an arrive arm the move of the keeper one
   * step behind into this cell, a push arm the push of the keeper two steps
   * behind, whose box lands on this cell.
   */
  lemma ArmGuardDefined(rows: seq<string>, w: nat, p: Pos, x: Stmt)
    requires InGrid(p, |rows|, w) && x in CellArms(rows, w, p)
    ensures x.Arm? && x.at == p && InGrid(x.ref, |rows|, w)
    ensures x.kind == Leave ==> x.ref == p
    ensures x.kind == Arrive ==> Neighbor(x.ref, x.dir, 1, |rows|, w) == Some(p)
    ensures x.kind == PushArrive ==> Neighbor(x.ref, x.dir, 2, |rows|, w) == Some(p)
    ensures GuardDef(x, |rows|, w).Some? && GuardDef(x, |rows|, w).value in CellDefs(rows, w, x.ref)
  {
    var h := |rows|;
    CellArmsMembers(rows, w, p, x);
    var d :| ArmedAs(rows, w, p, d, x);
    var n1 := Neighbor(p, d, 1, h, w);
    var b1, b2 := Neighbor(p, Opposite(d), 1, h, w), Neighbor(p, Opposite(d), 2, h, w);
    if x == Arm(p, Leave, d, p) {
      LeaveGuard(rows, w, p, d, n1.value);
    } else if x == Arm(p, Arrive, d, b1.value) {
      ArriveGuard(rows, w, p, d, b1.value);
    } else {
      PushGuard(rows, w, p, d, b1.value, b2.value);
    }
  }

  lemma LeaveGuard(rows: seq<string>, w: nat, p: Pos, d: Dir, q: Pos)
    requires InGrid(p, |rows|, w) && Neighbor(p, d, 1, |rows|, w) == Some(q)
    requires Open(rows, p.row, p.col) && Open(rows, q.row, q.col)
    ensures MoveDef(d, p, q) in CellDefs(rows, w, p)
  {
    CellDefsMove(rows, w, p, d, p, q);
  }

  lemma ArriveGuard(rows: seq<string>, w: nat, p: Pos, d: Dir, r: Pos)
    requires InGrid(p, |rows|, w) && Neighbor(p, Opposite(d), 1, |rows|, w) == Some(r)
    requires Open(rows, p.row, p.col) && Open(rows, r.row, r.col)
    ensures InGrid(r, |rows|, w) && Neighbor(r, d, 1, |rows|, w) == Some(p)
    ensures MoveDef(d, r, p) in CellDefs(rows, w, r)
  {
    NeighborOpposite(p, d, 1, |rows|, w);
    CellDefsMove(rows, w, r, d, r, p);
  }

  lemma PushGuard(rows: seq<string>, w: nat, p: Pos, d: Dir, b: Pos, r: Pos)
    requires InGrid(p, |rows|, w)
    requires Neighbor(p, Opposite(d), 1, |rows|, w) == Some(b) && Neighbor(p, Opposite(d), 2, |rows|, w) == Some(r)
    requires Open(rows, p.row, p.col) && Open(rows, b.row, b.col) && Open(rows, r.row, r.col)
    ensures InGrid(r, |rows|, w) && Neighbor(r, d, 1, |rows|, w) == Some(b) && Neighbor(r, d, 2, |rows|, w) == Some(p)
    ensures PushDef(d, r, b, p) in CellDefs(rows, w, r)
  {
    NeighborOpposite(p, d, 2, |rows|, w);
    assert Neighbor(r, d, 1, |rows|, w) == Some(b);
    CellDefsPush(rows, w, r, d, r, b, p);
  }

  /** An arm that direction `d` gives is an arm of direction `d`. */
  lemma ArmedAsDir(rows: seq<string>, w: nat, p: Pos, d: Dir, x: Stmt)
    requires ArmedAs(rows, w, p, d, x)
    ensures x.Arm? && x.dir == d && x.at == p
  {
  }

  /** A cell has an arm of direction `d` exactly when direction `d` gives it. */
  lemma CellArmsOfDir(rows: seq<string>, w: nat, p: Pos, x: Stmt)
    requires InGrid(p, |rows|, w) && x.Arm?
    ensures x in CellArms(rows, w, p) <==> Open(rows, p.row, p.col) && ArmedAs(rows, w, p, x.dir, x)
  {
    CellArmsMembers(rows, w, p, x);
    if exists d :: ArmedAs(rows, w, p, d, x) {
      var d :| ArmedAs(rows, w, p, d, x);
      ArmedAsDir(rows, w, p, d, x);
    }
  }

  /** The leave arm of `p` in direction `d`, by its condition. */
  lemma LeaveArmMember(rows: seq<string>, w: nat, p: Pos, d: Dir, r: Pos)
    requires InGrid(p, |rows|, w)
    ensures Arm(p, Leave, d, r) in CellArms(rows, w, p) <==>
      var n1 := Neighbor(p, d, 1, |rows|, w);
      r == p && Open(rows, p.row, p.col) && n1.Some? && Open(rows, n1.value.row, n1.value.col) && LeaveWindow(d, p, w)
  {
    CellArmsOfDir(rows, w, p, Arm(p, Leave, d, r));
  }

  /** The arrive arm of `p` in direction `d` from `r`, by its condition. */
  lemma ArriveArmMember(rows: seq<string>, w: nat, p: Pos, d: Dir, r: Pos)
    requires InGrid(p, |rows|, w)
    ensures Arm(p, Arrive, d, r) in CellArms(rows, w, p) <==>
      && Open(rows, p.row, p.col) && Neighbor(p, Opposite(d), 1, |rows|, w) == Some(r)
      && Open(rows, r.row, r.col) && ArriveWindow(d, r, |rows|, w)
  {
    CellArmsOfDir(rows, w, p, Arm(p, Arrive, d, r));
  }

  /** The push arm of `p` in direction `d` from `r`, by its condition. */
  lemma PushArmMember(rows: seq<string>, w: nat, p: Pos, d: Dir, r: Pos)
    requires InGrid(p, |rows|, w)
    ensures Arm(p, PushArrive, d, r) in CellArms(rows, w, p) <==>
      var b1 := Neighbor(p, Opposite(d), 1, |rows|, w);
      && Open(rows, p.row, p.col) && b1.Some? && Open(rows, b1.value.row, b1.value.col) && ArriveWindow(d, b1.value, |rows|, w)
      && Neighbor(p, Opposite(d), 2, |rows|, w) == Some(r) && Open(rows, r.row, r.col) && PushWindow(d, r, |rows|, w)
  {
    CellArmsOfDir(rows, w, p, Arm(p, PushArrive, d, r));
  }

  /**
   * For a move the `DEFINE` section defines, the keeper's cell has its leave
   * arm and the target its arrive arm exactly within the source's bounds: on
   * a border that is not all wall some moves lose one of the two.
   */
  lemma MoveArms(rows: seq<string>, w: nat, r: Pos, d: Dir, q: Pos)
    requires InGrid(r, |rows|, w) && MoveDef(d, r, q) in CellDefs(rows, w, r)
    ensures Arm(r, Leave, d, r) in CellArms(rows, w, r) <==> LeaveWindow(d, r, w)
    ensures Arm(q, Arrive, d, r) in CellArms(rows, w, q) <==> ArriveWindow(d, r, |rows|, w)
  {
    CellDefsMove(rows, w, r, d, r, q);
    NeighborBack(r, d, 1, |rows|, w);
    LeaveArmMember(rows, w, r, d, r);
    ArriveArmMember(rows, w, q, d, r);
  }

  /**
   * For a push the `DEFINE` section defines, the cell the box lands on has its
   * push arm exactly within the source's bounds.
   */
  lemma PushArms(rows: seq<string>, w: nat, r: Pos, d: Dir, b: Pos, q: Pos)
    requires InGrid(r, |rows|, w) && PushDef(d, r, b, q) in CellDefs(rows, w, r)
    ensures Arm(q, PushArrive, d, r) in CellArms(rows, w, q) <==> PushWindow(d, r, |rows|, w)
  {
    var h := |rows|;
    CellDefsPush(rows, w, r, d, r, b, q);
    PushLine(r, d, b, q, h, w);
    PushArmMember(rows, w, q, d, r);
  }

  /** Seen from the cell a box lands on: the box's cell and the keeper's cell, and the bounds of each. */
  lemma PushLine(r: Pos, d: Dir, b: Pos, q: Pos, h: nat, w: nat)
    requires Neighbor(r, d, 1, h, w) == Some(b) && Neighbor(r, d, 2, h, w) == Some(q)
    ensures Neighbor(q, Opposite(d), 1, h, w) == Some(b) && Neighbor(q, Opposite(d), 2, h, w) == Some(r)
    ensures PushWindow(d, r, h, w) ==> ArriveWindow(d, b, h, w)
  {
  }

  /** A push arm comes only with the arrive arm of the same direction, from the box's cell. */
  lemma PushNeedsArrive(rows: seq<string>, w: nat, p: Pos, d: Dir, r: Pos)
    requires InGrid(p, |rows|, w) && Arm(p, PushArrive, d, r) in CellArms(rows, w, p)
    ensures exists b ::
      && Arm(p, Arrive, d, b) in CellArms(rows, w, p)
      && Neighbor(r, d, 1, |rows|, w) == Some(b) && Neighbor(b, d, 1, |rows|, w) == Some(p)
  {
    var h := |rows|;
    PushArmMember(rows, w, p, d, r);
    var b := Neighbor(p, Opposite(d), 1, h, w).value;
    ArriveArmMember(rows, w, p, d, b);
    PushGuard(rows, w, p, d, b, r);
    NeighborOpposite(p, d, 1, h, w);
  }

  /** Every cell on the border of the `height` by `w` board is a wall, as in a well-formed level. */
  predicate Walled(rows: seq<string>, w: nat)
  {
    forall i, j :: 0 <= i < |rows| && 0 <= j < w && (i == 0 || i + 1 == |rows| || j == 0 || j + 1 == w) ==>
      !Open(rows, i, j)
  }

  /** On a board walled all round the source's bounds lose nothing: every move and push has its arms. */
  lemma WalledMoveArms(rows: seq<string>, w: nat, r: Pos, d: Dir, q: Pos)
    requires Walled(rows, w) && InGrid(r, |rows|, w) && MoveDef(d, r, q) in CellDefs(rows, w, r)
    ensures Arm(r, Leave, d, r) in CellArms(rows, w, r)
    ensures Arm(q, Arrive, d, r) in CellArms(rows, w, q)
  {
    CellDefsMove(rows, w, r, d, r, q);
    MoveArms(rows, w, r, d, q);
  }

  lemma WalledPushArms(rows: seq<string>, w: nat, r: Pos, d: Dir, b: Pos, q: Pos)
    requires Walled(rows, w) && InGrid(r, |rows|, w) && PushDef(d, r, b, q) in CellDefs(rows, w, r)
    ensures Arm(q, PushArrive, d, r) in CellArms(rows, w, q)
  {
    CellDefsPush(rows, w, r, d, r, b, q);
    PushArms(rows, w, r, d, b, q);
  }

  /**
   * On the one-row board `@-` the keeper's move right is defined, yet the
   * target cell has no arm that lets the keeper arrive there.
   */
  lemma OpenBorderLosesArrive()
    ensures MoveDef(Right, Pos(0, 0), Pos(0, 1)) in CellDefs(["@-"], 2, Pos(0, 0))
    ensures Arm(Pos(0, 1), Arrive, Right, Pos(0, 0)) !in CellArms(["@-"], 2, Pos(0, 1))
  {
    CellDefsMove(["@-"], 2, Pos(0, 0), Right, Pos(0, 0), Pos(0, 1));
    MoveArms(["@-"], 2, Pos(0, 0), Right, Pos(0, 1));
  }

  /**
   * On the board `#####` / `#@$.#` / `#####` the keeper's cell gets a push
   * predicate to the right and the goal cell one to the left, and the goal
   * cell's case has the arm that turns it into a box on a goal.
   */
  lemma CorridorPushes()
    ensures var rows := ["#####", "#@$.#", "#####"];
      && PushDef(Right, Pos(1, 1), Pos(1, 2), Pos(1, 3)) in CellDefs(rows, 5, Pos(1, 1))
      && PushDef(Left, Pos(1, 3), Pos(1, 2), Pos(1, 1)) in CellDefs(rows, 5, Pos(1, 3))
      && Arm(Pos(1, 3), PushArrive, Right, Pos(1, 1)) in CellArms(rows, 5, Pos(1, 3))
  {
    var rows := ["#####", "#@$.#", "#####"];
    assert Open(rows, 1, 1) && Open(rows, 1, 2) && Open(rows, 1, 3);
    CellDefsPush(rows, 5, Pos(1, 1), Right, Pos(1, 1), Pos(1, 2), Pos(1, 3));
    CellDefsPush(rows, 5, Pos(1, 3), Left, Pos(1, 3), Pos(1, 2), Pos(1, 1));
    PushArms(rows, 5, Pos(1, 1), Right, Pos(1, 2), Pos(1, 3));
  }

  /** A predicate of a board cell is in the `DEFINE` section. */
  lemma DefineSectionHas(rows: seq<string>, w: nat, c: Pos, y: Stmt)
    requires DefineSection(rows, w).Ok? && InGrid(c, |rows|, w) && y in CellDefs(rows, w, c)
    ensures y in DefineSection(rows, w).value
  {
    GridCellsMembers(w, |rows|, c);
    ConcatMapMember(ChunkOf(Defines, rows, w), GridCells(w, |rows|), y);
  }

  /** An arm is in the transition section exactly when its cell is on the board and has it. */
  lemma CaseSectionArms(rows: seq<string>, w: nat, x: Stmt)
    requires x.Arm?
    ensures x in CaseSection(rows, w) <==> InGrid(x.at, |rows|, w) && x in CellArms(rows, w, x.at)
  {
    var grid := GridCells(w, |rows|);
    ConcatMapMember(ChunkOf(Cases, rows, w), grid, x);
    if x in CaseSection(rows, w) {
      var c :| c in grid && x in CellCase(rows, w, c);
      GridCellsMembers(w, |rows|, c);
      CellCaseArm(rows, w, c, x);
      CellArmsAt(rows, w, c, x);
    } else if InGrid(x.at, |rows|, w) {
      GridCellsMembers(w, |rows|, x.at);
      CellCaseArm(rows, w, x.at, x);
    }
  }

  /** The arms of a cell's case are its guarded arms. */
  lemma CellCaseArm(rows: seq<string>, w: nat, c: Pos, x: Stmt)
    requires x.Arm?
    ensures x in CellCase(rows, w, c) <==> x in CellArms(rows, w, c)
  {
  }

  /** A cell's arms belong to that cell. */
  lemma CellArmsAt(rows: seq<string>, w: nat, c: Pos, x: Stmt)
    requires InGrid(c, |rows|, w) && x in CellArms(rows, w, c)
    ensures x.Arm? && x.at == c
  {
    CellArmsMembers(rows, w, c, x);
    var d :| ArmedAs(rows, w, c, d, x);
    ArmedAsDir(rows, w, c, d, x);
  }

  /** Every arm of the emitted transitions reads a predicate the emitted `DEFINE` section defines. */
  lemma CaseSectionGuarded(rows: seq<string>, w: nat)
    ensures DefineSection(rows, w).Ok? ==>
      forall x :: x in CaseSection(rows, w) && x.Arm? ==>
        GuardDef(x, |rows|, w).Some? && GuardDef(x, |rows|, w).value in DefineSection(rows, w).value
  {
    if DefineSection(rows, w).Ok? {
      forall x | x in CaseSection(rows, w) && x.Arm?
        ensures GuardDef(x, |rows|, w).Some? && GuardDef(x, |rows|, w).value in DefineSection(rows, w).value
      {
        CaseSectionArms(rows, w, x);
        ArmGuardDefined(rows, w, x.at, x);
        DefineSectionHas(rows, w, x.ref, GuardDef(x, |rows|, w).value);
      }
    }
  }

  /**
   * On a board walled all round every emitted move has its leave and arrive
   * arms and every emitted push its push arm.
   */
  lemma CaseSectionWalledComplete(rows: seq<string>, w: nat)
    ensures Walled(rows, w) && DefineSection(rows, w).Ok? ==>
      var defs, cases := DefineSection(rows, w).value, CaseSection(rows, w);
      && (forall d, r, q :: MoveDef(d, r, q) in defs ==> Arm(r, Leave, d, r) in cases && Arm(q, Arrive, d, r) in cases)
      && (forall d, r, b, q :: PushDef(d, r, b, q) in defs ==> Arm(q, PushArrive, d, r) in cases)
  {
    if Walled(rows, w) && DefineSection(rows, w).Ok? {
      var defs, cases := DefineSection(rows, w).value, CaseSection(rows, w);
      DefineSectionMembers(rows, w);
      forall d, r, q | MoveDef(d, r, q) in defs
        ensures Arm(r, Leave, d, r) in cases && Arm(q, Arrive, d, r) in cases
      {
        CellDefsMove(rows, w, r, d, r, q);
        WalledMoveArms(rows, w, r, d, q);
        CaseSectionArms(rows, w, Arm(r, Leave, d, r));
        CaseSectionArms(rows, w, Arm(q, Arrive, d, r));
      }
      forall d, r, b, q | PushDef(d, r, b, q) in defs
        ensures Arm(q, PushArrive, d, r) in cases
      {
        CellDefsPush(rows, w, r, d, r, b, q);
        WalledPushArms(rows, w, r, d, b, q);
        CaseSectionArms(rows, w, Arm(q, PushArrive, d, r));
      }
    }
  }

  // ---------------------------------------------------------------------------
  // The shape of each cell's case: priority order and one opening and closing
  // ---------------------------------------------------------------------------

  function KindRank(k: ArmKind): nat
  {
    match k
    case Leave => 0
    case Arrive => 1
    case PushArrive => 2
  }

  /** The priority of an arm: by direction Left, Up, Right, Down, then leave, arrive, push. */
  function ArmKey(x: Stmt): int
  {
    if x.Arm? then 3 * DirRank(x.dir) + KindRank(x.kind) else -1
  }

  /** All of `s` are arms of `p` with priorities in `[lo, hi)`. */
  predicate ArmsWithin(s: seq<Stmt>, p: Pos, lo: int, hi: int)
  {
    forall k :: 0 <= k < |s| ==> s[k].Arm? && s[k].at == p && lo <= ArmKey(s[k]) < hi
  }

  /** Strictly increasing priorities: hence no arm twice and no arm out of order. */
  predicate Ascending(s: seq<Stmt>)
  {
    forall a, b :: 0 <= a < b < |s| ==> ArmKey(s[a]) < ArmKey(s[b])
  }

  lemma AscendingAppend(a: seq<Stmt>, b: seq<Stmt>, p: Pos, lo: int, mid: int, hi: int)
    requires lo <= mid <= hi
    requires ArmsWithin(a, p, lo, mid) && Ascending(a)
    requires ArmsWithin(b, p, mid, hi) && Ascending(b)
    ensures ArmsWithin(a + b, p, lo, hi) && Ascending(a + b)
  {
    var ab := a + b;
    assert forall k :: 0 <= k < |a| ==> ab[k] == a[k];
    assert forall k :: |a| <= k < |ab| ==> ab[k] == b[k - |a|];
  }

  /** One direction's arms: an optional leave, then an optional arrive followed by an optional push. */
  lemma BlockOrdered(leave: seq<Stmt>, arrive: seq<Stmt>, push: seq<Stmt>, p: Pos, base: int)
    requires ArmsWithin(leave, p, base, base + 1) && |leave| <= 1
    requires ArmsWithin(arrive, p, base + 1, base + 2) && |arrive| <= 1
    requires ArmsWithin(push, p, base + 2, base + 3) && |push| <= 1
    ensures ArmsWithin(leave + (arrive + push), p, base, base + 3) && Ascending(leave + (arrive + push))
  {
    AscendingAppend(arrive, push, p, base + 1, base + 2, base + 3);
    AscendingAppend(leave, arrive + push, p, base, base + 1, base + 3);
  }

  /** Each direction's arms come in the order leave, arrive, push, at most one of each. */
  lemma DirArmsOrdered(rows: seq<string>, w: nat, p: Pos, d: Dir)
    ensures ArmsWithin(DirArms(rows, w, p, d), p, 3 * DirRank(d), 3 * DirRank(d) + 3)
    ensures Ascending(DirArms(rows, w, p, d))
  {
    match d
    case Left => LeftArmsOrdered(rows, w, p);
    case Up => UpArmsOrdered(rows, w, p);
    case Right => RightArmsOrdered(rows, w, p);
    case Down => DownArmsOrdered(rows, w, p);
  }

  /** The arms one direction's block can give `p`: the leave, then the arrive and, only with it, the push. */
  function ArmBlock(p: Pos, d: Dir, leave: bool, arrive: bool, push: bool, r1: Pos, r2: Pos): seq<Stmt>
  {
    (if leave then [Arm(p, Leave, d, p)] else [])
    + (if arrive then [Arm(p, Arrive, d, r1)] + (if push then [Arm(p, PushArrive, d, r2)] else []) else [])
  }

  lemma ArmBlockOrdered(p: Pos, d: Dir, leave: bool, arrive: bool, push: bool, r1: Pos, r2: Pos)
    ensures ArmsWithin(ArmBlock(p, d, leave, arrive, push, r1, r2), p, 3 * DirRank(d), 3 * DirRank(d) + 3)
    ensures Ascending(ArmBlock(p, d, leave, arrive, push, r1, r2))
  {
    var base := 3 * DirRank(d);
    var l := OptionalArm(leave, Arm(p, Leave, d, p), p, base);
    var pu := OptionalArm(push, Arm(p, PushArrive, d, r2), p, base + 2);
    if arrive {
      var a := OptionalArm(true, Arm(p, Arrive, d, r1), p, base + 1);
      BlockOrdered(l, a, pu, p, base);
    } else {
      var a := OptionalArm(false, Arm(p, Arrive, d, r1), p, base + 1);
      var none := OptionalArm(false, Arm(p, PushArrive, d, r2), p, base + 2);
      BlockOrdered(l, a, none, p, base);
      assert ArmBlock(p, d, leave, arrive, push, r1, r2) == l + (a + none);
    }
  }

  /** The arm `x` of priority `key`, or nothing. */
  lemma OptionalArm(c: bool, x: Stmt, p: Pos, key: int) returns (s: seq<Stmt>)
    requires x.Arm? && x.at == p && ArmKey(x) == key
    ensures s == (if c then [x] else [])
    ensures ArmsWithin(s, p, key, key + 1) && |s| <= 1
  {
    s := if c then [x] else [];
  }

  lemma LeftArmsOrdered(rows: seq<string>, w: nat, p: Pos)
    ensures ArmsWithin(DirArms(rows, w, p, Left), p, 0, 3) && Ascending(DirArms(rows, w, p, Left))
  {
    var i, j := p.row, p.col;
    if j > 0 {
      var l, a, pu := Open(rows, i, j - 1), j < w - 2 && Open(rows, i, j + 1), j < w - 3 && Open(rows, i, j + 2);
      assert DirArms(rows, w, p, Left) == ArmBlock(p, Left, l, a, pu, Pos(i, j + 1), Pos(i, j + 2));
      ArmBlockOrdered(p, Left, l, a, pu, Pos(i, j + 1), Pos(i, j + 2));
    }
  }

  lemma UpArmsOrdered(rows: seq<string>, w: nat, p: Pos)
    ensures ArmsWithin(DirArms(rows, w, p, Up), p, 3, 6) && Ascending(DirArms(rows, w, p, Up))
  {
    var i, j, h := p.row, p.col, |rows|;
    if i > 0 {
      var l, a, pu := Open(rows, i - 1, j), i < h - 2 && Open(rows, i + 1, j), i < h - 3 && Open(rows, i + 2, j);
      assert DirArms(rows, w, p, Up) == ArmBlock(p, Up, l, a, pu, Pos(i + 1, j), Pos(i + 2, j));
      ArmBlockOrdered(p, Up, l, a, pu, Pos(i + 1, j), Pos(i + 2, j));
    }
  }

  lemma RightArmsOrdered(rows: seq<string>, w: nat, p: Pos)
    ensures ArmsWithin(DirArms(rows, w, p, Right), p, 6, 9) && Ascending(DirArms(rows, w, p, Right))
  {
    var i, j := p.row, p.col;
    if j < w - 1 {
      var l, a, pu := Open(rows, i, j + 1), j > 1 && Open(rows, i, j - 1), j > 2 && Open(rows, i, j - 2);
      var r1, r2 := Pos(i, if j >= 1 then j - 1 else 0), Pos(i, if j >= 2 then j - 2 else 0);
      assert DirArms(rows, w, p, Right) == ArmBlock(p, Right, l, a, pu, r1, r2);
      ArmBlockOrdered(p, Right, l, a, pu, r1, r2);
    }
  }

  lemma DownArmsOrdered(rows: seq<string>, w: nat, p: Pos)
    ensures ArmsWithin(DirArms(rows, w, p, Down), p, 9, 12) && Ascending(DirArms(rows, w, p, Down))
  {
    var i, j, h := p.row, p.col, |rows|;
    if j < w - 1 && i < h - 1 {
      var l, a, pu := Open(rows, i + 1, j), i > 1 && Open(rows, i - 1, j), i > 2 && Open(rows, i - 2, j);
      var r1, r2 := Pos(if i >= 1 then i - 1 else 0, j), Pos(if i >= 2 then i - 2 else 0, j);
      assert DirArms(rows, w, p, Down) == ArmBlock(p, Down, l, a, pu, r1, r2);
      ArmBlockOrdered(p, Down, l, a, pu, r1, r2);
    }
  }

  /**
   * A cell's arms are grouped by direction in the order Left, Up, Right, Down,
   * and within a direction come leave, arrive, push, each at most once; a wall
   * cell has none.
   */
  lemma CellArmsInPriorityOrder(rows: seq<string>, w: nat, p: Pos)
    ensures ArmsWithin(CellArms(rows, w, p), p, 0, 12) && Ascending(CellArms(rows, w, p))
    ensures !Open(rows, p.row, p.col) ==> CellArms(rows, w, p) == []
  {
    if Open(rows, p.row, p.col) {
      DirArmsOrdered(rows, w, p, Left);
      DirArmsOrdered(rows, w, p, Up);
      DirArmsOrdered(rows, w, p, Right);
      DirArmsOrdered(rows, w, p, Down);
      var l, u, r, d := LeftArms(rows, w, p), UpArms(rows, p), RightArms(rows, w, p), DownArms(rows, w, p);
      AscendingAppend(l, u, p, 0, 3, 6);
      AscendingAppend(r, d, p, 6, 9, 12);
      AscendingAppend(l + u, r + d, p, 0, 6, 12);
    }
  }

  /** The two statements that frame each cell's case: its `case` line and its closing default. */
  datatype Frame = Opening | Closing

  predicate IsFrame(x: Stmt, f: Frame)
  {
    match f
    case Opening => x.CaseOpen?
    case Closing => x.Default?
  }

  /** The cells whose case `s` opens (or closes), in the order of `s`. */
  function FrameCells(s: seq<Stmt>, f: Frame): seq<Pos>
  {
    if s == [] then []
    else FrameCells(s[..|s| - 1], f) + (if IsFrame(s[|s| - 1], f) then [s[|s| - 1].at] else [])
  }

  lemma {:induction false} FrameCellsAppend(a: seq<Stmt>, b: seq<Stmt>, f: Frame)
    ensures FrameCells(a + b, f) == FrameCells(a, f) + FrameCells(b, f)
    decreases |b|
  {
    if b == [] {
      assert a + b == a;
    } else {
      var b' := b[..|b| - 1];
      assert (a + b)[..|a + b| - 1] == a + b';
      assert (a + b)[|a + b| - 1] == b[|b| - 1];
      FrameCellsAppend(a, b', f);
    }
  }

  lemma {:induction false} FrameCellsOfArms(s: seq<Stmt>, p: Pos, lo: int, hi: int, f: Frame)
    requires ArmsWithin(s, p, lo, hi)
    ensures FrameCells(s, f) == []
    decreases |s|
  {
    if s != [] {
      var s' := s[..|s| - 1];
      assert forall k :: 0 <= k < |s'| ==> s'[k] == s[k];
      FrameCellsOfArms(s', p, lo, hi, f);
    }
  }

  /** A cell's case opens and closes once, for that cell. */
  lemma CellCaseFramed(rows: seq<string>, w: nat, p: Pos, f: Frame)
    ensures FrameCells(CellCase(rows, w, p), f) == [p]
  {
    var arms := CellArms(rows, w, p);
    CellArmsInPriorityOrder(rows, w, p);
    FrameCellsOfArms(arms, p, 0, 12, f);
    FrameCellsAppend([CaseOpen(p)] + arms, [Default(p)], f);
    FrameCellsAppend([CaseOpen(p)], arms, f);
    assert [CaseOpen(p)][..0] == [] && [Default(p)][..0] == [];
  }

  lemma EmitCasesFramed(rows: seq<string>, w: nat, cells: seq<Pos>, f: Frame)
    ensures FrameCells(Emit(Cases, rows, w, cells), f) == cells
  {
    var g := ChunkOf(Cases, rows, w);
    forall p
      ensures FrameCells(g(p), f) == [p]
    {
      CellCaseFramed(rows, w, p, f);
    }
    ConcatMapFramed(g, cells, f);
  }

  /** When every cell's part opens (or closes) once, for that cell, so do the parts of all the cells. */
  lemma {:induction false} ConcatMapFramed(g: Pos -> seq<Stmt>, cells: seq<Pos>, f: Frame)
    requires forall p :: FrameCells(g(p), f) == [p]
    ensures FrameCells(ConcatMap(g, cells), f) == cells
    decreases |cells|
  {
    if cells != [] {
      var init, last := cells[..|cells| - 1], cells[|cells| - 1];
      ConcatMapFramed(g, init, f);
      FrameCellsAppend(ConcatMap(g, init), g(last), f);
      assert cells == init + [last];
    }
  }

  /**
   * The transition section opens and closes a case for every cell of the
   * board, each exactly once and in row-major order.
   */
  lemma CaseSectionFramed(rows: seq<string>, w: nat)
    ensures FrameCells(CaseSection(rows, w), Opening) == GridCells(w, |rows|)
    ensures FrameCells(CaseSection(rows, w), Closing) == GridCells(w, |rows|)
    ensures RowMajor(GridCells(w, |rows|))
    ensures forall p: Pos :: p in GridCells(w, |rows|) <==> InGrid(p, |rows|, w)
  {
    EmitCasesFramed(rows, w, GridCells(w, |rows|), Opening);
    EmitCasesFramed(rows, w, GridCells(w, |rows|), Closing);
    GridCellsRowMajor(w, |rows|);
    forall p: Pos
      ensures p in GridCells(w, |rows|) <==> InGrid(p, |rows|, w)
    {
      GridCellsMembers(w, |rows|, p);
    }
  }

  /**
   * When an arm fires on a cell its guard allows (the keeper's cell for a
   * leave, a floor or goal cell for an arrive or a push), the cell stays a
   * goal exactly when it was one, and afterwards holds nothing, the keeper
   * or a box respectively.
   */
  lemma ArmResultKeepsGoal(k: ArmKind, cur: Tag)
    requires k == Leave ==> OccupantOf(cur) == Keeper
    requires k != Leave ==> OccupantOf(cur) == Vacant
    ensures OnGoal(ArmResult(k, cur)) == OnGoal(cur)
    ensures OccupantOf(ArmResult(k, cur)) == match k case Leave => Vacant case Arrive => Keeper case PushArrive => Crate
  {
  }
}
