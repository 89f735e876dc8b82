/**
 * The text of the SMV model: each statement printed as the f-strings of
 * `convert_xsb_to_smv` print it, character for character, including the
 * source's irregular spacing in three places (`:=(` in `Up_push_valid`, the
 * space after `"R":` and the double space in the Down arrive arm).
 */
module SmvRender {
  import opened Common
  import opened Strings
  import opened Board
  import opened Smv
  import SmvProperties

  /** The SMV name of each cell value. */
  function TagName(t: Tag): string
  {
    match t
    case Wk => "wk"
    case WkOnGoal => "wk_on_goal"
    case Box => "box"
    case BoxOnGoal => "box_on_goal"
    case Wall => "wall"
    case Goal => "goal"
    case Floor => "floor"
  }

  /** Distinct values get distinct names. */
  lemma TagNameInjective(a: Tag, b: Tag)
    ensures TagName(a) == TagName(b) ==> a == b
  {
  }

  function DirName(d: Dir): string
  {
    match d
    case Left => "Left"
    case Up => "Up"
    case Right => "Right"
    case Down => "Down"
  }

  /** The subscript `[i][j]`. */
  function Index(p: Pos): string
  {
    "[" + NatToString(p.row) + "][" + NatToString(p.col) + "]"
  }

  /** The cell variable `board[i][j]`. */
  function CellVar(p: Pos): string
  {
    "board" + Index(p)
  }

  /** The two numerals of a subscript `[a][b]`. */
  function SplitIndex(s: string): Option<(string, string)>
  {
    if |s| < 2 || s[0] != '[' || s[|s| - 1] != ']' then None
    else
      var parts := Split(s[1..|s| - 1], ']');
      if |parts| == 2 && |parts[1]| >= 1 && parts[1][0] == '[' then Some((parts[0], parts[1][1..]))
      else None
  }

  /** Reads a subscript `[i][j]` back. */
  function ParseIndex(s: string): Option<Pos>
  {
    match SplitIndex(s)
    case None => None
    case Some((a, b)) => Some(Pos(ParseNat(a), ParseNat(b)))
  }

  /** `[a][b]` splits back into `a` and `b` when neither holds a `]`. */
  lemma SplitIndexOf(a: string, b: string)
    requires ']' !in a && ']' !in b
    ensures SplitIndex("[" + a + "][" + b + "]") == Some((a, b))
  {
    var s := "[" + a + "][" + b + "]";
    assert s == "[" + (a + [']'] + ("[" + b)) + "]";
    assert s[1..|s| - 1] == a + [']'] + ("[" + b);
    assert ']' !in "[" + b;
    SplitAfterFirst(a, ']', "[" + b);
    SplitNoSeparator("[" + b, ']');
    assert ("[" + b)[1..] == b;
  }

  /** A printed subscript reads back as the cell it names. */
  lemma IndexRoundTrip(p: Pos)
    ensures ParseIndex(Index(p)) == Some(p)
  {
    var a, b := NatToString(p.row), NatToString(p.col);
    assert ']' !in a && ']' !in b;
    SplitIndexOf(a, b);
    ParseNatToString(p.row);
    ParseNatToString(p.col);
  }

  /** Distinct cells get distinct variables. */
  lemma CellVarInjective(p: Pos, q: Pos)
    ensures CellVar(p) == CellVar(q) ==> p == q
  {
    if CellVar(p) == CellVar(q) {
      assert Index(p) == CellVar(p)[5..];
      assert Index(q) == CellVar(q)[5..];
      IndexRoundTrip(p);
      IndexRoundTrip(q);
    }
  }

  /** `(board[p] = "wk"|board[p] = "wk_on_goal")`: the keeper stands on `p`. */
  function KeeperTest(p: Pos): string
  {
    "(" + CellVar(p) + " = \"wk\"|" + CellVar(p) + " = \"wk_on_goal\")"
  }

  /** `(board[q] = "floor" | board[q] = "goal")`: `q` is free. */
  function FreeTest(q: Pos): string
  {
    "(" + CellVar(q) + " = \"floor\" | " + CellVar(q) + " = \"goal\")"
  }

  /** The arms of the `next(shift_push)` case, one line per table entry. */
  function PushTableText(table: seq<(char, char)>): string
  {
    if table == [] then ""
    else "        next(shift_move) = \"" + [table[0].0] + "\" : \"" + [table[0].1] + "\";\n" + PushTableText(table[1..])
  }

  /** The guard of an arm: its predicate and the shift that selects it. */
  function ArmGuard(kind: ArmKind, d: Dir, r: Pos): string
  {
    if kind == PushArrive then
      DirName(d) + "_push_valid" + Index(r) + " & next(shift_push) = \"" + [PushSymbol(d)] + "\":"
      + (if d == Right then " " else "")
    else
      DirName(d) + "_valid" + Index(r) + " & next(shift_move) = \"" + [MoveSymbol(d)] + "\" : "
  }

  /** The value of an arm: a nested `case` on the cell's current value. */
  function ArmValue(p: Pos, kind: ArmKind, d: Dir): string
  {
    "case " + CellVar(p) + " = \"" + TagName(ArmTest(kind)) + "\" : \"" + TagName(ArmYes(kind)) + "\";"
    + (if kind == Arrive && d == Down then "  " else " ")
    + "TRUE : \"" + TagName(ArmNo(kind)) + "\"; esac;\n"
  }

  /** The conjunction `board[g] = "box_on_goal" & ...` over the goal cells. */
  function WinCondition(goals: seq<Pos>): string
  {
    if goals == [] then ""
    else if |goals| == 1 then CellVar(goals[0]) + " = \"box_on_goal\""
    else CellVar(goals[0]) + " = \"box_on_goal\" & " + WinCondition(goals[1..])
  }

  /** The text of one statement. */
  function RenderStmt(x: Stmt): string
  {
    match x
    case ModuleHeader => "MODULE main\nVAR\n"
    case DeclBoard(r, c) =>
      "    board : array 0.." + IntToString(r) + " of array 0.." + IntToString(c)
      + " of {\"wk\", \"wk_on_goal\", \"box\", \"box_on_goal\", \"wall\", \"goal\", \"floor\"};\n"
    case DeclShifts =>
      "    shift_move : {\"l\",\"u\",\"r\",\"d\",0};\n" + "    shift_push : {\"L\",\"U\",\"R\",\"D\",0};\n"
    case AssignHeader => "\nASSIGN\n"
    case InitCell(p, t) => "    init(" + CellVar(p) + ") := \"" + TagName(t) + "\";\n"
    case InitShifts => "    init(shift_move) := 0;\n" + "    init(shift_push) := 0;\n"
    case DefineHeader => "\nDEFINE\n"
    case MoveDef(d, p, q) => "    " + DirName(d) + "_valid" + Index(p) + " := " + KeeperTest(p) + " & " + FreeTest(q) + ";\n"
    case PushDef(d, p, b, q) =>
      "    " + DirName(d) + "_push_valid" + Index(p) + (if d == Up then " :=" else " := ")
      + KeeperTest(p) + " & " + CellVar(b) + " = \"box\" & " + FreeTest(q) + ";\n"
    case NextShifts(table) =>
      "    next(shift_move) := {\"l\",\"u\",\"r\",\"d\"};\n" + "    next(shift_push) := case\n"
      + PushTableText(table) + "        TRUE : 0 ;\n" + "    esac;\n\n"
    case CaseOpen(p) => "    next(" + CellVar(p) + ") := case\n"
    case Arm(p, kind, d, r) => "        " + ArmGuard(kind, d, r) + ArmValue(p, kind, d)
    case Default(p) => "        TRUE : " + CellVar(p) + ";\n" + "    esac;\n\n"
    case Spec(goals) => "CTLSPEC AG!(" + WinCondition(goals) + ");\n"
  }

  /** `f` of each statement of `s`, one after another. */
  function ConcatText(f: Stmt -> string, s: seq<Stmt>): string
  {
    if s == [] then "" else ConcatText(f, s[..|s| - 1]) + f(s[|s| - 1])
  }

  /** The text of a statement list, statement after statement. */
  function Render(s: seq<Stmt>): string
  {
    ConcatText(RenderStmt, s)
  }

  /** The string `convert_xsb_to_smv(xsb)` returns, or the exception it raises. */
  function RenderModel(xsb: string): Result<string, EncodeError>
  {
    match Encode(xsb)
    case Err(e) => Err(e)
    case Ok(s) => Ok(Render(s))
  }

  lemma {:induction false} ConcatTextAppend(f: Stmt -> string, a: seq<Stmt>, b: seq<Stmt>)
    ensures ConcatText(f, a + b) == ConcatText(f, a) + ConcatText(f, b)
    decreases |b|
  {
    if b == [] {
      assert a + b == a;
    } else {
      var b' := b[..|b| - 1];
      assert (a + b)[..|a + b| - 1] == a + b';
      assert (a + b)[|a + b| - 1] == b[|b| - 1];
      ConcatTextAppend(f, a, b');
    }
  }

  /** Printing two lists one after the other prints their concatenation. */
  lemma RenderAppend(a: seq<Stmt>, b: seq<Stmt>)
    ensures Render(a + b) == Render(a) + Render(b)
  {
    ConcatTextAppend(RenderStmt, a, b);
  }

  lemma ConcatTextSingle(f: Stmt -> string, x: Stmt)
    ensures ConcatText(f, [x]) == f(x)
  {
    assert [x][..0] == [];
  }

  lemma ConcatTextEnds(f: Stmt -> string, s: seq<Stmt>)
    requires |s| >= 2
    ensures ConcatText(f, s) == f(s[0]) + ConcatText(f, s[1..|s| - 1]) + f(s[|s| - 1])
  {
    var init, mid := s[..|s| - 1], s[1..|s| - 1];
    assert ConcatText(f, s) == ConcatText(f, init) + f(s[|s| - 1]);
    assert init == [s[0]] + mid;
    ConcatTextAppend(f, [s[0]], mid);
    ConcatTextSingle(f, s[0]);
  }

  /** A list of at least two statements prints as its first, its middle, then its last. */
  lemma RenderEnds(s: seq<Stmt>)
    requires |s| >= 2
    ensures Render(s) == RenderStmt(s[0]) + Render(s[1..|s| - 1]) + RenderStmt(s[|s| - 1])
  {
    ConcatTextEnds(RenderStmt, s);
  }

  lemma PrefixAndSuffix(a: string, b: string, c: string)
    ensures |a + b + c| >= |a| + |c|
    ensures (a + b + c)[..|a|] == a && (a + b + c)[|a + b + c| - |c|..] == c
  {
  }

  /** The win condition is empty exactly when there are no goal cells, giving `AG!()`. */
  lemma WinConditionEmpty(goals: seq<Pos>)
    ensures WinCondition(goals) == [] <==> goals == []
    ensures goals == [] ==> RenderStmt(Spec(goals)) == "CTLSPEC AG!();\n"
  {
  }

  /**
   * The text opens with the module header and ends with the specification
   * line over the goal cells.
   */
  lemma RenderedModelFrame(xsb: string)
    ensures RenderModel(xsb).Ok? ==>
      var t, goals := RenderModel(xsb).value, GoalCells(Split(xsb, '\n'));
      var spec := "CTLSPEC AG!(" + WinCondition(goals) + ");\n";
      && |t| >= |"MODULE main\nVAR\n"| + |spec|
      && t[..|"MODULE main\nVAR\n"|] == "MODULE main\nVAR\n"
      && t[|t| - |spec|..] == spec
  {
    if RenderModel(xsb).Ok? {
      var s := Encode(xsb).value;
      SmvProperties.EncodeFrame(xsb);
      RenderFrame(s, GoalCells(Split(xsb, '\n')));
    }
  }

  /** A list that opens with the header and closes with a specification prints that way. */
  lemma RenderFrame(s: seq<Stmt>, goals: seq<Pos>)
    requires |s| >= 2 && s[0] == ModuleHeader && s[|s| - 1] == Spec(goals)
    ensures
      var t, spec := Render(s), "CTLSPEC AG!(" + WinCondition(goals) + ");\n";
      && |t| >= |"MODULE main\nVAR\n"| + |spec|
      && t[..|"MODULE main\nVAR\n"|] == "MODULE main\nVAR\n"
      && t[|t| - |spec|..] == spec
  {
    RenderEnds(s);
    PrefixAndSuffix(RenderStmt(s[0]), Render(s[1..|s| - 1]), RenderStmt(s[|s| - 1]));
  }
}
