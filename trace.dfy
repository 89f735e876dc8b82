/**
 * Reading a plan back out of the model checker's output: `extract_solution`
 * scans the lines of the output for the counterexample trace and collects the
 * values the trace assigns to `shift_move` and `shift_push`; and
 * `validate_nuxmv_execution` decides from the output whether the checker ran.
 * The file itself is left out: the model takes the list `readlines` returns,
 * or the content `read` returns, as its argument.
 */
module Trace {
  import opened Common
  import opened Strings

  /** The line that opens the trace. */
  const TraceMarker: string := "Trace Description"
  /** The line that closes the trace. */
  const LoopMarker: string := "-- Loop starts here"

  /**
   * The `IndexError` that `line.split("=")[1]` raises on a shift line in the
   * trace that has no `=`; it carries the offending line.
   */
  datatype TraceError = MissingAssignment(line: string)

  /** The letters of a move: `l u r d` walk, `L U R D` push. */
  const MoveLetters: set<char> := {'l', 'u', 'r', 'd', 'L', 'U', 'R', 'D'}

  /** A line that mentions one of the two shift variables. */
  predicate IsShiftLine(line: string)
  {
    Contains(line, "shift_move") || Contains(line, "shift_push")
  }

  /**
   * The field between the first and the second `=`, stripped of white space
   * and then of double quotes; `None` when the line has no `=`.
   */
  function ShiftField(line: string): (r: Option<string>)
    ensures r.None? <==> '=' !in line
    ensures r.Some? ==> '=' !in r.value
  {
    var parts := Split(line, '=');
    SplitHasSecondPiece(line, '=');
    if |parts| < 2 then None
    else
      var inner := Strip(parts[1], PyWhitespace);
      StripWithout(parts[1], PyWhitespace, '=');
      StripWithout(inner, {'"'}, '=');
      Some(Strip(inner, {'"'}))
  }

  /** The filter `shift.lower() in ['l', 'u', 'r', 'd']`. */
  predicate IsMove(token: string)
  {
    LowerAscii(token) in ["l", "u", "r", "d"]
  }

  /** The filter keeps exactly the one-letter tokens that name a move. */
  lemma IsMoveLetter(token: string)
    ensures IsMove(token) <==> |token| == 1 && token[0] in MoveLetters
  {
    if |token| == 1 {
      assert LowerAscii(token) == [LowerChar(token[0])];
    }
  }

  /**
   * The first index at or after `k` whose line contains `marker`, or
   * `|lines|` when there is none.
   */
  function FirstFrom(lines: seq<string>, marker: string, k: nat): (r: nat)
    requires k <= |lines|
    ensures k <= r <= |lines|
    ensures r < |lines| ==> Contains(lines[r], marker)
    ensures forall j :: k <= j < r ==> !Contains(lines[j], marker)
    decreases |lines| - k
  {
    if k == |lines| || Contains(lines[k], marker) then k else FirstFrom(lines, marker, k + 1)
  }

  /**
   * One past the last line the scan reads: the line after the first `close`
   * line at or after the first `open` line, or the end of the lines.
   */
  function WindowEnd(lines: seq<string>, open: string, close: string): (e: nat)
    ensures FirstFrom(lines, open, 0) <= e <= |lines|
  {
    var s := FirstFrom(lines, open, 0);
    if s == |lines| then s
    else
      var stop := FirstFrom(lines, close, s);
      if stop < |lines| then stop + 1 else stop
  }

  /** The lines from the first `open` line through the first `close` line at or after it. */
  function WindowOf(lines: seq<string>, open: string, close: string): seq<string>
  {
    lines[FirstFrom(lines, open, 0)..WindowEnd(lines, open, close)]
  }

  /** The lines the scan reads inside the trace. */
  function Window(lines: seq<string>): seq<string>
  {
    WindowOf(lines, TraceMarker, LoopMarker)
  }

  /** What one more line of the trace does to the tokens collected so far. */
  function Step(acc: Result<seq<string>, TraceError>, line: string): Result<seq<string>, TraceError>
  {
    match acc
    case Err(e) => Err(e)
    case Ok(t) =>
      if !IsShiftLine(line) then Ok(t)
      else match ShiftField(line)
        case None => Err(MissingAssignment(line))
        case Some(v) => Ok(if IsMove(v) then t + [v] else t)
  }

  /**
   * The tokens the scan collects from `window`, in order, or the error of the
   * first shift line without `=`.
   */
  function Tokens(window: seq<string>): Result<seq<string>, TraceError>
  {
    if window == [] then Ok([]) else Step(Tokens(window[..|window| - 1]), window[|window| - 1])
  }

  /** Every collected token passes the filter. */
  lemma {:induction false} TokensAreMoves(window: seq<string>)
    ensures Tokens(window).Ok? ==> forall k :: 0 <= k < |Tokens(window).value| ==> IsMove(Tokens(window).value[k])
  {
    if window != [] {
      var init := window[..|window| - 1];
      TokensAreMoves(init);
      assert Tokens(window) == Step(Tokens(init), window[|window| - 1]);
      if Tokens(init).Ok? {
        StepKeepsMoves(Tokens(init).value, window[|window| - 1]);
      }
    }
  }

  /** A line adds only a token that passes the filter. */
  lemma StepKeepsMoves(t: seq<string>, line: string)
    requires forall k :: 0 <= k < |t| ==> IsMove(t[k])
    ensures Step(Ok(t), line).Ok? ==> forall k :: 0 <= k < |Step(Ok(t), line).value| ==> IsMove(Step(Ok(t), line).value[k])
  {
    StepOk(t, line);
    if IsShiftLine(line) && ShiftField(line).Some? {
      var v := ShiftField(line).value;
      if IsMove(v) {
        var u := t + [v];
        assert forall k :: 0 <= k < |u| ==> u[k] == (if k < |t| then t[k] else v);
      }
    }
  }

  /** An error names a shift line of the window that has no `=`. */
  lemma {:induction false} TokensErrorLine(window: seq<string>)
    ensures Tokens(window).Err? ==>
      var l := Tokens(window).error.line;
      l in window && IsShiftLine(l) && '=' !in l
  {
    if window != [] {
      var init := window[..|window| - 1];
      TokensErrorLine(init);
      if Tokens(init).Err? {
        var k :| 0 <= k < |init| && init[k] == Tokens(init).error.line;
        assert window[k] == init[k];
      }
    }
  }

  /** The three things a line can do to the tokens collected so far. */
  lemma StepOk(t: seq<string>, line: string)
    ensures !IsShiftLine(line) ==> Step(Ok(t), line) == Ok(t)
    ensures IsShiftLine(line) && ShiftField(line).None? ==> Step(Ok(t), line) == Err(MissingAssignment(line))
    ensures IsShiftLine(line) && ShiftField(line).Some? ==>
      var v := ShiftField(line).value;
      Step(Ok(t), line) == Ok(if IsMove(v) then t + [v] else t)
  {
  }

  /** The tokens of one more line of `lines` from `start`. */
  lemma TokensNext(lines: seq<string>, start: nat, i: nat)
    requires start <= i < |lines|
    ensures Tokens(lines[start..i + 1]) == Step(Tokens(lines[start..i]), lines[i])
  {
    var w := lines[start..i + 1];
    SliceOfSlice(lines, start, i + 1, i);
    assert w[..|w| - 1] == lines[start..i];
    assert w[|w| - 1] == lines[i];
  }

  /** The tokens of the lines from `start` up to `i`. */
  ghost function Scanned(lines: seq<string>, start: nat, i: nat): Result<seq<string>, TraceError>
    requires start <= i <= |lines|
  {
    Tokens(lines[start..i])
  }

  /** The tokens through line `i`, from those before it; none before a start at `i`. */
  lemma TokensAfter(lines: seq<string>, start: nat, i: nat, before: seq<string>, wasIn: bool)
    requires start <= i < |lines|
    requires wasIn ==> Scanned(lines, start, i) == Ok(before)
    requires !wasIn ==> start == i && before == []
    ensures Scanned(lines, start, i + 1) == Step(Ok(before), lines[i])
  {
    TokensNext(lines, start, i);
    if !wasIn {
      assert lines[start..i] == [];
    }
  }

  /** Once a shift line has failed, no later line changes the outcome. */
  lemma {:induction false} TokensErrPersists(w: seq<string>, k: nat)
    requires k <= |w| && Tokens(w[..k]).Err?
    ensures Tokens(w) == Tokens(w[..k])
    decreases |w|
  {
    if k < |w| {
      var init := w[..|w| - 1];
      TakeOfTake(w, |w| - 1, k);
      TokensErrPersists(init, k);
    } else {
      assert w[..k] == w;
    }
  }

  /** Two pieces of a trace: the tokens of the first, then those of the second, or the second's error. */
  lemma {:induction false} TokensAppend(a: seq<string>, b: seq<string>)
    requires Tokens(a).Ok?
    ensures Tokens(a + b) == if Tokens(b).Ok? then Ok(Tokens(a).value + Tokens(b).value) else Tokens(b)
    decreases |b|
  {
    if b == [] {
      assert a + b == a;
      assert Tokens(a).value + [] == Tokens(a).value;
    } else {
      var init, last := b[..|b| - 1], b[|b| - 1];
      TokensAppend(a, init);
      assert (a + b)[..|a + b| - 1] == a + init;
      assert (a + b)[|a + b| - 1] == last;
      assert Tokens(a + b) == Step(Tokens(a + init), last);
      assert Tokens(b) == Step(Tokens(init), last);
      StepAppend(Tokens(a).value, Tokens(init), last);
    }
  }

  /** A line adds to the tokens of a longer prefix what it adds to those of a shorter one. */
  lemma StepAppend(ta: seq<string>, acc: Result<seq<string>, TraceError>, line: string)
    ensures var r := Step(acc, line);
      Step(if acc.Ok? then Ok(ta + acc.value) else acc, line) == if r.Ok? then Ok(ta + r.value) else r
  {
    if acc.Ok? {
      StepIs(ta + acc.value, line);
      StepIs(acc.value, line);
      assert (ta + acc.value) + LineToken(line) == ta + (acc.value + LineToken(line));
    }
  }

  /** A line either raises, or adds its token, if any. */
  lemma StepIs(t: seq<string>, line: string)
    ensures Step(Ok(t), line) ==
      if IsShiftLine(line) && '=' !in line then Err(MissingAssignment(line)) else Ok(t + LineToken(line))
  {
    StepOk(t, line);
    assert t + [] == t;
  }

  /** The token one line adds: its field, when it is a shift line whose field names a move. */
  function LineToken(line: string): seq<string>
  {
    if IsShiftLine(line) && ShiftField(line).Some? && IsMove(ShiftField(line).value) then [ShiftField(line).value] else []
  }

  /** The move fields of the shift lines of `window`, first line first. */
  function MoveFields(window: seq<string>): seq<string>
  {
    if window == [] then [] else LineToken(window[0]) + MoveFields(window[1..])
  }

  /** Every shift line of `window` has a `=`. */
  predicate AllAssigned(window: seq<string>)
  {
    forall k :: 0 <= k < |window| ==> IsShiftLine(window[k]) ==> '=' in window[k]
  }

  /** The tokens of a single line. */
  lemma TokensOne(line: string)
    ensures Tokens([line]) ==
      if IsShiftLine(line) && '=' !in line then Err(MissingAssignment(line)) else Ok(LineToken(line))
  {
    var w := [line];
    assert w[..|w| - 1] == [] && w[|w| - 1] == line;
    assert Tokens(w) == Step(Ok([]), line);
    StepIs([], line);
    assert [] + LineToken(line) == LineToken(line);
  }

  /** A window is all assigned exactly when its first line is and the rest is. */
  lemma AllAssignedCons(window: seq<string>)
    requires window != []
    ensures AllAssigned(window) <==> (IsShiftLine(window[0]) ==> '=' in window[0]) && AllAssigned(window[1..])
  {
    assert forall k :: 1 <= k < |window| ==> window[1..][k - 1] == window[k];
  }

  /**
   * The scan raises exactly when some shift line of the window has no `=`;
   * otherwise it collects the field of every shift line that names a move,
   * and nothing else, in the order of the lines.
   */
  lemma {:induction false} TokensAreMoveFields(window: seq<string>)
    ensures Tokens(window).Ok? <==> AllAssigned(window)
    ensures Tokens(window).Ok? ==> Tokens(window).value == MoveFields(window)
    decreases |window|
  {
    if window != [] {
      var head, rest := window[..1], window[1..];
      assert head + rest == window;
      assert head == [window[0]];
      TokensOne(window[0]);
      AllAssignedCons(window);
      TokensAreMoveFields(rest);
      if Tokens(head).Ok? {
        TokensAppend(head, rest);
      } else {
        TokensErrPersists(window, 1);
      }
    }
  }

  /** A line from the start up to the first `close` line is inside the window, and that line ends it. */
  lemma WindowThrough(lines: seq<string>, open: string, close: string, i: nat)
    requires FirstFrom(lines, open, 0) <= i < |lines|
    requires FirstFrom(lines, close, FirstFrom(lines, open, 0)) >= i
    ensures i + 1 <= WindowEnd(lines, open, close)
    ensures WindowOf(lines, open, close)[..i + 1 - FirstFrom(lines, open, 0)] == lines[FirstFrom(lines, open, 0)..i + 1]
    ensures Contains(lines[i], close) ==> WindowOf(lines, open, close) == lines[FirstFrom(lines, open, 0)..i + 1]
  {
    var s := FirstFrom(lines, open, 0);
    if Contains(lines[i], close) {
      FirstFromHit(lines, close, s, i);
    }
    SliceOfSlice(lines, s, WindowEnd(lines, open, close), i + 1);
  }

  /** The first hit at or after `k` is the first line from `k` on that has the marker. */
  lemma FirstFromHit(lines: seq<string>, marker: string, k: nat, i: nat)
    requires k <= i < |lines| && FirstFrom(lines, marker, k) >= i && Contains(lines[i], marker)
    ensures FirstFrom(lines, marker, k) == i
  {
  }

  /**
   * One line of the scan: the flag is on after line `i` exactly when the
   * window has started by then, and a line that does not close it keeps the
   * close further on.
   */
  lemma ScanStep(lines: seq<string>, open: string, close: string, i: nat, wasIn: bool)
    requires i < |lines|
    requires wasIn <==> FirstFrom(lines, open, 0) < i
    requires wasIn ==> FirstFrom(lines, close, FirstFrom(lines, open, 0)) >= i
    ensures wasIn || Contains(lines[i], open) <==> FirstFrom(lines, open, 0) < i + 1
    ensures (wasIn || Contains(lines[i], open)) && !Contains(lines[i], close) ==>
      FirstFrom(lines, close, FirstFrom(lines, open, 0)) >= i + 1
  {
    if !wasIn && Contains(lines[i], open) {
      FirstFromHit(lines, open, 0, i);
    }
  }

  /** Without a `close` line after the start the window runs to the last line. */
  lemma WindowToEnd(lines: seq<string>, open: string, close: string)
    requires FirstFrom(lines, open, 0) < |lines| ==> FirstFrom(lines, close, FirstFrom(lines, open, 0)) >= |lines|
    ensures WindowOf(lines, open, close) == lines[FirstFrom(lines, open, 0)..]
  {
  }

  /** The plan of a window: its tokens joined, `None` when there are none. */
  function DecodeWindow(window: seq<string>): Result<Option<string>, TraceError>
  {
    match Tokens(window)
    case Err(e) => Err(e)
    case Ok(t) => if t == [] then Ok(None) else Ok(Some(Concat(t)))
  }

  /** What `extract_solution` returns for the lines of an output file, or the error it raises. */
  function DecodeTrace(lines: seq<string>): Result<Option<string>, TraceError>
  {
    DecodeWindow(Window(lines))
  }

  /**
   * `extract_solution`: walks the lines once, switching into the trace at the
   * first `Trace Description` line, collecting the move tokens of the shift
   * lines from there on, and stopping after the first `-- Loop starts here`
   * line of the trace.
   */
  method ExtractSolution(lines: seq<string>) returns (r: Result<Option<string>, TraceError>)
    ensures r == DecodeTrace(lines)
  {
    r := Scan(lines, TraceMarker, LoopMarker);
  }

  /** The loop of `extract_solution`, with the two marker texts as parameters. */
  method Scan(lines: seq<string>, open: string, close: string) returns (r: Result<Option<string>, TraceError>)
    ensures r == DecodeWindow(WindowOf(lines, open, close))
  {
    ghost var start := FirstFrom(lines, open, 0);
    var solution: seq<string> := [];
    var inTrace := false;
    var i: nat := 0;
    while i < |lines|
      invariant i <= |lines|
      invariant inTrace <==> start < i
      invariant inTrace ==> FirstFrom(lines, close, start) >= i
      invariant inTrace ==> Scanned(lines, start, i) == Ok(solution)
      invariant !inTrace ==> solution == []
    {
      var line := lines[i];
      ScanStep(lines, open, close, i, inTrace);
      StepOk(solution, line);
      ghost var wasIn, before := inTrace, solution;
      if Contains(line, open) {
        inTrace := true;
      }
      if inTrace && IsShiftLine(line) {
        var field := ShiftField(line);
        if field.None? {
          TokensAfter(lines, start, i, before, wasIn);
          WindowThrough(lines, open, close, i);
          TokensErrPersists(WindowOf(lines, open, close), i + 1 - start);
          return Err(MissingAssignment(line));
        }
        var shift := field.value;
        if IsMove(shift) {
          solution := solution + [shift];
        }
      }
      if inTrace {
        TokensAfter(lines, start, i, before, wasIn);
      }
      if inTrace && Contains(line, close) {
        WindowThrough(lines, open, close, i);
        break;
      }
      i := i + 1;
    }
    if i == |lines| {
      WindowToEnd(lines, open, close);
    }
    assert Tokens(WindowOf(lines, open, close)) == Ok(solution);
    if solution != [] {
      return Ok(Some(Concat(solution)));
    }
    return Ok(None);
  }

  /** The text of a list of move tokens is their letters, one per token, in order. */
  lemma {:induction false} ConcatMoves(t: seq<string>)
    requires forall k :: 0 <= k < |t| ==> IsMove(t[k])
    ensures |Concat(t)| == |t|
    ensures forall k :: 0 <= k < |t| ==> [Concat(t)[k]] == t[k] && Concat(t)[k] in MoveLetters
  {
    if t != [] {
      IsMoveLetter(t[0]);
      assert t[0] == [t[0][0]];
      ConcatMoves(t[1..]);
      assert Concat(t) == [t[0][0]] + Concat(t[1..]);
      forall k | 0 < k < |t|
        ensures [Concat(t)[k]] == t[k] && Concat(t)[k] in MoveLetters
      {
        assert t[1..][k - 1] == t[k];
      }
    }
  }

  /**
   * A plan read from the trace is never empty and is made of move letters
   * only, one for each move token, in the order of the trace.
   */
  lemma SolutionIsMoves(lines: seq<string>)
    ensures DecodeTrace(lines).Ok? && DecodeTrace(lines).value.Some? ==>
      var sol, t := DecodeTrace(lines).value.value, Tokens(Window(lines)).value;
      && |sol| == |t| >= 1
      && forall k :: 0 <= k < |sol| ==> sol[k] in MoveLetters && [sol[k]] == t[k]
  {
    var r := Tokens(Window(lines));
    TokensAreMoves(Window(lines));
    if r.Ok? {
      ConcatMoves(r.value);
    }
  }

  /**
   * The plan is the move fields of the window's shift lines, joined, or
   * `None` when there are none; the scan raises exactly when a shift line of
   * the window has no `=`.
   */
  lemma DecodeTraceFields(lines: seq<string>)
    ensures DecodeTrace(lines).Err? <==> !AllAssigned(Window(lines))
    ensures AllAssigned(Window(lines)) ==>
      var f := MoveFields(Window(lines));
      DecodeTrace(lines) == if f == [] then Ok(None) else Ok(Some(Concat(f)))
  {
    TokensAreMoveFields(Window(lines));
  }

  /** Without a `Trace Description` line no plan is found. */
  lemma NoTraceNoSolution(lines: seq<string>)
    requires forall k :: 0 <= k < |lines| ==> !Contains(lines[k], TraceMarker)
    ensures DecodeTrace(lines) == Ok(None)
  {
    FirstFromNone(lines, TraceMarker, 0);
  }

  lemma {:induction false} FirstFromNone(lines: seq<string>, marker: string, k: nat)
    requires k <= |lines|
    requires forall j :: k <= j < |lines| ==> !Contains(lines[j], marker)
    ensures FirstFrom(lines, marker, k) == |lines|
    decreases |lines| - k
  {
    if k < |lines| {
      FirstFromNone(lines, marker, k + 1);
    }
  }

  /** Lines put in front move every hit by their number. */
  lemma {:induction false} FirstFromShift(pre: seq<string>, lines: seq<string>, marker: string, k: nat)
    requires k <= |lines|
    ensures FirstFrom(pre + lines, marker, |pre| + k) == |pre| + FirstFrom(lines, marker, k)
    decreases |lines| - k
  {
    if k < |lines| {
      assert (pre + lines)[|pre| + k] == lines[k];
      FirstFromShift(pre, lines, marker, k + 1);
    }
  }

  /** Lines without the marker are passed over. */
  lemma {:induction false} FirstFromSkip(pre: seq<string>, lines: seq<string>, marker: string, j: nat)
    requires j <= |pre|
    requires forall k :: j <= k < |pre| ==> !Contains(pre[k], marker)
    ensures FirstFrom(pre + lines, marker, j) == FirstFrom(pre + lines, marker, |pre|)
    decreases |pre| - j
  {
    if j < |pre| {
      assert (pre + lines)[j] == pre[j];
      FirstFromSkip(pre, lines, marker, j + 1);
    }
  }

  /** A hit is unchanged by lines put after it. */
  lemma {:induction false} FirstFromExtend(lines: seq<string>, post: seq<string>, marker: string, k: nat)
    requires k <= |lines| && FirstFrom(lines, marker, k) < |lines|
    ensures FirstFrom(lines + post, marker, k) == FirstFrom(lines, marker, k)
    decreases |lines| - k
  {
    assert (lines + post)[k] == lines[k];
    if !Contains(lines[k], marker) {
      FirstFromExtend(lines, post, marker, k + 1);
    }
  }

  /** Lines before the trace that do not open it have no effect on the plan, whatever they hold. */
  lemma LeadingLinesIgnored(pre: seq<string>, lines: seq<string>)
    requires forall k :: 0 <= k < |pre| ==> !Contains(pre[k], TraceMarker)
    ensures DecodeTrace(pre + lines) == DecodeTrace(lines)
  {
    WindowShift(pre, lines, TraceMarker, LoopMarker);
  }

  lemma WindowShift(pre: seq<string>, lines: seq<string>, open: string, close: string)
    requires forall k :: 0 <= k < |pre| ==> !Contains(pre[k], open)
    ensures WindowOf(pre + lines, open, close) == WindowOf(lines, open, close)
  {
    var all := pre + lines;
    FirstFromSkip(pre, lines, open, 0);
    FirstFromShift(pre, lines, open, 0);
    var s := FirstFrom(lines, open, 0);
    assert FirstFrom(all, open, 0) == |pre| + s;
    if s < |lines| {
      FirstFromShift(pre, lines, close, s);
    }
    assert WindowEnd(all, open, close) == |pre| + WindowEnd(lines, open, close);
    SliceShift(pre, lines, s, WindowEnd(lines, open, close));
  }

  /** Once the trace has closed, lines after it have no effect on the plan. */
  lemma TrailingLinesIgnored(lines: seq<string>, post: seq<string>)
    requires FirstFrom(lines, TraceMarker, 0) < |lines|
    requires FirstFrom(lines, LoopMarker, FirstFrom(lines, TraceMarker, 0)) < |lines|
    ensures DecodeTrace(lines + post) == DecodeTrace(lines)
  {
    WindowExtend(lines, post, TraceMarker, LoopMarker);
  }

  lemma WindowExtend(lines: seq<string>, post: seq<string>, open: string, close: string)
    requires FirstFrom(lines, open, 0) < |lines|
    requires FirstFrom(lines, close, FirstFrom(lines, open, 0)) < |lines|
    ensures WindowOf(lines + post, open, close) == WindowOf(lines, open, close)
  {
    var s := FirstFrom(lines, open, 0);
    FirstFromExtend(lines, post, open, 0);
    FirstFromExtend(lines, post, close, s);
    assert WindowEnd(lines + post, open, close) == WindowEnd(lines, open, close);
    SliceExtend(lines, post, s, WindowEnd(lines, open, close));
  }

  /**
   * `validate_nuxmv_execution` on the content of the output file, `None`
   * when the file does not exist: the run counts as successful exactly when
   * the content mentions `TRUE`; the test for `Error` and `usage` only
   * decides between two ways of answering no.
   */
  function ValidateExecution(content: Option<string>): (ok: bool)
    ensures ok <==> content.Some? && exists k: nat :: OccursAt(content.value, "TRUE", k)
  {
    match content
    case None => false
    case Some(c) =>
      ContainsOccurs(c, "TRUE");
      if Contains(c, "TRUE") then true
      else if Contains(c, "Error") || Contains(c, "usage") then false
      else false
  }
}
