/** The JSON editor's nesting guide: one indicator per line of the text, made of one
    `"│  "` per level of the running bracket depth. The depth is lowered by a line's
    leading closing brackets before its indicator is drawn, and then moved by the
    line's whole bracket balance, so leading closers are counted twice and the depth
    drifts and may go negative; the indicator clamps it at zero. */
module BracketDepth {
  import opened Seqs
  import opened Strings

  /** One nesting level of an indicator: a box-drawing bar and two spaces. */
  const Bar: string := "\U{2502}  "

  predicate IsCloser(c: char) {
    c == '}' || c == ']'
  }

  /** The number of closing brackets at the start of `s`. */
  function LeadingClosers(s: string): (n: nat)
    ensures n <= |s|
    ensures forall i :: 0 <= i < n ==> IsCloser(s[i])
    ensures n < |s| ==> !IsCloser(s[n])
  {
    if |s| == 0 || !IsCloser(s[0]) then 0 else 1 + LeadingClosers(s[1..])
  }

  /** The closing brackets at the start of the line once its leading whitespace is removed. */
  function Lead(line: string): (n: int)
    ensures 0 <= n <= |line|
  {
    LeadingClosers(LStrip(line))
  }

  /** Opening brackets minus closing brackets anywhere in the line. */
  function Balance(line: string): int {
    CountChar(line, '{') + CountChar(line, '[') - CountChar(line, '}') - CountChar(line, ']')
  }

  /** `"│  " * max(0, depth)`: one `Bar` per positive level, three characters each. */
  function Indicator(depth: int): (r: string)
    ensures depth <= 0 ==> r == ""
    ensures |r| == 3 * (if depth > 0 then depth else 0)
    decreases depth
  {
    if depth <= 0 then "" else Indicator(depth - 1) + Bar
  }

  /** An indicator has a bar at every third position and spaces between. */
  lemma {:induction false} IndicatorChars(depth: int)
    ensures forall i :: 0 <= i < |Indicator(depth)| ==> Indicator(depth)[i] == if i % 3 == 0 then '\U{2502}' else ' '
    decreases depth
  {
    if depth > 0 {
      IndicatorChars(depth - 1);
      var prev, r := Indicator(depth - 1), Indicator(depth);
      assert r == prev + Bar;
      forall i | 0 <= i < |r| ensures r[i] == if i % 3 == 0 then '\U{2502}' else ' ' {
        if i >= |prev| {
          assert |prev| == 3 * (depth - 1);
          assert i % 3 == i - 3 * (depth - 1);
          assert r[i] == Bar[i - |prev|];
        } else {
          assert r[i] == prev[i];
        }
      }
    }
  }

  /** What the walk reads from one line: its leading closers and its bracket balance. */
  datatype LineShape = LineShape(lead: int, balance: int)

  function ShapeOf(line: string): LineShape {
    LineShape(Lead(line), Balance(line))
  }

  function ShapeLead(s: LineShape): int { s.lead }
  function ShapeBalance(s: LineShape): int { s.balance }

  /** The shape of every line, in order. */
  function Shapes(lines: seq<string>): (r: seq<LineShape>)
    ensures |r| == |lines|
    ensures forall i :: 0 <= i < |lines| ==> r[i] == ShapeOf(lines[i])
  {
    if |lines| == 0 then [] else Shapes(lines[..|lines| - 1]) + [ShapeOf(lines[|lines| - 1])]
  }

  /** The running depth after the given lines, starting from 0: each line lowers it by
      its leading closers and then moves it by its balance. */
  function Depth(shapes: seq<LineShape>): int {
    if |shapes| == 0 then 0
    else
      var last := shapes[|shapes| - 1];
      Depth(shapes[..|shapes| - 1]) - last.lead + last.balance
  }

  /** The indicators of the given lines, one per line, each drawn when its line is
      reached from the depth after the earlier lines less the line's leading closers. */
  function IndicatorsOf(shapes: seq<LineShape>): (r: seq<string>)
    ensures |r| == |shapes|
  {
    if |shapes| == 0 then []
    else
      var init := shapes[..|shapes| - 1];
      IndicatorsOf(init) + [Indicator(Depth(init) - shapes[|shapes| - 1].lead)]
  }

  function Indicators(lines: seq<string>): (r: seq<string>)
    ensures |r| == |lines|
  {
    IndicatorsOf(Shapes(lines))
  }

  /** The indicator of line `i` is drawn from the depth the lines before it leave,
      lowered by the line's own leading closers. */
  lemma {:induction false} IndicatorAt(shapes: seq<LineShape>, i: nat)
    requires i < |shapes|
    ensures IndicatorsOf(shapes)[i] == Indicator(Depth(shapes[..i]) - shapes[i].lead)
  {
    var init := shapes[..|shapes| - 1];
    if i < |init| {
      IndicatorAt(init, i);
      assert shapes[..i] == init[..i];
    } else {
      assert shapes[..i] == init;
    }
  }

  /** Counts the closing brackets at the start of the line, after its leading whitespace. */
  method CountLeadingClosers(line: string) returns (closing: int)
    ensures closing == Lead(line)
  {
    var stripped := LStrip(line);
    closing := 0;
    assert stripped[0..] == stripped;
    while closing < |stripped| && IsCloser(stripped[closing])
      invariant 0 <= closing <= |stripped|
      invariant LeadingClosers(stripped) == closing + LeadingClosers(stripped[closing..])
    {
      LeadingClosersFrom(stripped, closing);
      closing := closing + 1;
    }
  }

  /** A closer at position `k` adds one to the closers counted from `k + 1`. */
  lemma LeadingClosersFrom(s: string, k: nat)
    requires k < |s| && IsCloser(s[k])
    ensures LeadingClosers(s[k..]) == 1 + LeadingClosers(s[k + 1..])
  {
    assert s[k..][1..] == s[k + 1..];
  }

  /** `get_bracket_depth_indicators`: split the text on `'\n'` and walk the lines. */
  method GetBracketDepthIndicators(text: string) returns (indicators: seq<string>)
    ensures indicators == Indicators(Split(text, '\n'))
    ensures |indicators| == CountChar(text, '\n') + 1
    ensures indicators[0] == ""
  {
    var lines := Split(text, '\n');
    indicators := WalkLines(lines);
    FirstIndicatorEmpty(Shapes(lines));
  }

  /** The indicators of the remaining lines when the walk reaches them at `depth`: the
      forward reading of the loop, an independent definition of `IndicatorsOf`. */
  function WalkFrom(shapes: seq<LineShape>, depth: int): (r: seq<string>)
    ensures |r| == |shapes|
  {
    if |shapes| == 0 then []
    else
      var s := shapes[0];
      [Indicator(depth - s.lead)] + WalkFrom(shapes[1..], depth - s.lead + s.balance)
  }

  /** Walking forward from the depth the earlier lines leave continues their indicators. */
  lemma {:induction false} WalkFromContinues(done: seq<LineShape>, rest: seq<LineShape>)
    ensures IndicatorsOf(done + rest) == IndicatorsOf(done) + WalkFrom(rest, Depth(done))
    decreases |rest|
  {
    if |rest| > 0 {
      var x := rest[0];
      assert done + rest == (done + [x]) + rest[1..];
      assert (done + [x])[..|done|] == done;
      WalkFromContinues(done + [x], rest[1..]);
    } else {
      assert done + rest == done;
    }
  }

  /** The forward walk from depth 0 draws exactly the indicators. */
  lemma WalkFromStart(shapes: seq<LineShape>)
    ensures WalkFrom(shapes, 0) == IndicatorsOf(shapes)
  {
    WalkFromContinues([], shapes);
    assert [] + shapes == shapes;
  }

  /** One more line extends the indicators by that line's indicator and moves the depth
      by the line's shape. */
  lemma PrefixStep(shapes: seq<LineShape>, i: nat)
    requires i < |shapes|
    ensures IndicatorsOf(shapes[..i + 1]) == IndicatorsOf(shapes[..i]) + [Indicator(Depth(shapes[..i]) - shapes[i].lead)]
    ensures Depth(shapes[..i + 1]) == Depth(shapes[..i]) - shapes[i].lead + shapes[i].balance
  {
    assert shapes[..i + 1][..i] == shapes[..i];
  }

  /** The loop of `get_bracket_depth_indicators`, in two passes: the leading closers and
      balance of every line, then one indicator per line from the running depth. */
  method WalkLines(lines: seq<string>) returns (indicators: seq<string>)
    ensures indicators == Indicators(lines)
  {
    var shapes := LineShapes(lines);
    indicators := WalkShapes(shapes);
  }

  /** The leading closers and the bracket balance the loop reads off each line. */
  method LineShapes(lines: seq<string>) returns (shapes: seq<LineShape>)
    ensures shapes == Shapes(lines)
  {
    shapes := [];
    var i := 0;
    while i < |lines|
      invariant 0 <= i <= |lines|
      invariant shapes == Shapes(lines[..i])
    {
      var shape := ReadShape(lines[i]);
      ShapesSnoc(lines, i, shape);
      shapes := shapes + [shape];
      i := i + 1;
    }
    assert lines[..i] == lines;
  }

  /** The leading closers of one line, counted after its leading whitespace, and its
      bracket balance. */
  method ReadShape(line: string) returns (shape: LineShape)
    ensures shape == ShapeOf(line)
  {
    var closing := CountLeadingClosers(line);
    shape := LineShape(closing, Balance(line));
  }

  /** One more line adds its shape to the shapes of the lines before it. */
  lemma ShapesSnoc(lines: seq<string>, i: nat, shape: LineShape)
    requires i < |lines| && shape == ShapeOf(lines[i])
    ensures Shapes(lines[..i + 1]) == Shapes(lines[..i]) + [shape]
  {
    assert lines[..i + 1][..i] == lines[..i];
  }

  /** The running depth carried from line to line: each line's indicator is drawn from
      the depth less the line's leading closers, and the depth then moves by its balance. */
  method WalkShapes(shapes: seq<LineShape>) returns (indicators: seq<string>)
    ensures indicators == IndicatorsOf(shapes)
  {
    indicators := [];
    var depth := 0;
    var i := 0;
    while i < |shapes|
      invariant 0 <= i <= |shapes|
      invariant indicators == IndicatorsOf(shapes[..i])
      invariant depth == Depth(shapes[..i])
    {
      var s := shapes[i];
      PrefixStep(shapes, i);
      indicators := indicators + [Indicator(depth - s.lead)];
      depth := depth - s.lead + s.balance;
      i := i + 1;
    }
    assert shapes[..i] == shapes;
  }

  /** The first indicator is always empty: the depth starts at 0 and only falls before
      the first indicator is drawn. */
  lemma FirstIndicatorEmpty(shapes: seq<LineShape>)
    requires |shapes| > 0
    requires shapes[0].lead >= 0
    ensures IndicatorsOf(shapes)[0] == ""
  {
    IndicatorAt(shapes, 0);
    assert shapes[..0] == [];
  }

  /** One more level appends one more `"│  "`: the indicator is the bar repeated. */
  lemma IndicatorGrows(depth: int)
    requires depth >= 0
    ensures Indicator(depth + 1) == Indicator(depth) + Bar
  {
  }

  /** The depth carried to the next line is the incoming depth less the line's leading
      closers plus its bracket balance. */
  lemma CarryOver(lines: seq<string>, line: string)
    ensures Depth(Shapes(lines + [line])) == Depth(Shapes(lines)) - Lead(line) + Balance(line)
  {
    assert (lines + [line])[..|lines|] == lines;
    var sh := Shapes(lines + [line]);
    assert sh[..|lines|] == Shapes(lines);
  }

  /** A line without brackets leaves the depth unchanged. */
  lemma NoBracketsKeepDepth(lines: seq<string>, line: string)
    requires '{' !in line && '[' !in line && '}' !in line && ']' !in line
    ensures Depth(Shapes(lines + [line])) == Depth(Shapes(lines))
  {
    CarryOver(lines, line);
    var s := LStrip(line);
    if |s| > 0 {
      assert s[0] == line[|line| - |s|];
    }
  }

  /** A line whose only brackets are its leading closers lowers the carried depth by
      twice their number. */
  lemma LeadingClosersCountTwice(lines: seq<string>, line: string)
    requires '{' !in line && '[' !in line
    requires CountChar(line, '}') + CountChar(line, ']') == Lead(line)
    ensures Depth(Shapes(lines + [line])) == Depth(Shapes(lines)) - 2 * Lead(line)
  {
    CarryOver(lines, line);
  }

  /** The depth after all lines is their total balance less all their leading closers
      (counted a second time). */
  lemma {:induction false} DepthClosedForm(shapes: seq<LineShape>)
    ensures Depth(shapes) == SumBy(shapes, ShapeBalance) - SumBy(shapes, ShapeLead)
  {
    if |shapes| > 0 {
      DepthClosedForm(shapes[..|shapes| - 1]);
    }
  }

  /** Summing a per-line quantity through the shapes is summing it over the lines. */
  lemma {:induction false} ShapeSums(lines: seq<string>)
    ensures SumBy(Shapes(lines), ShapeBalance) == SumBy(lines, Balance)
    ensures SumBy(Shapes(lines), ShapeLead) == SumBy(lines, Lead)
  {
    if |lines| > 0 {
      var init := lines[..|lines| - 1];
      ShapeSums(init);
      var sh := Shapes(lines);
      assert sh[..|init|] == Shapes(init);
    }
  }

  /** Joining lines with `'\n'` adds no bracket, so the balance of the text is the sum
      of the balances of its lines. */
  lemma {:induction false} BalanceOfJoin(lines: seq<string>)
    requires |lines| > 0
    ensures Balance(Join(lines, "\n")) == SumBy(lines, Balance)
  {
    if |lines| == 1 {
      assert lines[..0] == [];
    } else {
      var init, last := lines[..|lines| - 1], lines[|lines| - 1];
      assert lines == init + [last];
      BalanceOfJoin(init);
      JoinSnoc(init, last, "\n");
      var j := Join(init, "\n");
      forall c | c in "{[}]" ensures CountChar(j + "\n" + last, c) == CountChar(j, c) + CountChar(last, c) {
        CountCharAppend(j + "\n", last, c);
        CountCharAppend(j, "\n", c);
        assert c !in "\n";
      }
    }
  }

  /** The depth left after the whole text is its bracket balance less every line's
      leading closers. */
  lemma FinalDepth(text: string)
    ensures Depth(Shapes(Split(text, '\n'))) == Balance(text) - SumBy(Split(text, '\n'), Lead)
  {
    var lines := Split(text, '\n');
    DepthClosedForm(Shapes(lines));
    ShapeSums(lines);
    BalanceOfJoin(lines);
  }

  /** A line holding only `}` has one leading closer and balance -1. */
  lemma ClosingLineShape()
    ensures ShapeOf("}") == LineShape(1, -1)
  {
    assert "}"[1..] == "";
    assert !IsSpace('}');
    assert LStrip("}") == "}";
    assert LeadingClosers("}"[1..]) == 0;
    assert CountChar("}", '}') == 1 + CountChar("", '}');
    assert '{' !in "}" && '[' !in "}" && ']' !in "}";
  }

  /** A line holding only `{` has no leading closer and balance 1. */
  lemma OpeningLineShape()
    ensures ShapeOf("{") == LineShape(0, 1)
  {
    assert "{"[1..] == "";
    assert !IsSpace('{');
    assert LStrip("{") == "{";
    assert CountChar("{", '{') == 1 + CountChar("", '{');
    assert '}' !in "{" && '[' !in "{" && ']' !in "{";
  }

  /** A lone closing line takes the depth to -2, and the line after it gets an empty
      indicator. */
  lemma NegativeDepthExample()
    ensures Depth(Shapes(["}"])) == -2
    ensures Indicators(["}", "{"]) == ["", ""]
  {
    ClosingLineShape();
    OpeningLineShape();
    var one, two := Shapes(["}"]), Shapes(["}", "{"]);
    assert one == [LineShape(1, -1)];
    assert two == [LineShape(1, -1), LineShape(0, 1)];
    assert one[..0] == [];
    assert two[..1] == one;
  }
}
