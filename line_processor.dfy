/**
 * The body of `run`: one input line in, one printed line out.
 *
 * A line holding a bracket is first checked; unbalanced brackets raise
 * `SyntaxError("Invalid brackets")`, balanced ones are replaced by spaces.
 * The line is then stripped, split on whitespace and handed to `calc`. Every
 * exception is caught and printed as `ERROR: ` and its message, except
 * `IndexError`, which always prints `ERROR: expression is incorrect`.
 */
module LineProcessor {
  import opened Text
  import opened Tokens
  import opened Brackets
  import opened Evaluator

  /** What `run` prints for one line: the value, or an error text. */
  datatype Outcome = Printed(value: real) | Error(text: string)

  const InvalidBrackets := "Invalid brackets"
  const ExpressionIncorrect := "expression is incorrect"

  /** The `except` clauses of `run`. */
  function Report(r: Result<real>): Outcome {
    match r
    case Ok(v) => Printed(v)
    case Err(k, m) => if k == IndexError then Error("ERROR: " + ExpressionIncorrect) else Error("ERROR: " + m)
  }

  /** The body of the loop of `run`, as a function of the line. */
  function ProcessLine(line: string, fracPow: (real, real) -> real): Outcome {
    if HasParen(line) then
      if Balanced(line) then
        Report(Eval(Split(Strip(Unbracketed(line).value)), fracPow))
      else Error("ERROR: " + InvalidBrackets)
    else Report(Eval(Split(Strip(line)), fracPow))
  }

  /** One pass of the loop of `run`, calling the checker, the remover and the evaluator in turn. */
  method RunLine(line: string, fracPow: (real, real) -> real) returns (o: Outcome)
    ensures o == ProcessLine(line, fracPow)
  {
    var r: Result<real>;
    if '(' in line || ')' in line {
      var ok := CheckBrackets(line);
      if ok {
        var newLine := RemoveBrackets(line);
        r := Calc(Split(Strip(newLine.value)), fracPow);
      } else {
        return Error("ERROR: " + InvalidBrackets);
      }
    } else {
      r := Calc(Split(Strip(line)), fracPow);
    }
    o := Report(r);
  }

  /** `run`: the loop over the input lines; one outcome per line, in order, each decided by its line alone. */
  method Run(lines: seq<string>, fracPow: (real, real) -> real) returns (out: seq<Outcome>)
    ensures |out| == |lines|
    ensures forall i :: 0 <= i < |lines| ==> out[i] == ProcessLine(lines[i], fracPow)
  {
    out := [];
    for i := 0 to |lines|
      invariant |out| == i
      invariant forall j {:trigger out[j]} :: 0 <= j < i ==> out[j] == ProcessLine(lines[j], fracPow)
    {
      var o := RunLine(lines[i], fracPow);
      OutcomesStep(lines, out, o, fracPow);
      out := out + [o];
    }
  }

  /** Appending the outcome of the next line keeps the outcomes in step with the lines. */
  lemma OutcomesStep(lines: seq<string>, out: seq<Outcome>, o: Outcome, fracPow: (real, real) -> real)
    requires |out| < |lines|
    requires forall j {:trigger out[j]} :: 0 <= j < |out| ==> out[j] == ProcessLine(lines[j], fracPow)
    requires o == ProcessLine(lines[|out|], fracPow)
    ensures forall j {:trigger (out + [o])[j]} :: 0 <= j <= |out| ==> (out + [o])[j] == ProcessLine(lines[j], fracPow)
  {
  }

  // ----- Properties -----

  /** A line without brackets always passes the bracket check. */
  lemma NoParenBalanced(line: string)
    ensures !HasParen(line) ==> Balanced(line)
  {
    if !HasParen(line) {
      ParenFreeIff(line);
      ParenFreeScan(line, 0);
    }
  }

  /**
   * Once the brackets balance they act as whitespace: the line is evaluated
   * as the tokens of the line with every bracket blanked out.
   */
  lemma BalancedLine(line: string, fracPow: (real, real) -> real)
    requires Balanced(line)
    ensures ProcessLine(line, fracPow) == Report(Eval(Split(Blank(line)), fracPow))
  {
    if HasParen(line) {
      UnbracketedTokens(line);
      SplitStrip(Unbracketed(line).value);
    } else {
      ParenFreeIff(line);
      ParenFreeBlank(line);
      SplitStrip(line);
    }
  }

  /** A line without brackets is evaluated as its whitespace-separated tokens. */
  lemma BracketFreeLine(line: string, fracPow: (real, real) -> real)
    requires !HasParen(line)
    ensures ProcessLine(line, fracPow) == Report(Eval(Split(line), fracPow))
  {
    SplitStrip(line);
  }

  /**
   * What `calc` raises never prints as the bracket error, and prints as
   * "expression is incorrect" exactly when it is an `IndexError`.
   */
  lemma ReportTexts(r: Result<real>)
    requires r.Err? ==> KnownError(r.kind, r.msg)
    ensures Report(r) != Error("ERROR: " + InvalidBrackets)
    ensures Report(r) == Error("ERROR: " + ExpressionIncorrect) <==> r.Err? && r.kind == IndexError
  {
    assert ("ERROR: " + InvalidBrackets)[7..] == InvalidBrackets;
    assert ("ERROR: " + ExpressionIncorrect)[7..] == ExpressionIncorrect;
    if r.Err? {
      assert ("ERROR: " + r.msg)[7..] == r.msg;
    }
  }

  /** The bracket error is printed exactly for the lines whose brackets do not balance. */
  lemma InvalidBracketsIff(line: string, fracPow: (real, real) -> real)
    ensures ProcessLine(line, fracPow) == Error("ERROR: " + InvalidBrackets) <==> !Balanced(line)
  {
    NoParenBalanced(line);
    if Balanced(line) {
      BalancedLine(line, fracPow);
      EvalErrors(Split(Blank(line)), fracPow);
      ReportTexts(Eval(Split(Blank(line)), fracPow));
    }
  }

  /**
   * "expression is incorrect" is printed exactly for the balanced lines whose
   * tokens raise `IndexError` in `calc`; those leave an operator short of
   * operands or do not leave exactly one value.
   */
  lemma ExpressionIncorrectIff(line: string, fracPow: (real, real) -> real)
    ensures ProcessLine(line, fracPow) == Error("ERROR: " + ExpressionIncorrect) <==>
      Balanced(line) && Eval(Split(Blank(line)), fracPow).Err? && Eval(Split(Blank(line)), fracPow).kind == IndexError
    ensures ProcessLine(line, fracPow) == Error("ERROR: " + ExpressionIncorrect) ==>
      !ArityOk(Split(Blank(line)), 0) || Net(Split(Blank(line))) != 1
  {
    NoParenBalanced(line);
    assert ("ERROR: " + InvalidBrackets)[7..] == InvalidBrackets;
    assert ("ERROR: " + ExpressionIncorrect)[7..] == ExpressionIncorrect;
    if Balanced(line) {
      BalancedLine(line, fracPow);
      EvalErrors(Split(Blank(line)), fracPow);
      EvalArity(Split(Blank(line)), fracPow);
      ReportTexts(Eval(Split(Blank(line)), fracPow));
    }
  }

  /**
   * An operator that finds too few operands, with no error before it, makes
   * the line print "expression is incorrect", whatever tokens follow.
   */
  lemma UnderflowIncorrect(line: string, xs: seq<string>, el: string, ys: seq<string>, fracPow: (real, real) -> real)
    requires Balanced(line) && Split(Blank(line)) == xs + [el] + ys
    requires Exec(xs, [], fracPow).Ok? && Net(xs) < Needs(el)
    ensures ProcessLine(line, fracPow) == Error("ERROR: " + ExpressionIncorrect)
  {
    BalancedLine(line, fracPow);
    EvalUnderflow(xs, el, ys, fracPow);
  }

  /** A line whose tokens all run but leave no value or several prints "expression is incorrect". */
  lemma CountIncorrect(line: string, fracPow: (real, real) -> real)
    requires Balanced(line) && Exec(Split(Blank(line)), [], fracPow).Ok? && Net(Split(Blank(line))) != 1
    ensures ProcessLine(line, fracPow) == Error("ERROR: " + ExpressionIncorrect)
  {
    BalancedLine(line, fracPow);
    EvalCount(Split(Blank(line)), fracPow);
  }

  /** A value is printed only for balanced lines whose tokens form a complete expression. */
  lemma PrintedWellFormed(line: string, fracPow: (real, real) -> real)
    ensures ProcessLine(line, fracPow).Printed? ==>
      Balanced(line) && ArityOk(Split(Blank(line)), 0) && Net(Split(Blank(line))) == 1
  {
    NoParenBalanced(line);
    if Balanced(line) {
      BalancedLine(line, fracPow);
      EvalArity(Split(Blank(line)), fracPow);
    }
  }

  /** Tokens written out with single spaces, padded with whitespace, split back into themselves. */
  lemma SplitPadded(ts: seq<string>, pre: string, post: string)
    requires forall k :: 0 <= k < |ts| ==> ts[k] != [] && NoSpace(ts[k])
    requires AllSpace(pre) && AllSpace(post)
    ensures Split(pre + Join(ts) + post) == ts
  {
    var j := Join(ts);
    var s := pre + j + post;
    SplitJoin(ts);
    assert s[|pre|..] == j + post;
    SplitDropLeading(s, |pre|);
    assert (j + post)[..|j|] == j;
    SplitDropTrailing(j + post, |j|);
  }

  /** A line ending in a line feed splits into the tokens written on it. */
  lemma SplitLine(ts: seq<string>)
    requires forall k :: 0 <= k < |ts| ==> ts[k] != [] && NoSpace(ts[k])
    ensures Split(Join(ts) + "\n") == ts
  {
    SplitPadded(ts, "", "\n");
    assert "" + Join(ts) == Join(ts);
  }

  predicate IsToken(t: string) {
    t != [] && NoSpace(t)
  }

  /** A line of three tokens separated by single spaces. */
  lemma ThreeTokenLine(a: string, b: string, c: string)
    requires IsToken(a) && IsToken(b) && IsToken(c)
    ensures Split(a + " " + b + " " + c + "\n") == [a, b, c]
  {
    var ts := [a, b, c];
    assert ts[1..] == [b, c] && ts[1..][1..] == [c];
    assert Join(ts[1..][1..]) == c;
    assert Join(ts[1..]) == b + " " + c;
    assert Join(ts) == a + " " + (b + " " + c);
    assert a + " " + (b + " " + c) + "\n" == a + " " + b + " " + c + "\n";
    SplitLine(ts);
  }

  lemma SumTokens()
    ensures Split("2 3 +\n") == ["2", "3", "+"]
  {
    ThreeTokenLine("2", "3", "+");
    assert "2" + " " + "3" + " " + "+" + "\n" == "2 3 +\n";
  }

  /** A line of the repository's tests: `2 3 +` prints 5. */
  lemma RunSumExample(fracPow: (real, real) -> real)
    ensures ProcessLine("2 3 +\n", fracPow) == Printed(5.0)
  {
    assert !HasParen("2 3 +\n");
    SumTokens();
    BracketFreeLine("2 3 +\n", fracPow);
    EvalAddExample(fracPow);
  }

  lemma DivisionByZeroTokens()
    ensures Split("5 0 /\n") == ["5", "0", "/"]
  {
    ThreeTokenLine("5", "0", "/");
    assert "5" + " " + "0" + " " + "/" + "\n" == "5 0 /\n";
  }

  /** A line of the repository's tests: `5 0 /` reports the division by zero. */
  lemma RunDivisionByZeroExample(fracPow: (real, real) -> real)
    ensures ProcessLine("5 0 /\n", fracPow) == Error("ERROR: " + DivisionByZero)
  {
    assert !HasParen("5 0 /\n");
    DivisionByZeroTokens();
    BracketFreeLine("5 0 /\n", fracPow);
    EvalDivisionByZeroExample(fracPow);
  }

  lemma LeftoverTokens()
    ensures Split("2 3 + 5\n") == ["2", "3", "+", "5"]
  {
    var ts := ["2", "3", "+", "5"];
    assert ts[1..] == ["3", "+", "5"] && ts[1..][1..] == ["+", "5"] && ts[1..][1..][1..] == ["5"];
    assert Join(ts) == "2 3 + 5";
    assert NoSpace("2") && NoSpace("3") && NoSpace("+") && NoSpace("5");
    SplitLine(ts);
    assert "2 3 + 5" + "\n" == "2 3 + 5\n";
  }

  /** A line of the repository's tests: `2 3 + 5` leaves two values. */
  lemma RunLeftoverExample(fracPow: (real, real) -> real)
    ensures ProcessLine("2 3 + 5\n", fracPow) == Error("ERROR: " + ExpressionIncorrect)
  {
    assert !HasParen("2 3 + 5\n");
    LeftoverTokens();
    BracketFreeLine("2 3 + 5\n", fracPow);
    EvalLeftoverExample(fracPow);
  }

  lemma ValueErrorTokens()
    ensures Split("5.5 2 //\n") == ["5.5", "2", "//"]
  {
    ThreeTokenLine("5.5", "2", "//");
    assert "5.5" + " " + "2" + " " + "//" + "\n" == "5.5 2 //\n";
  }

  /** A line of the repository's tests: `5.5 2 //` asks for integers. */
  lemma RunValueErrorExample(fracPow: (real, real) -> real)
    ensures ProcessLine("5.5 2 //\n", fracPow) == Error("ERROR: " + IntDivOperands)
  {
    assert !HasParen("5.5 2 //\n");
    ValueErrorTokens();
    BracketFreeLine("5.5 2 //\n", fracPow);
    EvalValueErrorExample(fracPow);
  }

  /** A line of the repository's tests: `( 2 3 +` has an unclosed bracket. */
  lemma RunInvalidBracketsExample(fracPow: (real, real) -> real)
    ensures ProcessLine("( 2 3 +\n", fracPow) == Error("ERROR: " + InvalidBrackets)
  {
    var line := "( 2 3 +\n";
    assert line[0] == '(' && line[1..] == " 2 3 +\n" + [];
    assert ParenFree(" 2 3 +\n");
    ScanSkipsText(" 2 3 +\n", [], 1);
    assert !Balanced(line);
  }

  /** The brackets of `( 2 3 + )` balance. */
  lemma BracketedBalanced()
    ensures Balanced("( 2 3 + )\n")
  {
    assert ParenFree(" 2 3 + ") && ParenFree("\n");
    assert "( 2 3 + )\n" == "(" + (" 2 3 + " + (")" + ("\n" + "")));
    ScanOpen(" 2 3 + " + (")" + ("\n" + "")), 0);
    ScanSkipsText(" 2 3 + ", ")" + ("\n" + ""), 1);
    ScanClose("\n" + "", 1);
    ScanSkipsText("\n", "", 0);
  }

  /** Blanking the brackets of `( 2 3 + )` leaves the tokens padded with spaces. */
  lemma BracketedBlank()
    ensures Blank("( 2 3 + )\n") == "  2 3 +  \n"
  {
    var b := Blank("( 2 3 + )\n");
    forall i | 0 <= i < 10 ensures b[i] == "  2 3 +  \n"[i] {}
  }

  lemma BracketedTokens()
    ensures Split("  2 3 +  \n") == ["2", "3", "+"]
  {
    var ts := ["2", "3", "+"];
    assert ts[1..] == ["3", "+"] && ts[1..][1..] == ["+"];
    assert Join(ts) == "2 3 +";
    assert NoSpace("2") && NoSpace("3") && NoSpace("+");
    assert AllSpace("  ") && AllSpace("  \n");
    SplitPadded(ts, "  ", "  \n");
    assert "  " + "2 3 +" + "  \n" == "  2 3 +  \n";
  }

  /** A line of the repository's tests: `( 2 3 + )` prints 5, the brackets acting as spaces. */
  lemma RunBracketedExample(fracPow: (real, real) -> real)
    ensures ProcessLine("( 2 3 + )\n", fracPow) == Printed(5.0)
  {
    BracketedBalanced();
    BracketedBlank();
    BracketedTokens();
    BalancedLine("( 2 3 + )\n", fracPow);
    EvalAddExample(fracPow);
  }
}
