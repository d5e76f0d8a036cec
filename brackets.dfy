/**
 * Bracket checking (`check_brackets`) and bracket removal (`remove_brackets`).
 *
 * `check_brackets` keeps a list that only ever holds `(`; `Balanced` is the
 * same scan with a depth counter in place of the list, and `WellNested` is the
 * counting characterization: no prefix closes more than it opens, and the
 * totals agree.
 */
module Brackets {
  import opened Text

  datatype Option<T> = None | Some(value: T)

  predicate IsParen(c: char) {
    c == '(' || c == ')'
  }

  /** The test of `run`: the line holds `(` or `)`. */
  predicate HasParen(s: string) {
    '(' in s || ')' in s
  }

  predicate ParenFree(s: string) {
    forall i :: 0 <= i < |s| ==> !IsParen(s[i])
  }

  lemma ParenFreeIff(s: string)
    ensures ParenFree(s) <==> !HasParen(s)
  {
    if !HasParen(s) {
      forall i | 0 <= i < |s| ensures !IsParen(s[i]) {
        assert s[i] in s;
      }
    }
  }

  /** The left-to-right scan with `depth` opening brackets outstanding. */
  function Scan(s: string, depth: nat): bool
    decreases |s|
  {
    if s == [] then depth == 0
    else if s[0] == '(' then Scan(s[1..], depth + 1)
    else if s[0] == ')' then depth > 0 && Scan(s[1..], depth - 1)
    else Scan(s[1..], depth)
  }

  predicate Balanced(s: string) {
    Scan(s, 0)
  }

  function Count(c: char, s: string): nat {
    if s == [] then 0 else (if s[0] == c then 1 else 0) + Count(c, s[1..])
  }

  /** Opening brackets minus closing brackets. */
  function Excess(s: string): int {
    Count('(', s) - Count(')', s)
  }

  /** What one character adds to the depth. */
  function Delta(c: char): int {
    if c == '(' then 1 else if c == ')' then -1 else 0
  }

  /** Starting `depth` deep, no prefix of `s` goes below zero. */
  predicate PrefixesOk(s: string, depth: int) {
    forall k :: 0 <= k <= |s| ==> depth + Excess(s[..k]) >= 0
  }

  predicate WellNested(s: string) {
    PrefixesOk(s, 0) && Excess(s) == 0
  }

  lemma PrefixesStep(s: string, depth: int)
    requires s != []
    ensures Excess(s) == Delta(s[0]) + Excess(s[1..])
    ensures PrefixesOk(s, depth) <==> depth >= 0 && PrefixesOk(s[1..], depth + Delta(s[0]))
  {
    var d := depth + Delta(s[0]);
    forall k | 1 <= k <= |s|
      ensures Excess(s[..k]) == Delta(s[0]) + Excess(s[1..][..k - 1])
    {
      assert s[..k][0] == s[0];
      assert s[..k][1..] == s[1..][..k - 1];
    }
    assert s[..0] == [];
    if PrefixesOk(s, depth) {
      forall k | 0 <= k <= |s[1..]| ensures d + Excess(s[1..][..k]) >= 0 {
        assert depth + Excess(s[..k + 1]) >= 0;
      }
    }
    if depth >= 0 && PrefixesOk(s[1..], d) {
      forall k | 0 <= k <= |s| ensures depth + Excess(s[..k]) >= 0 {
        if k > 0 {
          assert d + Excess(s[1..][..k - 1]) >= 0;
        }
      }
    }
  }

  /** The depth-counter scan accepts exactly the strings whose prefixes keep `depth` non-negative. */
  lemma {:induction false} ScanIff(s: string, depth: nat)
    ensures Scan(s, depth) <==> PrefixesOk(s, depth) && depth + Excess(s) == 0
    decreases |s|
  {
    if s == [] {
      assert s[..0] == [];
    } else {
      PrefixesStep(s, depth);
      var d := depth + Delta(s[0]);
      if d >= 0 {
        ScanIff(s[1..], d);
      } else {
        assert s[1..][..0] == [];
        assert !PrefixesOk(s[1..], d);
      }
    }
  }

  /** The depth-counter scan and the counting characterization agree. */
  lemma BalancedIffWellNested(s: string)
    ensures Balanced(s) <==> WellNested(s)
  {
    ScanIff(s, 0);
  }

  /** A string without brackets passes the check. */
  lemma {:induction false} ParenFreeScan(s: string, depth: nat)
    requires ParenFree(s)
    ensures Scan(s, depth) <==> depth == 0
    decreases |s|
  {
    if s != [] {
      ParenFreeScan(s[1..], depth);
    }
  }

  /** Text without brackets does not move the scan: only the brackets count. */
  lemma {:induction false} ScanSkipsText(s: string, t: string, depth: nat)
    requires ParenFree(s)
    ensures Scan(s + t, depth) == Scan(t, depth)
    decreases |s|
  {
    if s == [] {
      assert s + t == t;
    } else {
      assert (s + t)[0] == s[0] && (s + t)[1..] == s[1..] + t;
      assert !IsParen(s[0]);
      ScanSkipsText(s[1..], t, depth);
    }
  }

  /** An opening bracket goes one level deeper. */
  lemma ScanOpen(x: string, depth: nat)
    ensures Scan("(" + x, depth) == Scan(x, depth + 1)
  {
    assert ("(" + x)[0] == '(' && ("(" + x)[1..] == x;
  }

  /** A closing bracket needs an open level and goes one level up. */
  lemma ScanClose(x: string, depth: nat)
    ensures Scan(")" + x, depth) == (depth > 0 && Scan(x, depth - 1))
  {
    assert (")" + x)[0] == ')' && (")" + x)[1..] == x;
  }

  /** Strings the repository's tests expect to pass the check. */
  lemma BalancedExamples()
    ensures Balanced("(a + b)") && Balanced("()") && Balanced("")
  {
    assert ParenFree("a + b");
    assert "(a + b)" == "(" + ("a + b" + (")" + ""));
    ScanOpen("a + b" + (")" + ""), 0);
    ScanSkipsText("a + b", ")" + "", 1);
    ScanClose("", 1);
    assert "()" == "(" + (")" + "");
    ScanOpen(")" + "", 0);
    ScanClose("", 1);
  }

  /** A nested string the repository's tests expect to pass the check. */
  lemma NestedBalancedExample()
    ensures Balanced("((a + b) * c)")
  {
    assert ParenFree("a + b") && ParenFree(" * c");
    assert "((a + b) * c)" == "(" + ("(" + ("a + b" + (")" + (" * c" + (")" + "")))));
    ScanOpen("(" + ("a + b" + (")" + (" * c" + (")" + "")))), 0);
    ScanOpen("a + b" + (")" + (" * c" + (")" + ""))), 1);
    ScanSkipsText("a + b", ")" + (" * c" + (")" + "")), 2);
    ScanClose(" * c" + (")" + ""), 2);
    ScanSkipsText(" * c", ")" + "", 1);
    ScanClose("", 1);
  }

  /** Three levels deep, as in the repository's tests. */
  lemma DeepBalancedExample()
    ensures Balanced("(((a)))")
  {
    assert ParenFree("a");
    assert "(((a)))" == "(" + ("(" + ("(" + ("a" + (")" + (")" + (")" + ""))))));
    ScanOpen("(" + ("(" + ("a" + (")" + (")" + (")" + ""))))), 0);
    ScanOpen("(" + ("a" + (")" + (")" + (")" + "")))), 1);
    ScanOpen("a" + (")" + (")" + (")" + ""))), 2);
    ScanSkipsText("a", ")" + (")" + (")" + "")), 3);
    ScanClose(")" + (")" + ""), 3);
    ScanClose(")" + "", 2);
    ScanClose("", 1);
  }

  /** Strings with a surplus `)` that the repository's tests expect to fail the check. */
  lemma UnbalancedExamples()
    ensures !Balanced(")(") && !Balanced("(a + b))") && !Balanced("a + b)")
  {
    assert ParenFree("a + b");
    assert ")(" == ")" + "(";
    ScanClose("(", 0);
    assert "a + b)" == "a + b" + (")" + "");
    ScanSkipsText("a + b", ")" + "", 0);
    ScanClose("", 0);
    assert "(a + b))" == "(" + ("a + b" + (")" + (")" + "")));
    ScanOpen("a + b" + (")" + (")" + "")), 0);
    ScanSkipsText("a + b", ")" + (")" + ""), 1);
    ScanClose(")" + "", 1);
    ScanClose("", 0);
  }

  /** Strings with an unclosed `(` that the repository's tests expect to fail the check. */
  lemma UnclosedExamples()
    ensures !Balanced("((a + b)") && !Balanced("(a + b")
  {
    assert ParenFree("a + b");
    assert "((a + b)" == "(" + ("(" + ("a + b" + (")" + "")));
    ScanOpen("(" + ("a + b" + (")" + "")), 0);
    ScanOpen("a + b" + (")" + ""), 1);
    ScanSkipsText("a + b", ")" + "", 2);
    ScanClose("", 2);
    assert "(a + b" == "(" + ("a + b" + "");
    ScanOpen("a + b" + "", 0);
    ScanSkipsText("a + b", "", 1);
  }

  /** An unclosed `(` before a nested pair, as in the repository's tests. */
  lemma UnclosedNestedExample()
    ensures !Balanced("(a + (b * c)")
  {
    assert ParenFree("a + ") && ParenFree("b * c");
    assert "(a + (b * c)" == "(" + ("a + " + ("(" + ("b * c" + (")" + ""))));
    ScanOpen("a + " + ("(" + ("b * c" + (")" + ""))), 0);
    ScanSkipsText("a + ", "(" + ("b * c" + (")" + "")), 1);
    ScanOpen("b * c" + (")" + ""), 1);
    ScanSkipsText("b * c", ")" + "", 2);
    ScanClose("", 2);
  }

  /**
   * `check_brackets`: scans left to right, pushing every `(` and popping on
   * every `)`, failing at once on a `)` with nothing to pop; succeeds when the
   * list ends empty. The list only ever holds `(`, and its length is the depth
   * counter of `Balanced`.
   */
  method CheckBrackets(expr: string) returns (ok: bool)
    ensures ok == Balanced(expr)
    ensures ok <==> WellNested(expr)
  {
    BalancedIffWellNested(expr);
    var stack: seq<char> := [];
    for i := 0 to |expr|
      invariant forall j :: 0 <= j < |stack| ==> stack[j] == '('
      invariant Scan(expr[i..], |stack|) == Balanced(expr)
    {
      var ch := expr[i];
      assert expr[i..][0] == ch && expr[i..][1..] == expr[i + 1..];
      if ch == '(' {
        stack := stack + [ch];
      } else if ch == ')' {
        if |stack| > 0 {
          stack := stack[..|stack| - 1];
        } else {
          return false;
        }
      }
    }
    return |stack| == 0;
  }

  // ----- Bracket removal -----

  function BlankChar(c: char): char {
    if IsParen(c) then ' ' else c
  }

  /** The string with every bracket replaced by a space; other characters keep their positions. */
  function Blank(s: string): (r: string)
    ensures |r| == |s|
    ensures forall i :: 0 <= i < |s| ==> r[i] == (if IsParen(s[i]) then ' ' else s[i])
  {
    if s == [] then [] else Blank(s[..|s| - 1]) + [BlankChar(s[|s| - 1])]
  }

  /** What `remove_brackets` returns: nothing for unbalanced input, else the blanked string stripped. */
  function Unbracketed(s: string): (r: Option<string>)
    ensures r.None? <==> !Balanced(s)
    ensures r.Some? ==> !HasParen(r.value)
  {
    if Balanced(s) then
      var t := Strip(Blank(s));
      assert forall i :: 0 <= i < |t| ==> t[i] == Blank(s)[LeadingSpace(Blank(s)) + i];
      ParenFreeIff(t);
      Some(t)
    else None
  }

  /**
   * `remove_brackets`: `None` unless the brackets check out; otherwise the
   * input copied with each bracket replaced by a space, then stripped.
   */
  method RemoveBrackets(expr: string) returns (r: Option<string>)
    ensures r == Unbracketed(expr)
  {
    var ok := CheckBrackets(expr);
    if ok {
      var resStr := "";
      for i := 0 to |expr|
        invariant resStr == Blank(expr[..i])
      {
        var ch := expr[i];
        assert expr[..i + 1][..i] == expr[..i];
        if ch != '(' && ch != ')' {
          resStr := resStr + [ch];
        } else {
          resStr := resStr + [' '];
        }
      }
      assert expr[..|expr|] == expr;
      return Some(Strip(resStr));
    }
    return None;
  }

  /** `remove_brackets` gives up exactly on the strings that are not well nested. */
  lemma UnbracketedNone(s: string)
    ensures Unbracketed(s).None? <==> !WellNested(s)
  {
    BalancedIffWellNested(s);
  }

  /** Blanking a bracket-free string changes nothing. */
  lemma ParenFreeBlank(s: string)
    requires ParenFree(s)
    ensures Blank(s) == s
  {
  }

  /**
   * On a bracket-free string, removing brackets and then splitting on
   * whitespace gives the same tokens as splitting directly.
   */
  lemma UnbracketedBracketFree(s: string)
    requires !HasParen(s)
    ensures Unbracketed(s).Some?
    ensures Split(Unbracketed(s).value) == Split(s)
  {
    ParenFreeIff(s);
    ParenFreeScan(s, 0);
    ParenFreeBlank(s);
    SplitStrip(s);
  }

  /** Brackets act as token separators: for balanced input the tokens are those of the blanked string. */
  lemma UnbracketedTokens(s: string)
    requires Balanced(s)
    ensures Unbracketed(s).Some?
    ensures Split(Unbracketed(s).value) == Split(Blank(s))
  {
    SplitStrip(Blank(s));
  }

  /** `()` leaves nothing, and `(a + b`, left open, gives `None`. */
  lemma UnbracketedExamples()
    ensures Unbracketed("()") == Some("")
    ensures Unbracketed("(a + b") == None
  {
    BalancedExamples();
    UnclosedExamples();
    assert Blank("()") == "  ";
  }

  /** `(a + b)` gives `a + b`. */
  lemma UnbracketedSumExample()
    ensures Unbracketed("(a + b)") == Some("a + b")
  {
    BalancedExamples();
    var b := Blank("(a + b)");
    forall i | 0 <= i < 7 ensures b[i] == (" " + "a + b" + " ")[i] {}
    assert b == " " + "a + b" + " ";
    StripPadding(" ", "a + b", " ");
  }

  /** The brackets of `((a + b))` balance. */
  lemma DoubleSumBalanced()
    ensures Balanced("((a + b))")
  {
    assert ParenFree("a + b");
    assert "((a + b))" == "(" + ("(" + ("a + b" + (")" + (")" + ""))));
    ScanOpen("(" + ("a + b" + (")" + (")" + ""))), 0);
    ScanOpen("a + b" + (")" + (")" + "")), 1);
    ScanSkipsText("a + b", ")" + (")" + ""), 2);
    ScanClose(")" + "", 2);
    ScanClose("", 1);
  }

  /** `((a + b))` gives `a + b`. */
  lemma UnbracketedDoubleExample()
    ensures Unbracketed("((a + b))") == Some("a + b")
  {
    DoubleSumBalanced();
    var b := Blank("((a + b))");
    forall i | 0 <= i < 9 ensures b[i] == ("  " + "a + b" + "  ")[i] {}
    assert b == "  " + "a + b" + "  ";
    assert AllSpace("  ");
    StripPadding("  ", "a + b", "  ");
  }

  /** `(a)` gives `a`. */
  lemma UnbracketedAtomExample()
    ensures Unbracketed("(a)") == Some("a")
  {
    assert ParenFree("a");
    assert "(a)" == "(" + ("a" + (")" + ""));
    ScanOpen("a" + (")" + ""), 0);
    ScanSkipsText("a", ")" + "", 1);
    ScanClose("", 1);
    var b := Blank("(a)");
    forall i | 0 <= i < 3 ensures b[i] == (" " + "a" + " ")[i] {}
    assert b == " " + "a" + " ";
    StripPadding(" ", "a", " ");
  }

  /** The brackets of `(1 + (2 * 3))` balance. */
  lemma NestedSumBalanced()
    ensures Balanced("(1 + (2 * 3))")
  {
    assert ParenFree("1 + ") && ParenFree("2 * 3");
    assert "(1 + (2 * 3))" == "(" + ("1 + " + ("(" + ("2 * 3" + (")" + (")" + "")))));
    ScanOpen("1 + " + ("(" + ("2 * 3" + (")" + (")" + "")))), 0);
    ScanSkipsText("1 + ", "(" + ("2 * 3" + (")" + (")" + ""))), 1);
    ScanOpen("2 * 3" + (")" + (")" + "")), 1);
    ScanSkipsText("2 * 3", ")" + (")" + ""), 2);
    ScanClose(")" + "", 2);
    ScanClose("", 1);
  }

  /** Blanking `(1 + (2 * 3))`: each bracket becomes a space in place. */
  lemma NestedSumBlank()
    ensures Blank("(1 + (2 * 3))") == " 1 +  2 * 3  "
  {
    var b := Blank("(1 + (2 * 3))");
    forall i | 0 <= i < 13 ensures b[i] == " 1 +  2 * 3  "[i] {}
  }

  /** Stripping the blanked string drops one space in front and two behind. */
  lemma NestedSumStrip()
    ensures Strip(" 1 +  2 * 3  ") == "1 +  2 * 3"
  {
    assert " 1 +  2 * 3  " == " " + "1 +  2 * 3" + "  ";
    assert AllSpace("  ");
    StripPadding(" ", "1 +  2 * 3", "  ");
  }

  /** The result the repository's tests expect for nested brackets: the inner pair leaves two spaces. */
  lemma UnbracketedNestedExample()
    ensures Unbracketed("(1 + (2 * 3))") == Some("1 +  2 * 3")
  {
    NestedSumBalanced();
    NestedSumBlank();
    NestedSumStrip();
  }

  lemma NestedLeftTokens()
    ensures Split("1 +") == ["1", "+"]
  {
    var ts := ["1", "+"];
    assert ts[1..] == ["+"];
    assert Join(ts) == "1 +";
    assert NoSpace("1") && NoSpace("+");
    SplitJoin(ts);
  }

  lemma NestedRightTokens()
    ensures Split("2 * 3") == ["2", "*", "3"]
  {
    var ts := ["2", "*", "3"];
    assert ts[1..] == ["*", "3"] && ts[1..][1..] == ["3"];
    assert Join(ts) == "2 * 3";
    assert NoSpace("2") && NoSpace("*") && NoSpace("3");
    SplitJoin(ts);
  }

  lemma NestedSumPieces()
    ensures "1 +" + "  " + "2 * 3" == "1 +  2 * 3"
    ensures ["1", "+"] + ["2", "*", "3"] == ["1", "+", "2", "*", "3"]
  {
    assert "1 +" + "  " == "1 +  ";
  }

  /** The two spaces left by the inner bracket separate tokens like one. */
  lemma UnbracketedNestedTokens()
    ensures Split("1 +  2 * 3") == ["1", "+", "2", "*", "3"]
  {
    NestedLeftTokens();
    NestedRightTokens();
    assert AllSpace("  ");
    SplitSeparator("1 +", "  ", "2 * 3");
    NestedSumPieces();
  }
}
