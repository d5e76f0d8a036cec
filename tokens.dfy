/**
 * Token classifiers of the calculator (`is_int`, `check_op`, `unary_op`,
 * `check_num`) and the value `float()` gives a numeral token.
 *
 * Numbers are exact reals. A numeral is an optional `+` or `-`, then digits
 * with at most one `.` among them, and at least one digit (`12`, `-7.5`,
 * `3.`, `.25`).
 */
module Tokens {

  /** Python's `int(x)` on a float: truncation toward zero. */
  function Trunc(x: real): (n: int)
    ensures x >= 0.0 ==> 0.0 <= n as real <= x < n as real + 1.0
    ensures x < 0.0 ==> n as real - 1.0 < x <= n as real <= 0.0
  {
    if x >= 0.0 then x.Floor else -((-x).Floor)
  }

  /** `is_int`: the value equals its own truncation, so it has no fractional part. */
  function IsInt(x: real): (r: bool)
    ensures r <==> x.Floor as real == x
  {
    TruncIntegral(x);
    x == Trunc(x) as real
  }

  /** Truncation and the floor leave the same values unchanged: exactly the integers. */
  lemma TruncIntegral(x: real)
    ensures x == Trunc(x) as real <==> x.Floor as real == x
  {
    if x < 0.0 {
      var n := (-x).Floor;
      if x.Floor as real == x {
        assert (-x) == (-x.Floor) as real;
        assert n == -x.Floor;
      }
    }
  }

  // ----- Operators -----

  /** The binary operators `+ ** * - // / %`. */
  datatype BinOp = Add | Power | Mul | Sub | IntDiv | Div | Mod

  /** The unary operators: `$` (unary plus) and `~` (unary minus). */
  datatype UnOp = Identity | Negate

  function BinSymbol(op: BinOp): string {
    match op
    case Add => "+"
    case Power => "**"
    case Mul => "*"
    case Sub => "-"
    case IntDiv => "//"
    case Div => "/"
    case Mod => "%"
  }

  function UnSymbol(op: UnOp): string {
    match op
    case Identity => "$"
    case Negate => "~"
  }

  /** `check_op`: the token is one of the seven binary operator symbols. */
  predicate CheckOp(el: string) {
    el in ["+", "*", "-", "/", "%", "//", "**"]
  }

  /** `unary_op`: the token is `$` or `~`. */
  predicate UnaryOp(el: string) {
    el in ["$", "~"]
  }

  /** The operator a binary symbol stands for (the `match el` of `calc`). */
  function BinOpOf(el: string): (op: BinOp)
    requires CheckOp(el)
    ensures BinSymbol(op) == el
  {
    if el == "+" then Add
    else if el == "**" then Power
    else if el == "*" then Mul
    else if el == "-" then Sub
    else if el == "//" then IntDiv
    else if el == "/" then Div
    else Mod
  }

  /** The operator a unary symbol stands for. */
  function UnOpOf(el: string): (op: UnOp)
    requires UnaryOp(el)
    ensures UnSymbol(op) == el
  {
    if el == "$" then Identity else Negate
  }

  /** The symbol tables and the classifiers agree, in both directions. */
  lemma OperatorSymbols(el: string)
    ensures CheckOp(el) <==> exists op :: BinSymbol(op) == el
    ensures UnaryOp(el) <==> exists op :: UnSymbol(op) == el
    ensures forall op :: CheckOp(BinSymbol(op)) && BinOpOf(BinSymbol(op)) == op
    ensures forall op :: UnaryOp(UnSymbol(op)) && UnOpOf(UnSymbol(op)) == op
  {
    if CheckOp(el) {
      assert BinSymbol(BinOpOf(el)) == el;
    }
    if UnaryOp(el) {
      assert UnSymbol(UnOpOf(el)) == el;
    }
  }

  // ----- Numerals -----

  predicate IsDigit(c: char) {
    '0' <= c <= '9'
  }

  predicate AllDigits(s: string) {
    forall i :: 0 <= i < |s| ==> IsDigit(s[i])
  }

  /** The numeral without its sign. */
  function Unsigned(s: string): (b: string)
    ensures |b| <= |s|
  {
    if s != [] && (s[0] == '+' || s[0] == '-') then s[1..] else s
  }

  /** Position of the first `.`, or the length when there is none. */
  function DotIndex(s: string): (k: nat)
    ensures k <= |s|
    ensures k < |s| ==> s[k] == '.'
    ensures forall i :: 0 <= i < k ==> s[i] != '.'
  {
    if s == [] || s[0] == '.' then 0 else 1 + DotIndex(s[1..])
  }

  /**
   * `check_num`: the token reads as a decimal number (see the module comment);
   * a restriction of what Python's `float()` accepts.
   */
  predicate CheckNum(el: string) {
    var b := Unsigned(el);
    var k := DotIndex(b);
    AllDigits(b[..k]) && (k < |b| ==> AllDigits(b[k + 1..])) && (k > 0 || k + 1 < |b|)
  }

  function DigitValue(c: char): nat
    requires IsDigit(c)
  {
    c as int - '0' as int
  }

  /** The number a run of decimal digits denotes, most significant first. */
  function DigitsValue(s: string): nat
    requires AllDigits(s)
  {
    if s == [] then 0 else 10 * DigitsValue(s[..|s| - 1]) + DigitValue(s[|s| - 1])
  }

  function Pow10(n: nat): (p: nat)
    ensures p >= 1
  {
    if n == 0 then 1 else 10 * Pow10(n - 1)
  }

  /** The value of a whole part and a fraction written in decimal digits. */
  function Magnitude(whole: string, frac: string): (m: real)
    requires AllDigits(whole) && AllDigits(frac)
    ensures m >= 0.0
    ensures frac == [] ==> m == DigitsValue(whole) as real
  {
    DigitsValue(whole) as real + DigitsValue(frac) as real / Pow10(|frac|) as real
  }

  /** `float(el)` for a numeral: integer part plus fraction, negated after a leading `-`. */
  function NumValue(el: string): real
    requires CheckNum(el)
  {
    var b := Unsigned(el);
    var k := DotIndex(b);
    var m := Magnitude(b[..k], if k < |b| then b[k + 1..] else []);
    if el[0] == '-' then -m else m
  }

  /** A numeral without a `.` denotes an integral value; the sign decides on which side of zero the value lies. */
  lemma NumValueFacts(el: string)
    requires CheckNum(el)
    ensures DotIndex(Unsigned(el)) == |Unsigned(el)| ==> IsInt(NumValue(el))
    ensures el[0] == '-' ==> NumValue(el) <= 0.0
    ensures el[0] != '-' ==> NumValue(el) >= 0.0
  {
  }

  /** The decimal numeral of a natural number, without leading zeros. */
  function NatNumeral(n: nat): (s: string)
    ensures s != [] && AllDigits(s)
  {
    if n < 10 then [('0' as int + n) as char]
    else NatNumeral(n / 10) + [('0' as int + n % 10) as char]
  }

  /** The decimal numeral of an integer, with `-` for negatives. */
  function IntNumeral(n: int): string {
    if n < 0 then "-" + NatNumeral(-n) else NatNumeral(n)
  }

  lemma {:induction false} NatNumeralValue(n: nat)
    ensures DigitsValue(NatNumeral(n)) == n
  {
    var s := NatNumeral(n);
    if n >= 10 {
      assert s[..|s| - 1] == NatNumeral(n / 10);
      NatNumeralValue(n / 10);
    }
  }

  lemma AllDigitsHasNoDot(s: string)
    requires AllDigits(s)
    ensures DotIndex(s) == |s|
  {
    if DotIndex(s) < |s| {
      assert IsDigit(s[DotIndex(s)]);
    }
  }

  /** Every integer written in decimal is a numeral, and `float()` reads it back. */
  lemma NumeralRoundTrip(n: int)
    ensures CheckNum(IntNumeral(n))
    ensures NumValue(IntNumeral(n)) == n as real
  {
    var s := IntNumeral(n);
    var m: nat := if n < 0 then -n else n;
    var digits := NatNumeral(m);
    assert Unsigned(s) == digits by {
      if n < 0 {
        assert s[1..] == digits;
      } else {
        assert IsDigit(digits[0]);
      }
    }
    AllDigitsHasNoDot(digits);
    assert digits[..|digits|] == digits;
    NatNumeralValue(m);
  }

  lemma {:induction false} DotIndexAfter(a: string, rest: string)
    requires AllDigits(a)
    ensures DotIndex(a + rest) == |a| + DotIndex(rest)
  {
    if a != [] {
      assert IsDigit(a[0]);
      var s := a + rest;
      assert s[0] == a[0] && s[1..] == a[1..] + rest;
      assert DotIndex(s) == 1 + DotIndex(s[1..]);
      DotIndexAfter(a[1..], rest);
    } else {
      assert a + rest == rest;
    }
  }

  /** A sign in front of an unsigned string is what `Unsigned` removes. */
  lemma SignPrefix(sign: string, u: string)
    requires sign == "" || sign == "+" || sign == "-"
    requires u != [] && u[0] != '+' && u[0] != '-'
    ensures Unsigned(sign + u) == u
    ensures (sign + u)[0] == '-' <==> sign == "-"
  {
    if sign == "" {
      assert sign + u == u;
    } else {
      assert (sign + u)[0] == sign[0] && (sign + u)[1..] == u;
    }
  }

  /** Where the `.` of digits, `.`, digits is, and what lies on either side. */
  lemma DottedDigits(a: string, b: string)
    requires AllDigits(a) && AllDigits(b)
    ensures DotIndex(a + "." + b) == |a|
    ensures (a + "." + b)[..|a|] == a && (a + "." + b)[|a| + 1..] == b
    ensures (a + "." + b)[0] != '+' && (a + "." + b)[0] != '-'
  {
    var u := a + "." + b;
    assert u == a + ("." + b);
    DotIndexAfter(a, "." + b);
    if a != [] {
      assert u[0] == a[0] && IsDigit(a[0]);
    }
  }

  /**
   * An optional sign, digits, a `.` and digits form a numeral when there is a
   * digit on either side of the `.`, and `float()` reads it as the whole part
   * plus the fraction, negated after `-`.
   */
  lemma DecimalNumeral(sign: string, a: string, b: string)
    requires sign == "" || sign == "+" || sign == "-"
    requires AllDigits(a) && AllDigits(b) && (a != [] || b != [])
    ensures CheckNum(sign + a + "." + b)
    ensures NumValue(sign + a + "." + b) == if sign == "-" then -Magnitude(a, b) else Magnitude(a, b)
  {
    var u := a + "." + b;
    assert sign + a + "." + b == sign + u;
    DottedDigits(a, b);
    SignPrefix(sign, u);
  }

  /** A numeral prefixed with `-` denotes the negated value. */
  lemma NegatedNumeral(el: string)
    requires CheckNum(el) && el[0] != '+' && el[0] != '-'
    ensures CheckNum("-" + el)
    ensures NumValue("-" + el) == -NumValue(el)
  {
    assert Unsigned("-" + el) == el == Unsigned(el);
  }

  /** Every numeral holds a digit (which no operator symbol does). */
  lemma NumeralHasDigit(el: string) returns (i: nat)
    requires CheckNum(el)
    ensures i < |el| && IsDigit(el[i])
  {
    var b := Unsigned(el);
    var k := DotIndex(b);
    var j := if k > 0 then 0 else 1;
    assert IsDigit(b[j]);
    i := if b == el then j else j + 1;
    assert el[i] == b[j];
  }

  /** Each operator symbol is classified as its kind of operator and read back as itself. */
  lemma SymbolClasses(bin: BinOp, un: UnOp)
    ensures CheckOp(BinSymbol(bin)) && !UnaryOp(BinSymbol(bin)) && !CheckNum(BinSymbol(bin))
    ensures BinOpOf(BinSymbol(bin)) == bin
    ensures UnaryOp(UnSymbol(un)) && !CheckNum(UnSymbol(un))
    ensures UnOpOf(UnSymbol(un)) == un
  {
    TokenClassesDisjoint(BinSymbol(bin));
    TokenClassesDisjoint(UnSymbol(un));
  }

  /**
   * The token classes cannot overlap, so the order in which `calc` tries them
   * (numeral, then unary, then binary) never decides how a token is read.
   */
  lemma TokenClassesDisjoint(el: string)
    ensures CheckNum(el) ==> !UnaryOp(el) && !CheckOp(el)
    ensures UnaryOp(el) ==> !CheckOp(el)
  {
    if CheckNum(el) {
      var i := NumeralHasDigit(el);
    }
  }

  /** The classifier verdicts the repository's tests expect. */
  lemma IsIntExamples()
    ensures IsInt(5.0) && !IsInt(5.5) && IsInt(0.0) && IsInt(-3.0) && !IsInt(-3.5) && IsInt(10.0)
  {
  }

  lemma OperatorExamples()
    ensures CheckOp("+") && CheckOp("-") && CheckOp("*") && CheckOp("/")
    ensures CheckOp("%") && CheckOp("//") && CheckOp("**")
    ensures !CheckOp("$") && !CheckOp("~") && !CheckOp("abc") && !CheckOp("1")
    ensures UnaryOp("$") && UnaryOp("~") && !UnaryOp("+") && !UnaryOp("-") && !UnaryOp("abc")
  {
  }

  lemma IntegerNumeralExamples()
    ensures CheckNum("123") && CheckNum("-56") && CheckNum("0")
  {
  }

  lemma DecimalNumeralExample()
    ensures CheckNum("12.34")
  {
    assert "" + "12" + "." + "34" == "12.34";
    DecimalNumeral("", "12", "34");
  }

  lemma NegativeDecimalExample()
    ensures CheckNum("-78.9")
  {
    assert "-" + "78" + "." + "9" == "-78.9";
    DecimalNumeral("-", "78", "9");
  }

  lemma ZeroDecimalExample()
    ensures CheckNum("0.0")
  {
    assert "" + "0" + "." + "0" == "0.0";
    DecimalNumeral("", "0", "0");
  }

  lemma NonNumeralExamples()
    ensures !CheckNum("abc") && !CheckNum("12a") && !CheckNum("")
  {
    assert !IsDigit("abc"[0]);
    assert DotIndex("12a") == 3;
    assert !IsDigit("12a"[2]);
  }

  /** Two dots make no numeral. */
  lemma TwoDotsExample()
    ensures !CheckNum("12.34.56")
  {
    var s := "12.34.56";
    assert s == "12" + ".34.56";
    DotIndexAfter("12", ".34.56");
    assert s[3..][2] == '.';
  }

  /** The whole part and the fraction of `12.34`. */
  lemma MagnitudeExample()
    ensures Magnitude("12", "34") == 12.34
  {
    assert "12"[..1] == "1" && "34"[..1] == "3";
    assert "1"[..0] == [] && "3"[..0] == [];
    assert DigitsValue("1") == 1 && DigitsValue("3") == 3;
    assert DigitsValue("12") == 12 && DigitsValue("34") == 34;
    assert |"34"| == 2 && Pow10(2) == 100;
  }

  lemma NumValueExamples()
    ensures CheckNum("12.34") && NumValue("12.34") == 12.34
  {
    assert "" + "12" + "." + "34" == "12.34";
    DecimalNumeral("", "12", "34");
    MagnitudeExample();
  }
}
