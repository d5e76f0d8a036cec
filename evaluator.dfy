/**
 * The RPN evaluator `calc`: a stack machine over the token list.
 *
 * A numeral is pushed; a unary operator pops one value and pushes its result;
 * a binary operator pops `num1` (the top) and then `num2` and pushes
 * `f(num2, num1)`; any other token is passed over. At the end exactly one
 * value must be left. Instead of raising, the model returns a `Result` that
 * carries the Python exception class and its message.
 *
 * `Step`, `Exec` and `Eval` are the specification; the method `Calc` is the
 * loop of the source, proved equal to `Eval`.
 *
 * Python's `**` on a non-integral exponent is a floating-point function the
 * model does not compute; it is the parameter `fracPow` throughout.
 */
module Evaluator {
  import opened Tokens

  /** The Python exception classes `calc` raises. */
  datatype Kind = ZeroDivisionError | ValueError | IndexError

  datatype Result<T> = Ok(value: T) | Err(kind: Kind, msg: string)

  /** The message of the `IndexError` that `list.pop()` raises on an empty list. */
  const PopEmpty := "pop from empty list"
  const InvalidExpression := "Invalid expression"
  const DivisionByZero := "Division by zero"
  const IntDivisionByZero := "Integer division by zero"
  const ModuloByZero := "Modulo by zero"
  const IntDivOperands := "Operands for // must be integers"
  const ModOperands := "Operands for % must be integers"
  /** The message of the `ZeroDivisionError` Python's power raises for zero to a negative power. */
  const ZeroToNegativePower := "0.0 cannot be raised to a negative power"

  /** Every error `calc` can produce, with its exception class. */
  predicate KnownError(kind: Kind, msg: string) {
    || (kind == ZeroDivisionError && msg in {DivisionByZero, IntDivisionByZero, ModuloByZero, ZeroToNegativePower})
    || (kind == ValueError && msg in {IntDivOperands, ModOperands})
    || (kind == IndexError && msg in {PopEmpty, InvalidExpression})
  }

  // ----- Operator semantics -----

  /**
   * Python's `a // b` on integers: the quotient rounded toward minus infinity.
   * Dafny's own `/` is Euclidean (its remainder is never negative), which
   * differs when the divisor is negative and does not divide the dividend.
   */
  function FloorDiv(a: int, b: int): int
    requires b != 0
  {
    if b > 0 || a % b == 0 then a / b else a / b - 1
  }

  /** Python's `a % b` on integers: what is left after taking `FloorDiv(a, b)` times `b`. */
  function FloorMod(a: int, b: int): int
    requires b != 0
  {
    a - b * FloorDiv(a, b)
  }

  /**
   * The remainder lies between zero and the divisor: it is zero or has the
   * divisor's sign, and it is smaller than the divisor in magnitude.
   */
  lemma FloorModBounds(a: int, b: int)
    requires b != 0
    ensures b > 0 ==> 0 <= FloorMod(a, b) < b
    ensures b < 0 ==> b < FloorMod(a, b) <= 0
  {
    var q, r := a / b, a % b;
    assert a == b * q + r;
    if b < 0 && r != 0 {
      assert b * (q - 1) == b * q - b;
    }
  }

  lemma DivBounds(r: real, b: real)
    requires 0.0 <= r < b
    ensures 0.0 <= r / b < 1.0
  {
  }

  lemma DivSplit(a: real, b: real, q: real, r: real)
    requires b != 0.0 && a == b * q + r
    ensures a / b == q + r / b
  {
  }

  /** `FloorDiv` is the floor of the exact quotient. */
  lemma FloorDivIsFloor(a: int, b: int)
    requires b != 0
    ensures FloorDiv(a, b) == ((a as real) / (b as real)).Floor
  {
    var q := FloorDiv(a, b);
    var r := FloorMod(a, b);
    FloorModBounds(a, b);
    assert (b * q) as real == (b as real) * (q as real);
    DivSplit(a as real, b as real, q as real, r as real);
    if b > 0 {
      DivBounds(r as real, b as real);
    } else {
      assert (r as real) / (b as real) == (-r as real) / (-b as real);
      DivBounds(-r as real, -b as real);
    }
  }

  /** `base` multiplied by itself `n` times; never zero for a non-zero base. */
  function IntPower(base: real, n: nat): (r: real)
    ensures base != 0.0 ==> r != 0.0
    ensures base > 0.0 ==> r > 0.0
  {
    if n == 0 then 1.0 else base * IntPower(base, n - 1)
  }

  /**
   * Python's `base ** exp`: zero to a negative power raises
   * `ZeroDivisionError`; an integral exponent is repeated multiplication (or
   * its reciprocal); any other exponent is left to `fracPow`.
   */
  function PowerOf(base: real, exp: real, fracPow: (real, real) -> real): Result<real> {
    if base == 0.0 && exp < 0.0 then Err(ZeroDivisionError, ZeroToNegativePower)
    else if IsInt(exp) then
      if exp >= 0.0 then Ok(IntPower(base, exp.Floor))
      else Ok(1.0 / IntPower(base, -exp.Floor))
    else Ok(fracPow(base, exp))
  }

  /** Unary plus keeps the value, unary minus multiplies it by -1. */
  function ApplyUnary(op: UnOp, num1: real): real {
    match op
    case Identity => num1
    case Negate => -1.0 * num1
  }

  /**
   * The binary rules, with `num2` the operand pushed earlier and `num1` the
   * top. For `//` and `%` a zero divisor is reported before non-integral
   * operands.
   */
  function ApplyBinary(op: BinOp, num2: real, num1: real, fracPow: (real, real) -> real): Result<real> {
    match op
    case Add => Ok(num1 + num2)
    case Power => PowerOf(num2, num1, fracPow)
    case Mul => Ok(num1 * num2)
    case Sub => Ok(num2 - num1)
    case IntDiv =>
      if IsInt(num2) && IsInt(num1) && num1 != 0.0 then Ok(FloorDiv(num2.Floor, num1.Floor) as real)
      else if num1 == 0.0 then Err(ZeroDivisionError, IntDivisionByZero)
      else Err(ValueError, IntDivOperands)
    case Div =>
      if num1 != 0.0 then Ok(num2 / num1)
      else Err(ZeroDivisionError, DivisionByZero)
    case Mod =>
      if IsInt(num2) && IsInt(num1) && num1 != 0.0 then Ok(FloorMod(num2.Floor, num1.Floor) as real)
      else if num1 == 0.0 then Err(ZeroDivisionError, ModuloByZero)
      else Err(ValueError, ModOperands)
  }

  // ----- The stack machine as functions -----

  /** A token that is neither a numeral nor an operator; `calc` passes over it. */
  predicate Unknown(el: string) {
    !CheckNum(el) && !UnaryOp(el) && !CheckOp(el)
  }

  /** One iteration of the loop of `calc`; the top of the stack is its last element. */
  function Step(stack: seq<real>, el: string, fracPow: (real, real) -> real): Result<seq<real>> {
    if CheckNum(el) then Ok(stack + [NumValue(el)])
    else if UnaryOp(el) then
      if |stack| == 0 then Err(IndexError, PopEmpty)
      else Ok(stack[..|stack| - 1] + [ApplyUnary(UnOpOf(el), stack[|stack| - 1])])
    else if CheckOp(el) then
      if |stack| < 2 then Err(IndexError, PopEmpty)
      else
        var num1 := stack[|stack| - 1];
        var num2 := stack[|stack| - 2];
        match ApplyBinary(BinOpOf(el), num2, num1, fracPow)
        case Ok(v) => Ok(stack[..|stack| - 2] + [v])
        case Err(k, m) => Err(k, m)
    else Ok(stack)
  }

  /** The loop of `calc` over `tokens`, from the given stack; stops at the first error. */
  function Exec(tokens: seq<string>, stack: seq<real>, fracPow: (real, real) -> real): Result<seq<real>>
    decreases |tokens|
  {
    if tokens == [] then Ok(stack)
    else
      match Step(stack, tokens[0], fracPow)
      case Err(k, m) => Err(k, m)
      case Ok(next) => Exec(tokens[1..], next, fracPow)
  }

  /** `calc`: run the loop from an empty stack, then pop the result, which must be the only value left. */
  function Eval(tokens: seq<string>, fracPow: (real, real) -> real): Result<real> {
    match Exec(tokens, [], fracPow)
    case Err(k, m) => Err(k, m)
    case Ok(stack) =>
      if |stack| == 0 then Err(IndexError, PopEmpty)
      else if |stack| == 1 then Ok(stack[0])
      else Err(IndexError, InvalidExpression)
  }

  // ----- The stack machine as the source's loop -----

  /**
   * `calc`: the same loop over a mutable stack, returning where the source
   * prints or raises.
   */
  method Calc(expr: seq<string>, fracPow: (real, real) -> real) returns (r: Result<real>)
    ensures r == Eval(expr, fracPow)
  {
    var stack: seq<real> := [];
    for i := 0 to |expr|
      invariant Exec(expr[i..], stack, fracPow) == Exec(expr, [], fracPow)
    {
      var el := expr[i];
      ghost var before := stack;
      assert expr[i..][0] == el && expr[i..][1..] == expr[i + 1..];
      if CheckNum(el) {
        stack := stack + [NumValue(el)];
      } else if UnaryOp(el) {
        if |stack| == 0 {
          return Err(IndexError, PopEmpty);
        }
        var num1 := stack[|stack| - 1];
        stack := stack[..|stack| - 1];
        stack := stack + [ApplyUnary(UnOpOf(el), num1)];
      } else if CheckOp(el) {
        if |stack| == 0 {
          return Err(IndexError, PopEmpty);
        }
        var num1 := stack[|stack| - 1];
        stack := stack[..|stack| - 1];
        if |stack| == 0 {
          return Err(IndexError, PopEmpty);
        }
        var num2 := stack[|stack| - 1];
        stack := stack[..|stack| - 1];
        var res := ApplyBinary(BinOpOf(el), num2, num1, fracPow);
        if res.Err? {
          return Err(res.kind, res.msg);
        }
        assert before[..|before| - 1][..|before| - 2] == before[..|before| - 2];
        stack := stack + [res.value];
      }
      assert Step(before, el, fracPow) == Ok(stack);
    }
    if |stack| == 0 {
      return Err(IndexError, PopEmpty);
    }
    var result := stack[|stack| - 1];
    stack := stack[..|stack| - 1];
    if |stack| == 0 {
      return Ok(result);
    } else {
      return Err(IndexError, InvalidExpression);
    }
  }

  // ----- Properties -----

  /** Every failure of `calc` is one of the fixed exception classes and messages. */
  lemma {:induction false} ExecErrors(tokens: seq<string>, stack: seq<real>, fracPow: (real, real) -> real)
    ensures Exec(tokens, stack, fracPow).Err? ==>
      KnownError(Exec(tokens, stack, fracPow).kind, Exec(tokens, stack, fracPow).msg)
    decreases |tokens|
  {
    if tokens != [] {
      var s := Step(stack, tokens[0], fracPow);
      if s.Ok? {
        ExecErrors(tokens[1..], s.value, fracPow);
      }
    }
  }

  lemma EvalErrors(tokens: seq<string>, fracPow: (real, real) -> real)
    ensures Eval(tokens, fracPow).Err? ==> KnownError(Eval(tokens, fracPow).kind, Eval(tokens, fracPow).msg)
  {
    ExecErrors(tokens, [], fracPow);
  }

  /** Passing over an unknown token: inserting one anywhere leaves the run unchanged. */
  lemma {:induction false} ExecSkipsUnknown(xs: seq<string>, t: string, ys: seq<string>, stack: seq<real>, fracPow: (real, real) -> real)
    requires Unknown(t)
    ensures Exec(xs + [t] + ys, stack, fracPow) == Exec(xs + ys, stack, fracPow)
    decreases |xs|
  {
    if xs == [] {
      assert xs + [t] + ys == [t] + ys && ([t] + ys)[1..] == ys && xs + ys == ys;
    } else {
      assert (xs + [t] + ys)[0] == xs[0] && (xs + [t] + ys)[1..] == xs[1..] + [t] + ys;
      assert (xs + ys)[0] == xs[0] && (xs + ys)[1..] == xs[1..] + ys;
      var s := Step(stack, xs[0], fracPow);
      if s.Ok? {
        ExecSkipsUnknown(xs[1..], t, ys, s.value, fracPow);
      }
    }
  }

  /** Tokens that are neither numerals nor operators never change the outcome of `calc`. */
  lemma EvalSkipsUnknown(xs: seq<string>, t: string, ys: seq<string>, fracPow: (real, real) -> real)
    requires Unknown(t)
    ensures Eval(xs + [t] + ys, fracPow) == Eval(xs + ys, fracPow)
  {
    ExecSkipsUnknown(xs, t, ys, [], fracPow);
  }

  /** How many values a token needs on the stack. */
  function Needs(el: string): nat {
    if CheckNum(el) then 0 else if UnaryOp(el) then 1 else if CheckOp(el) then 2 else 0
  }

  /** How a successful token changes the height of the stack. */
  function Effect(el: string): int {
    if CheckNum(el) then 1 else if UnaryOp(el) then 0 else if CheckOp(el) then -1 else 0
  }

  /** The height change of a whole token list. */
  function Net(tokens: seq<string>): int {
    if tokens == [] then 0 else Effect(tokens[0]) + Net(tokens[1..])
  }

  /** Starting at `height`, every operator finds as many values as it needs. */
  predicate ArityOk(tokens: seq<string>, height: int) {
    tokens == [] || (height >= Needs(tokens[0]) && ArityOk(tokens[1..], height + Effect(tokens[0])))
  }

  /**
   * Arity: when some operator lacks operands the run fails; when none does it
   * never fails with `IndexError`; and a completed run changes the height by `Net`.
   */
  lemma {:induction false} ExecArity(tokens: seq<string>, stack: seq<real>, fracPow: (real, real) -> real)
    ensures !ArityOk(tokens, |stack|) ==> Exec(tokens, stack, fracPow).Err?
    ensures ArityOk(tokens, |stack|) && Exec(tokens, stack, fracPow).Err? ==>
      Exec(tokens, stack, fracPow).kind != IndexError
    ensures Exec(tokens, stack, fracPow).Ok? ==> |Exec(tokens, stack, fracPow).value| == |stack| + Net(tokens)
    decreases |tokens|
  {
    if tokens != [] {
      var s := Step(stack, tokens[0], fracPow);
      if s.Ok? {
        assert |s.value| == |stack| + Effect(tokens[0]);
        ExecArity(tokens[1..], s.value, fracPow);
      }
    }
  }

  /**
   * Success requires every operator to find its operands and exactly one value
   * to be left at the end; `IndexError` ("expression is incorrect" for the
   * user) arises only when one of the two fails, and then some error always does.
   */
  lemma EvalArity(tokens: seq<string>, fracPow: (real, real) -> real)
    ensures Eval(tokens, fracPow).Ok? ==> ArityOk(tokens, 0) && Net(tokens) == 1
    ensures !ArityOk(tokens, 0) || Net(tokens) != 1 ==> Eval(tokens, fracPow).Err?
    ensures Eval(tokens, fracPow).Err? && Eval(tokens, fracPow).kind == IndexError ==>
      !ArityOk(tokens, 0) || Net(tokens) != 1
  {
    ExecArity(tokens, [], fracPow);
  }

  /** Running two token lists one after the other is running their concatenation. */
  lemma {:induction false} ExecAppend(xs: seq<string>, ys: seq<string>, stack: seq<real>, fracPow: (real, real) -> real)
    ensures Exec(xs, stack, fracPow).Err? ==> Exec(xs + ys, stack, fracPow) == Exec(xs, stack, fracPow)
    ensures Exec(xs, stack, fracPow).Ok? ==>
      Exec(xs + ys, stack, fracPow) == Exec(ys, Exec(xs, stack, fracPow).value, fracPow)
    decreases |xs|
  {
    if xs == [] {
      assert xs + ys == ys;
    } else {
      assert (xs + ys)[0] == xs[0] && (xs + ys)[1..] == xs[1..] + ys;
      var s := Step(stack, xs[0], fracPow);
      if s.Ok? {
        ExecAppend(xs[1..], ys, s.value, fracPow);
      }
    }
  }

  /**
   * An operator reached without an earlier error but with fewer values than
   * it needs raises `IndexError("pop from empty list")`, whatever follows it.
   */
  lemma ExecUnderflow(xs: seq<string>, el: string, ys: seq<string>, stack: seq<real>, fracPow: (real, real) -> real)
    requires Exec(xs, stack, fracPow).Ok? && |Exec(xs, stack, fracPow).value| < Needs(el)
    ensures Exec(xs + [el] + ys, stack, fracPow) == Err(IndexError, PopEmpty)
  {
    assert xs + [el] + ys == xs + ([el] + ys);
    ExecAppend(xs, [el] + ys, stack, fracPow);
    ExecStep(el, ys, Exec(xs, stack, fracPow).value, fracPow);
  }

  /** For `calc`: an operator short of operands, with no error before it, raises `IndexError`. */
  lemma EvalUnderflow(xs: seq<string>, el: string, ys: seq<string>, fracPow: (real, real) -> real)
    requires Exec(xs, [], fracPow).Ok? && Net(xs) < Needs(el)
    ensures Eval(xs + [el] + ys, fracPow) == Err(IndexError, PopEmpty)
  {
    ExecArity(xs, [], fracPow);
    ExecUnderflow(xs, el, ys, [], fracPow);
  }

  /**
   * When the loop completes, the count alone decides the outcome of `calc`:
   * no value left fails at the final pop, more than one raises
   * `IndexError("Invalid expression")`, and exactly one is the result.
   */
  lemma EvalCount(tokens: seq<string>, fracPow: (real, real) -> real)
    requires Exec(tokens, [], fracPow).Ok?
    ensures ArityOk(tokens, 0) && |Exec(tokens, [], fracPow).value| == Net(tokens)
    ensures Net(tokens) == 0 ==> Eval(tokens, fracPow) == Err(IndexError, PopEmpty)
    ensures Net(tokens) == 1 ==> Eval(tokens, fracPow) == Ok(Exec(tokens, [], fracPow).value[0])
    ensures Net(tokens) > 1 ==> Eval(tokens, fracPow) == Err(IndexError, InvalidExpression)
  {
    ExecArity(tokens, [], fracPow);
  }

  /** An operator with a single operand: `5 +` raises `IndexError`. */
  lemma EvalUnderflowExample(fracPow: (real, real) -> real)
    ensures Eval(["5", "+"], fracPow) == Err(IndexError, PopEmpty)
  {
    assert CheckNum("5") && CheckOp("+");
    assert ["5"][1..] == [];
    assert Exec(["5"], [], fracPow).Ok? && Net(["5"]) == 1;
    EvalUnderflow(["5"], "+", [], fracPow);
    assert ["5"] + ["+"] + [] == ["5", "+"];
  }

  /** One token of the loop, then the rest. */
  lemma ExecStep(t: string, ts: seq<string>, stack: seq<real>, fracPow: (real, real) -> real)
    ensures Step(stack, t, fracPow).Ok? ==>
      Exec([t] + ts, stack, fracPow) == Exec(ts, Step(stack, t, fracPow).value, fracPow)
    ensures Step(stack, t, fracPow).Err? ==>
      Exec([t] + ts, stack, fracPow) == Err(Step(stack, t, fracPow).kind, Step(stack, t, fracPow).msg)
  {
    assert ([t] + ts)[0] == t && ([t] + ts)[1..] == ts;
  }

  /** A numeral token pushes its value. */
  lemma StepNumeral(stack: seq<real>, t: string, fracPow: (real, real) -> real)
    requires CheckNum(t)
    ensures Step(stack, t, fracPow) == Ok(stack + [NumValue(t)])
  {
  }

  /** The empty list fails at the final pop; a lone numeral is its own value. */
  lemma EvalEmptyAndSingle(t: string, fracPow: (real, real) -> real)
    requires CheckNum(t)
    ensures Eval([], fracPow) == Err(IndexError, PopEmpty)
    ensures Eval([t], fracPow) == Ok(NumValue(t))
  {
    ExecStep(t, [], [], fracPow);
    assert [t] + [] == [t] && [] + [NumValue(t)] == [NumValue(t)];
  }

  /** Two numerals pushed on the empty stack. */
  lemma PushTwo(ta: string, tb: string, rest: seq<string>, fracPow: (real, real) -> real)
    requires CheckNum(ta) && CheckNum(tb)
    ensures Exec([ta, tb] + rest, [], fracPow) == Exec(rest, [NumValue(ta), NumValue(tb)], fracPow)
  {
    var a, b := NumValue(ta), NumValue(tb);
    assert [ta, tb] + rest == [ta] + ([tb] + rest);
    assert [] + [a] == [a] && [a] + [b] == [a, b];
    ExecStep(ta, [tb] + rest, [], fracPow);
    ExecStep(tb, rest, [a], fracPow);
  }

  /** A binary operator on a stack of two values. */
  lemma StepBinary(a: real, b: real, op: BinOp, fracPow: (real, real) -> real)
    ensures var res := ApplyBinary(op, a, b, fracPow);
      Step([a, b], BinSymbol(op), fracPow) == if res.Ok? then Ok([res.value]) else Err(res.kind, res.msg)
  {
    SymbolClasses(op, Identity);
    var res := ApplyBinary(op, a, b, fracPow);
    if res.Ok? {
      assert [a, b][..0] + [res.value] == [res.value];
    }
  }

  /** Two numerals and a binary operator, followed by the rest of the tokens, from the empty stack. */
  lemma ExecBinary(ta: string, tb: string, op: BinOp, rest: seq<string>, fracPow: (real, real) -> real)
    requires CheckNum(ta) && CheckNum(tb)
    ensures var res := ApplyBinary(op, NumValue(ta), NumValue(tb), fracPow);
      Exec([ta, tb, BinSymbol(op)] + rest, [], fracPow) ==
        if res.Ok? then Exec(rest, [res.value], fracPow) else Err(res.kind, res.msg)
  {
    var sym := BinSymbol(op);
    var a, b := NumValue(ta), NumValue(tb);
    assert [ta, tb, sym] + rest == [ta, tb] + ([sym] + rest);
    PushTwo(ta, tb, [sym] + rest, fracPow);
    StepBinary(a, b, op, fracPow);
    ExecStep(sym, rest, [a, b], fracPow);
  }

  /** `[a, b, op]` for numerals `a` and `b` applies the operator to `a` (left) and `b` (right). */
  lemma EvalBinary(ta: string, tb: string, op: BinOp, fracPow: (real, real) -> real)
    requires CheckNum(ta) && CheckNum(tb)
    ensures Eval([ta, tb, BinSymbol(op)], fracPow) ==
      match ApplyBinary(op, NumValue(ta), NumValue(tb), fracPow)
      case Ok(v) => Ok(v)
      case Err(k, m) => Err(k, m)
  {
    ExecBinary(ta, tb, op, [], fracPow);
    assert [ta, tb, BinSymbol(op)] + [] == [ta, tb, BinSymbol(op)];
  }

  /**
   * Operand order: the value pushed first is the left operand of `+`, `-`,
   * `*` and `/`.
   */
  lemma BinaryOperandOrder(ta: string, tb: string, fracPow: (real, real) -> real)
    requires CheckNum(ta) && CheckNum(tb)
    ensures Eval([ta, tb, "+"], fracPow) == Ok(NumValue(ta) + NumValue(tb))
    ensures Eval([ta, tb, "-"], fracPow) == Ok(NumValue(ta) - NumValue(tb))
    ensures Eval([ta, tb, "*"], fracPow) == Ok(NumValue(ta) * NumValue(tb))
    ensures NumValue(tb) != 0.0 ==> Eval([ta, tb, "/"], fracPow) == Ok(NumValue(ta) / NumValue(tb))
  {
    EvalBinary(ta, tb, Add, fracPow);
    EvalBinary(ta, tb, Sub, fracPow);
    EvalBinary(ta, tb, Mul, fracPow);
    EvalBinary(ta, tb, Div, fracPow);
  }

  /**
   * Error precedence: a zero divisor gives the division-by-zero message of its
   * operator whatever the other operand; only a non-zero divisor lets a
   * non-integral operand of `//` or `%` be reported, while `/` never asks for
   * integers.
   */
  lemma DivisionErrors(ta: string, tb: string, fracPow: (real, real) -> real)
    requires CheckNum(ta) && CheckNum(tb)
    ensures NumValue(tb) == 0.0 ==>
      && Eval([ta, tb, "/"], fracPow) == Err(ZeroDivisionError, DivisionByZero)
      && Eval([ta, tb, "//"], fracPow) == Err(ZeroDivisionError, IntDivisionByZero)
      && Eval([ta, tb, "%"], fracPow) == Err(ZeroDivisionError, ModuloByZero)
    ensures NumValue(tb) != 0.0 && !(IsInt(NumValue(ta)) && IsInt(NumValue(tb))) ==>
      && Eval([ta, tb, "//"], fracPow) == Err(ValueError, IntDivOperands)
      && Eval([ta, tb, "%"], fracPow) == Err(ValueError, ModOperands)
      && Eval([ta, tb, "/"], fracPow).Ok?
  {
    EvalBinary(ta, tb, Div, fracPow);
    EvalBinary(ta, tb, IntDiv, fracPow);
    EvalBinary(ta, tb, Mod, fracPow);
  }

  /**
   * `q` and `r` are the floor quotient and remainder of `a` by `b`: both
   * integral, `a == b * q + r`, and `r` between zero and `b`.
   */
  predicate QuotRem(a: real, b: real, q: real, r: real) {
    && IsInt(q) && IsInt(r)
    && a == b * q + r
    && (b > 0.0 ==> 0.0 <= r < b)
    && (b < 0.0 ==> b < r <= 0.0)
  }

  /** The `//` and `%` rules on integral operands with a non-zero divisor. */
  lemma FloorRules(a: real, b: real)
    requires IsInt(a) && IsInt(b) && b != 0.0
    ensures QuotRem(a, b, FloorDiv(a.Floor, b.Floor) as real, FloorMod(a.Floor, b.Floor) as real)
  {
    var x, y := a.Floor, b.Floor;
    var q, r := FloorDiv(x, y), FloorMod(x, y);
    FloorModBounds(x, y);
    assert a == x as real && b == y as real;
    assert x == y * q + r;
    assert (y * q) as real == (y as real) * (q as real);
    assert (q as real).Floor == q && (r as real).Floor == r;
  }

  /**
   * Integer division and modulo for two numerals with integral values and a
   * non-zero divisor: both succeed, with the floor quotient and remainder.
   */
  lemma IntegerDivision(ta: string, tb: string, fracPow: (real, real) -> real)
    requires CheckNum(ta) && CheckNum(tb)
    requires IsInt(NumValue(ta)) && IsInt(NumValue(tb)) && NumValue(tb) != 0.0
    ensures Eval([ta, tb, "//"], fracPow).Ok? && Eval([ta, tb, "%"], fracPow).Ok?
    ensures QuotRem(NumValue(ta), NumValue(tb), Eval([ta, tb, "//"], fracPow).value, Eval([ta, tb, "%"], fracPow).value)
  {
    var a, b := NumValue(ta), NumValue(tb);
    EvalBinary(ta, tb, IntDiv, fracPow);
    EvalBinary(ta, tb, Mod, fracPow);
    FloorRules(a, b);
  }

  /** `[a, op]` for a numeral `a` and a unary operator applies the operator to `a`. */
  lemma EvalUnary(ta: string, op: UnOp, fracPow: (real, real) -> real)
    requires CheckNum(ta)
    ensures Eval([ta, UnSymbol(op)], fracPow) == Ok(ApplyUnary(op, NumValue(ta)))
  {
    var sym := UnSymbol(op);
    var a := NumValue(ta);
    TokenClassesDisjoint(sym);
    OperatorSymbols(sym);
    assert UnaryOp(sym) && !CheckNum(sym) && UnOpOf(sym) == op;
    assert [ta, sym] == [ta] + [sym] && [sym] == [sym] + [];
    assert [] + [a] == [a] && [a][..0] == [];
    ExecStep(ta, [sym], [], fracPow);
    ExecStep(sym, [], [a], fracPow);
  }

  /** The unary operators: `$` keeps the value, `~` negates it. */
  lemma UnaryOperators(ta: string, fracPow: (real, real) -> real)
    requires CheckNum(ta)
    ensures Eval([ta, "$"], fracPow) == Ok(NumValue(ta))
    ensures Eval([ta, "~"], fracPow) == Ok(-NumValue(ta))
  {
    EvalUnary(ta, Identity, fracPow);
    EvalUnary(ta, Negate, fracPow);
  }

  /** Applying `~` twice gives the value back. */
  lemma DoubleNegation(ta: string, fracPow: (real, real) -> real)
    requires CheckNum(ta)
    ensures Eval([ta, "~", "~"], fracPow) == Ok(NumValue(ta))
  {
    var a := NumValue(ta);
    assert !CheckNum("~") by {
      TokenClassesDisjoint("~");
    }
    assert UnaryOp("~") && UnOpOf("~") == Negate;
    assert [ta, "~", "~"] == [ta] + ["~", "~"] && ["~", "~"] == ["~"] + ["~"] && ["~"] == ["~"] + [];
    assert [] + [a] == [a] && [a][..0] == [];
    assert [] + [-1.0 * a] == [-a] && [-a][..0] == [];
    assert [] + [-1.0 * -a] == [a];
    ExecStep(ta, ["~", "~"], [], fracPow);
    ExecStep("~", ["~"], [a], fracPow);
    ExecStep("~", [], [-a], fracPow);
  }

  /** A sum the repository's tests expect. */
  lemma EvalAddExample(fracPow: (real, real) -> real)
    ensures Eval(["2", "3", "+"], fracPow) == Ok(5.0)
  {
    NumeralRoundTrip(2);
    NumeralRoundTrip(3);
    assert IntNumeral(2) == "2" && IntNumeral(3) == "3";
    BinaryOperandOrder("2", "3", fracPow);
  }

  /** A floor division the repository's tests expect. */
  lemma EvalIntDivExample(fracPow: (real, real) -> real)
    ensures Eval(["5", "2", "//"], fracPow) == Ok(2.0)
  {
    NumeralRoundTrip(2);
    NumeralRoundTrip(5);
    assert IntNumeral(2) == "2" && IntNumeral(5) == "5";
    EvalBinary("5", "2", IntDiv, fracPow);
    assert (5.0).Floor == 5 && (2.0).Floor == 2;
    assert FloorDiv(5, 2) == 2;
  }

  /** A remainder the repository's tests expect. */
  lemma EvalModExample(fracPow: (real, real) -> real)
    ensures Eval(["7", "3", "%"], fracPow) == Ok(1.0)
  {
    NumeralRoundTrip(3);
    NumeralRoundTrip(7);
    assert IntNumeral(3) == "3" && IntNumeral(7) == "7";
    EvalBinary("7", "3", Mod, fracPow);
    assert (7.0).Floor == 7 && (3.0).Floor == 3;
    assert FloorMod(7, 3) == 1;
  }

  /** A power the repository's tests expect. */
  lemma EvalPowerExample(fracPow: (real, real) -> real)
    ensures Eval(["2", "3", "**"], fracPow) == Ok(8.0)
  {
    NumeralRoundTrip(2);
    NumeralRoundTrip(3);
    assert IntNumeral(2) == "2" && IntNumeral(3) == "3";
    EvalBinary("2", "3", Power, fracPow);
    assert (3.0).Floor == 3;
    assert IntPower(2.0, 3) == 8.0;
  }

  /** A failure the repository's tests expect: two values are left. */
  lemma EvalLeftoverExample(fracPow: (real, real) -> real)
    ensures Eval(["2", "3", "+", "5"], fracPow) == Err(IndexError, InvalidExpression)
  {
    NumeralRoundTrip(2);
    NumeralRoundTrip(3);
    NumeralRoundTrip(5);
    assert IntNumeral(2) == "2" && IntNumeral(3) == "3" && IntNumeral(5) == "5";
    assert ["2", "3", "+", "5"] == ["2", "3", BinSymbol(Add)] + ["5"];
    ExecBinary("2", "3", Add, ["5"], fracPow);
    assert ["5"] == ["5"] + [] && [5.0] + [5.0] == [5.0, 5.0];
    ExecStep("5", [], [5.0], fracPow);
  }

  /** A failure the repository's tests expect: division by zero. */
  lemma EvalDivisionByZeroExample(fracPow: (real, real) -> real)
    ensures Eval(["5", "0", "/"], fracPow) == Err(ZeroDivisionError, DivisionByZero)
  {
    NumeralRoundTrip(0);
    NumeralRoundTrip(5);
    assert IntNumeral(0) == "0" && IntNumeral(5) == "5";
    DivisionErrors("5", "0", fracPow);
  }

  /** A failure the repository's tests expect: `//` on a non-integral operand. */
  lemma EvalValueErrorExample(fracPow: (real, real) -> real)
    ensures Eval(["5.5", "2", "//"], fracPow) == Err(ValueError, IntDivOperands)
  {
    assert CheckNum("5.5") && NumValue("5.5") == 5.5 by {
      assert DotIndex("5.5") == 1 && "5.5"[..1] == "5" && "5.5"[2..] == "5";
    }
    NumeralRoundTrip(2);
    assert IntNumeral(2) == "2";
    DivisionErrors("5.5", "2", fracPow);
  }
}
