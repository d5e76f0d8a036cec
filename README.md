# RPN calculator, modelled in Dafny

The system is a command-line calculator for expressions in reverse Polish
notation. It reads one expression per line. A line may hold round brackets:
their nesting is checked, then each bracket is turned into a space. The line
is stripped and split on whitespace, and the tokens go to a stack machine.
The machine knows these tokens:

- numerals, which are pushed;
- the unary operators `$` (plus) and `~` (minus);
- the binary operators `+ - * / // % **`.

Any other token is passed over. At the end exactly one value must be left.
For each line the program prints either the value or an `ERROR: ...` line,
chosen by the exception raised.

The model has five modules, one for each layer of `src/main.py`:

- `Text` (`text.dfy`): Python's `str.strip()` and `str.split()` with no
  arguments, on ASCII whitespace.
- `Tokens` (`tokens.dfy`): the classifiers `is_int`, `check_op`, `unary_op`
  and `check_num`. It also gives the exact value a numeral denotes.
- `Brackets` (`brackets.dfy`):
  - `check_brackets` is the method `CheckBrackets`, which keeps a stack of
    `(`. It is proved equal to the depth counter `Balanced` and to the
    prefix-counting property `WellNested`.
  - `remove_brackets` is the method `RemoveBrackets`, which copies the
    string in a loop. It is proved equal to the function `Unbracketed`.
- `Evaluator` (`evaluator.dfy`): `calc` is the method `Calc`. It runs the
  loop of the source over a `seq<real>` stack and is proved equal to the
  specification `Eval`, built from `Exec` and `Step`. Instead of raising,
  `calc` returns a `Result` that carries the exception class and its
  message.
- `LineProcessor` (`line_processor.dfy`):
  - the body of `run`'s loop is the function `ProcessLine`, which maps one
    line to the printed `Outcome`;
  - `RunLine` is the same body written as a method that calls the three
    methods above;
  - `Run` runs the loop over a sequence of lines.

Numbers are exact reals. Python's `//` and `%` round toward minus infinity,
so they are defined explicitly as `FloorDiv` and `FloorMod`. For `**`:

- an integral exponent is computed by repeated multiplication;
- a zero base with a negative exponent raises Python's `ZeroDivisionError`;
- every other exponent is passed to a function parameter `fracPow`.

The docstring of `calc` says that leftover values raise `SyntaxError`. The
code raises `IndexError("Invalid expression")` (`src/main.py:183`), and the
model follows the code. `run` therefore prints "expression is incorrect" for
leftover values, just as it does when an operator finds too few operands.

## Model

| member | source | states |
|---|---|---|
| Text.Strip | src/main.py:103 | `strip()` gives the slice of the input between its first and last non-whitespace characters; what it cuts is whitespace; a string without whitespace is unchanged |
| Text.StripPadding | src/main.py:103 | `strip()` removes exactly the whitespace padding around a text that starts and ends with non-whitespace |
| Text.Split | src/main.py:200 | `split()` yields only non-empty tokens without whitespace |
| Text.SplitJoin | src/main.py:205 | tokens written with single spaces split back into the same tokens |
| Text.SplitStrip | src/main.py:200 | `s.strip().split()` equals `s.split()` |
| Text.SplitDropLeading | src/main.py:205 | leading whitespace does not change the tokens |
| Text.SplitDropTrailing | src/main.py:205 | trailing whitespace does not change the tokens |
| Text.SplitAllSpace | src/main.py:205 | a whitespace-only line has no tokens |
| Text.SplitSeparator | src/main.py:200 | a run of one or more whitespace characters between two parts is a single separator: the tokens are those of the left part followed by those of the right part |
| Tokens.Trunc | src/main.py:15 | `int(x)` truncates toward zero: it lies between zero and `x` and within one of `x` |
| Tokens.IsInt | src/main.py:5-15 | `el == int(el)` holds exactly when the value has no fractional part (its floor is itself) |
| Tokens.TruncIntegral | src/main.py:15 | truncation and floor fix exactly the same values, so the test does not depend on the sign |
| Tokens.IsIntExamples | tests/calculator_tests.py:8-17 | 5.0, 0.0, -3.0 and 10 are integral; 5.5 and -3.5 are not |
| Tokens.OperatorSymbols | src/main.py:18-41 | `check_op` accepts exactly the seven binary symbols and `unary_op` exactly `$` and `~`; symbol and operator convert back and forth |
| Tokens.OperatorExamples | tests/calculator_tests.py:21-47 | the verdicts of `check_op` and `unary_op` on the listed tokens |
| Tokens.CheckOp | src/main.py:18-28 | definition: the token is one of `+ * - / % // **` (the equivalence with the operator table is `Tokens.OperatorSymbols`) |
| Tokens.UnaryOp | src/main.py:31-41 | definition: the token is `$` or `~` |
| Tokens.SymbolClasses | src/main.py:124-137 | an operator symbol is not taken for a numeral, and a binary symbol is not taken for a unary one |
| Tokens.TokenClassesDisjoint | src/main.py:124-137 | numerals, unary and binary operators are disjoint classes, so the order of the `if/elif` tests does not matter |
| Tokens.BinOpOf | src/main.py:144-174 | the operator matched by `match el` is the one whose symbol is `el` |
| Tokens.UnOpOf | src/main.py:131-135 | the unary operator matched is the one whose symbol is `el` |
| Tokens.NumValueFacts | src/main.py:126 | a numeral without `.` has an integral value; a leading `-` gives a value at most zero, otherwise it is at least zero |
| Tokens.NatNumeralValue | src/main.py:126 | the digits of a natural number read back as that number |
| Tokens.NumeralRoundTrip | src/main.py:44-58 | every integer written in decimal is accepted by `check_num`, and `float()` gives back that integer |
| Tokens.DecimalNumeral | src/main.py:44-58 | sign, digits, `.`, digits (with a digit on some side) is a numeral whose value is whole part plus fraction, negated after `-` |
| Tokens.NegatedNumeral | src/main.py:126 | prefixing `-` to an unsigned numeral keeps it a numeral and negates its value |
| Tokens.NumeralHasDigit | src/main.py:44-58 | every accepted numeral holds a digit |
| Tokens.CheckNum | src/main.py:44-58 | definition: after an optional sign, digits with at most one `.` and at least one digit (a restriction of `float()`, see "Left out") |
| Tokens.NumValue | src/main.py:126 | definition: `float(el)` for an accepted numeral, the whole part plus the fraction over its power of ten, negated after `-`; its properties are `NumValueFacts`, `NumeralRoundTrip` and `DecimalNumeral` |
| Tokens.AllDigitsHasNoDot | src/main.py:44-58 | a run of digits has no `.` |
| Tokens.DotIndexAfter | src/main.py:44-58 | the first `.` after a run of digits is found after the run |
| Tokens.SignPrefix | src/main.py:44-58 | an optional sign is stripped off before the digits are read, and only `-` makes the value negative |
| Tokens.DottedDigits | src/main.py:44-58 | in digits, `.`, digits the first `.` separates the whole part from the fraction |
| Tokens.Magnitude | src/main.py:126 | the value of whole part and fraction is non-negative, and is the whole part alone without a fraction |
| Tokens.MagnitudeExample | src/main.py:126 | whole part `12` with fraction `34` is 12.34 |
| Tokens.IntegerNumeralExamples | tests/calculator_tests.py:52-56 | `123`, `-56`, `0` are numerals |
| Tokens.DecimalNumeralExample | tests/calculator_tests.py:53 | `12.34` is a numeral |
| Tokens.NegativeDecimalExample | tests/calculator_tests.py:55 | `-78.9` is a numeral |
| Tokens.ZeroDecimalExample | tests/calculator_tests.py:57 | `0.0` is a numeral |
| Tokens.NonNumeralExamples | tests/calculator_tests.py:58-60 | `abc`, `12a` and the empty string are not numerals |
| Tokens.TwoDotsExample | tests/calculator_tests.py:61 | `12.34.56` is not a numeral |
| Tokens.NumValueExamples | src/main.py:126 | `float("12.34")` is 12.34 |
| Brackets.ParenFreeIff | src/main.py:196 | "no `(` or `)` in the line" is the same as "no character of the line is a bracket" |
| Brackets.ScanIff | src/main.py:71-83 | the depth-counter scan from depth `d` accepts exactly when no prefix takes the depth below zero and the final depth is zero |
| Brackets.BalancedIffWellNested | src/main.py:61-83 | brackets pass the check exactly when no prefix has more `)` than `(` and the two counts agree |
| Brackets.PrefixesStep | src/main.py:73-81 | one character moves the excess of `(` over `)` by its own weight, and the prefix condition steps with it |
| Brackets.Scan | src/main.py:71-83 | definition: the loop of `check_brackets` with the list replaced by its length: `(` goes one deeper, `)` fails at depth zero and otherwise goes one up, other characters are passed over, and the end needs depth zero |
| Brackets.Balanced | src/main.py:61-83 | definition: the scan from depth zero |
| Brackets.WellNested | src/main.py:61-83 | definition: no prefix has more `)` than `(`, and the two counts agree |
| Brackets.ScanOpen | src/main.py:74-75 | an opening bracket goes one level deeper |
| Brackets.ScanClose | src/main.py:77-81 | a closing bracket fails with nothing open and otherwise goes one level up |
| Brackets.ParenFreeScan | src/main.py:73-83 | a string without brackets passes exactly from depth zero |
| Brackets.ScanSkipsText | src/main.py:73-82 | characters other than brackets do not move the scan |
| Brackets.BalancedExamples | tests/calculator_tests.py:69-73 | `(a + b)`, `()` and the empty string pass |
| Brackets.NestedBalancedExample | tests/calculator_tests.py:70 | `((a + b) * c)` passes |
| Brackets.DeepBalancedExample | tests/calculator_tests.py:71 | `(((a)))` passes |
| Brackets.UnbalancedExamples | tests/calculator_tests.py:74-78 | `)(`, `(a + b))` and `a + b)` fail: a `)` finds nothing open |
| Brackets.UnclosedExamples | tests/calculator_tests.py:76-79 | `((a + b)` and `(a + b` fail: a `(` is left open |
| Brackets.UnclosedNestedExample | tests/calculator_tests.py:77 | `(a + (b * c)` fails |
| Brackets.CheckBrackets | src/main.py:61-83 | the stack loop returns the depth-counter verdict, and so accepts exactly the well-nested strings |
| Brackets.Blank | src/main.py:97-102 | the copy has the same length; each bracket becomes a space and every other character stays in place |
| Brackets.Unbracketed | src/main.py:86-104 | nothing exactly for unbalanced input; otherwise a string without brackets |
| Brackets.RemoveBrackets | src/main.py:86-104 | the loop returns `Unbracketed`: nothing when the check fails, else the blanked copy stripped |
| Brackets.UnbracketedNone | src/main.py:96-104 | `remove_brackets` gives nothing exactly for strings that are not well nested |
| Brackets.ParenFreeBlank | src/main.py:98-102 | blanking a string without brackets changes nothing |
| Brackets.UnbracketedBracketFree | src/main.py:96-103 | a string without brackets passes, and its tokens survive bracket removal unchanged |
| Brackets.UnbracketedTokens | src/main.py:199-200 | on balanced input the tokens after removal are those of the blanked string: brackets act as separators |
| Brackets.UnbracketedExamples | tests/calculator_tests.py:92-94 | `()` gives the empty string; `(a + b` gives nothing |
| Brackets.UnbracketedSumExample | tests/calculator_tests.py:89 | `(a + b)` gives `a + b` |
| Brackets.DoubleSumBalanced | tests/calculator_tests.py:90 | the brackets of `((a + b))` balance |
| Brackets.UnbracketedDoubleExample | tests/calculator_tests.py:90 | `((a + b))` gives `a + b` |
| Brackets.UnbracketedAtomExample | tests/calculator_tests.py:91 | `(a)` gives `a` |
| Brackets.NestedSumBalanced | tests/calculator_tests.py:93 | the brackets of `(1 + (2 * 3))` balance |
| Brackets.NestedSumBlank | tests/calculator_tests.py:93 | blanking `(1 + (2 * 3))` puts a space where each bracket was |
| Brackets.NestedSumStrip | tests/calculator_tests.py:93 | stripping drops the space in front and the two behind |
| Brackets.UnbracketedNestedExample | tests/calculator_tests.py:93 | `(1 + (2 * 3))` gives `1 +  2 * 3`, with two spaces where the inner `(` was |
| Brackets.NestedLeftTokens | src/main.py:200 | `1 +` splits into `1` and `+` |
| Brackets.NestedRightTokens | src/main.py:200 | `2 * 3` splits into `2`, `*` and `3` |
| Brackets.UnbracketedNestedTokens | src/main.py:199-200 | the two spaces left by the inner bracket separate tokens like one: `1 +  2 * 3` splits into five tokens |
| Evaluator.FloorModBounds | src/main.py:170 | the floor remainder is zero or has the divisor's sign, and is smaller than the divisor in magnitude |
| Evaluator.FloorDivIsFloor | src/main.py:156 | the floor quotient is the floor of the exact quotient |
| Evaluator.FloorDiv | src/main.py:156 | definition: Python's `//` on integers, Dafny's Euclidean quotient corrected by one when the divisor is negative and does not divide the dividend |
| Evaluator.FloorMod | src/main.py:170 | definition: Python's `%` on integers, the dividend minus the divisor times the floor quotient |
| Evaluator.IntPower | src/main.py:148 | a power of a non-zero base is non-zero, and of a positive base is positive |
| Evaluator.PowerOf | src/main.py:148 | definition: `num2 ** num1`; zero to a negative power raises `ZeroDivisionError`, an integral exponent is repeated multiplication or its reciprocal, any other exponent is `fracPow` |
| Evaluator.ApplyUnary | src/main.py:131-135 | definition: `$` keeps the value, `~` multiplies it by -1 |
| Evaluator.ApplyBinary | src/main.py:144-174 | definition: the operator table, `num2` the earlier operand and `num1` the top, with the zero-divisor and integrality errors of `/`, `//` and `%` in the source's order |
| Evaluator.Step | src/main.py:124-176 | definition: one token of the loop; a numeral is pushed, a unary operator pops one value and a binary operator two (`IndexError("pop from empty list")` when they are missing), any other token leaves the stack alone |
| Evaluator.Exec | src/main.py:123-176 | definition: the steps in order, stopping at the first error |
| Evaluator.Eval | src/main.py:107-183 | definition: the loop from an empty stack, then the final pop, which fails on an empty stack and raises `IndexError("Invalid expression")` when values remain |
| Evaluator.Calc | src/main.py:107-183 | the loop with pushes and pops returns exactly what the specification `Eval` gives, for every token list, success and every error alike |
| Evaluator.ExecErrors | src/main.py:128-176 | every failure of the loop is one of the fixed exception classes and messages |
| Evaluator.EvalErrors | src/main.py:107-183 | every failure of `calc` is one of the fixed exception classes and messages |
| Evaluator.ExecSkipsUnknown | src/main.py:123-137 | inserting an unknown token anywhere leaves the loop's result unchanged |
| Evaluator.EvalSkipsUnknown | src/main.py:123-137 | tokens that are neither numerals nor operators never change what `calc` gives |
| Evaluator.ExecArity | src/main.py:130-140 | an operator short of operands makes the loop fail; with enough operands it never fails with `IndexError`; a completed loop changes the height by the net effect of the tokens |
| Evaluator.EvalArity | src/main.py:178-183 | success needs every operator to find its operands and exactly one value left; `IndexError` arises only when one of these fails, and then some error is certain |
| Evaluator.ExecAppend | src/main.py:123-176 | the loop over two token lists in a row is the loop over the first, then, unless it failed, the loop over the second from where the first left off |
| Evaluator.ExecUnderflow | src/main.py:128-140 | an operator reached with no earlier error and fewer values than it needs raises `IndexError("pop from empty list")`, whatever tokens follow |
| Evaluator.EvalUnderflow | src/main.py:128-140 | the same for `calc`: when the tokens before an operator run without error and push fewer values than it needs, `calc` raises `IndexError` |
| Evaluator.EvalCount | src/main.py:178-183 | when the loop completes, every operator found its operands and the stack height is the net effect; no value left raises `IndexError` at the final pop, several raise `IndexError("Invalid expression")`, exactly one is the result |
| Evaluator.EvalUnderflowExample | src/main.py:139-140 | `5 +` raises `IndexError`: `+` finds one value |
| Evaluator.ExecStep | src/main.py:123-176 | the loop is one token's step followed by the rest, and stops at the first error |
| Evaluator.StepNumeral | src/main.py:124-126 | a numeral pushes its value |
| Evaluator.EvalEmptyAndSingle | src/main.py:178-183 | the empty list fails at the final pop; a single numeral gives its own value |
| Evaluator.PushTwo | src/main.py:124-126 | two numerals push their values in order |
| Evaluator.StepBinary | src/main.py:137-176 | a binary operator on two values replaces them by its result, or fails with the operator's error |
| Evaluator.ExecBinary | src/main.py:137-176 | two numerals and a binary operator leave the result, or the operator's error, before the rest of the tokens |
| Evaluator.EvalBinary | src/main.py:137-183 | `[a, b, op]` gives the operator applied to `a` (left) and `b` (right) |
| Evaluator.BinaryOperandOrder | src/main.py:139-164 | the value pushed first is the left operand of `+`, `-`, `*` and `/` |
| Evaluator.DivisionErrors | src/main.py:153-174 | a zero divisor gives the operator's division-by-zero message whatever the other operand; with a non-zero divisor a non-integral operand gives the `//` or `%` integer message, and `/` succeeds |
| Evaluator.FloorRules | src/main.py:155-156 | on integral operands the floor quotient and remainder are integral, recompose the dividend and bound the remainder |
| Evaluator.IntegerDivision | src/main.py:153-174 | `[a, b, "//"]` and `[a, b, "%"]` succeed on integral operands with non-zero divisor and give the floor quotient and remainder |
| Evaluator.EvalUnary | src/main.py:128-135 | `[a, op]` applies the unary operator to `a` |
| Evaluator.UnaryOperators | src/main.py:131-135 | `$` keeps the value and `~` negates it |
| Evaluator.DoubleNegation | src/main.py:134-135 | `~` twice gives the value back |
| Evaluator.EvalAddExample | tests/calculator_tests.py:105 | `2 3 +` gives 5 |
| Evaluator.EvalIntDivExample | tests/calculator_tests.py:110 | `5 2 //` gives 2 |
| Evaluator.EvalModExample | tests/calculator_tests.py:111 | `7 3 %` gives 1 |
| Evaluator.EvalPowerExample | tests/calculator_tests.py:109 | `2 3 **` gives 8 |
| Evaluator.EvalLeftoverExample | tests/calculator_tests.py:139-141 | `2 3 + 5` fails with `IndexError("Invalid expression")` |
| Evaluator.EvalDivisionByZeroExample | tests/calculator_tests.py:129 | `5 0 /` fails with `ZeroDivisionError("Division by zero")` |
| Evaluator.EvalValueErrorExample | tests/calculator_tests.py:132 | `5.5 2 //` fails with `ValueError("Operands for // must be integers")` |
| LineProcessor.Report | src/main.py:208-215 | definition: the `except` clauses, a value printed on success, "ERROR: expression is incorrect" for `IndexError` and `ERROR: ` with the message for any other class; the meaning of the two texts is stated by `ReportTexts` |
| LineProcessor.ProcessLine | src/main.py:194-215 | definition: a line holding a bracket is checked first and gives the bracket error when unbalanced, or else the tokens of the stripped line with brackets removed; a line without brackets gives the tokens of the stripped line; `calc`'s result is then reported |
| LineProcessor.RunLine | src/main.py:194-215 | calling the checker, the remover and `calc` in turn gives the outcome `ProcessLine` specifies |
| LineProcessor.Run | src/main.py:193-215 | one outcome per input line, in order, each the outcome of its own line |
| LineProcessor.OutcomesStep | src/main.py:193-215 | appending the next line's outcome keeps the outcomes in step with the lines |
| LineProcessor.NoParenBalanced | src/main.py:196-205 | a line without brackets passes the bracket check |
| LineProcessor.BalancedLine | src/main.py:196-205 | with balanced brackets, a line is evaluated as the tokens of the line with its brackets blanked, whether or not it holds any |
| LineProcessor.BracketFreeLine | src/main.py:203-205 | a line without brackets is evaluated as its whitespace-separated tokens |
| LineProcessor.ReportTexts | src/main.py:208-215 | an error of `calc` never prints as the bracket error, and prints "expression is incorrect" exactly when it is an `IndexError` |
| LineProcessor.InvalidBracketsIff | src/main.py:196-202 | "ERROR: Invalid brackets" is printed exactly for the lines whose brackets do not balance |
| LineProcessor.ExpressionIncorrectIff | src/main.py:212-213 | "ERROR: expression is incorrect" is printed exactly for balanced lines whose tokens raise `IndexError`; then an operator lacks operands or the final count is not one |
| LineProcessor.UnderflowIncorrect | src/main.py:212-213 | a balanced line on which an operator, reached with no earlier error, finds too few operands prints "ERROR: expression is incorrect" |
| LineProcessor.CountIncorrect | src/main.py:212-213 | a balanced line whose tokens all run but leave no value or more than one prints "ERROR: expression is incorrect" |
| LineProcessor.PrintedWellFormed | src/main.py:194-205 | a value is printed only for balanced lines whose tokens form a complete expression |
| LineProcessor.SplitPadded | src/main.py:205 | tokens written with single spaces and padded with whitespace split back into themselves |
| LineProcessor.SplitLine | src/main.py:205 | a line of tokens ending in a line feed splits into those tokens |
| LineProcessor.ThreeTokenLine | src/main.py:205 | three tokens written with single spaces and a line feed split into those three tokens |
| LineProcessor.SumTokens | tests/calculator_tests.py:148 | `2 3 +` and a line feed split into `2`, `3`, `+` |
| LineProcessor.DivisionByZeroTokens | tests/calculator_tests.py:168 | `5 0 /` and a line feed split into `5`, `0`, `/` |
| LineProcessor.LeftoverTokens | tests/calculator_tests.py:195 | `2 3 + 5` and a line feed split into four tokens |
| LineProcessor.ValueErrorTokens | tests/calculator_tests.py:186 | `5.5 2 //` and a line feed split into `5.5`, `2`, `//` |
| LineProcessor.RunSumExample | tests/calculator_tests.py:147-155 | the line `2 3 +` prints 5 |
| LineProcessor.RunDivisionByZeroExample | tests/calculator_tests.py:167-174 | the line `5 0 /` prints "ERROR: Division by zero" |
| LineProcessor.RunLeftoverExample | tests/calculator_tests.py:194-201 | the line `2 3 + 5` prints "ERROR: expression is incorrect" |
| LineProcessor.RunValueErrorExample | tests/calculator_tests.py:185-192 | the line `5.5 2 //` prints "ERROR: Operands for // must be integers" |
| LineProcessor.RunInvalidBracketsExample | tests/calculator_tests.py:176-183 | the line `( 2 3 +` prints "ERROR: Invalid brackets" |
| LineProcessor.BracketedBalanced | tests/calculator_tests.py:158 | the brackets of `( 2 3 + )` balance |
| LineProcessor.BracketedBlank | tests/calculator_tests.py:158 | blanking `( 2 3 + )` leaves the tokens padded with spaces |
| LineProcessor.BracketedTokens | tests/calculator_tests.py:158 | the blanked line splits into `2`, `3`, `+` |
| LineProcessor.RunBracketedExample | tests/calculator_tests.py:157-165 | the line `( 2 3 + )` prints 5 |

## Left out

- Reading standard input and printing (`src/main.py:181`, `193`, `209-215`): `Run` takes the lines as a sequence and returns the outcomes instead of printing them.
- Floating point: values are exact reals, so rounding, `inf`, `nan`, `-0.0` from `-1 * num1`, and `int()` raising on `inf`/`nan` inside `is_int` are not modelled.
- Output rendering: Python prints a float as `5.0` but the `int` that `//` and `%` push as `2`. The model keeps only the value.
- Tokens.CheckNum: accepts an optional sign, then digits with at most one `.` and at least one digit. This is a restriction of Python's `float()`, which also takes `1e3`, `inf`, `nan`, `1_0`, Unicode digits and surrounding whitespace.
- Tokens.NumValue: gives the exact decimal value of the numeral, not the nearest binary float.
- Evaluator.PowerOf: an integral exponent is computed exactly. A zero base with a negative exponent raises `ZeroDivisionError("0.0 cannot be raised to a negative power")`. Any other exponent is the parameter `fracPow`, and nothing is proved about it. This includes a negative base with a fractional exponent, which gives a complex number in Python.
- `OverflowError` from `**` escapes `run`'s handlers and ends the program; the model has no such outcome.
- Text.IsSpace: whitespace is the ASCII part of `str.isspace` (tab, line feed, vertical tab, form feed, carriage return, the four information separators, space). The Unicode spaces `str.split()` also honours are not modelled.
- Python's exception objects: an error is modelled as its class and message only.
