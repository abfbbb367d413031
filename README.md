# A verified model of a small expression evaluator

The program reads an input such as `5 + 3 * 2` or `max(5, 2)` and returns a number.
It has four parts:

- **evaluateExpression** reads a flat arithmetic expression from a string stream. It reads a
  number, then an operator, then a number, and so on. It reduces the expression with an
  operand stack and an operator stack.
- **evaluateFunction** looks a name up in a global registry of two-argument functions and
  applies it.
- **trim** strips leading and trailing spaces.
- **parseAndEvaluate** trims the input. If the input has no `(`, it evaluates the input as a
  flat expression. Otherwise it cuts the input at the first `(`, the first `,` after it and
  the first `)`. It evaluates the two argument texts as flat expressions and calls the
  function named by the text before the `(`.

The model follows these parts, one module each:

| module | file | models |
|---|---|---|
| `Results` | results.dfy | the four `runtime_error`s as `Error` values; `Result`, `Option` |
| `Tokens` | tokens.dfy | the reads as `Num`/`Op` tokens; well-formed token streams |
| `CppStrings` | cpp_strings.dfy | `find`, `find_first_not_of`, `find_last_not_of`, `substr`, `npos`, `size_t` wrap-around, `trim` |
| `Lexer` | lexer.dfy | the `ss >> num` / `ss >> op` reads as a token stream |
| `Precedence` | precedence.dfy | a textbook reference: `*` and `/` bind tighter than `+` and `-`, all left-associative |
| `Reducer` | reducer.dfy | `applyOp`, the two-stack loop as an imperative method and as functions that specify it |
| `Dispatcher` | dispatcher.dfy | the registry, `evaluateFunction` and the four bindings of `main` |
| `Parser` | parser.dfy | `parseAndEvaluate`: trimming, slicing and the order of evaluation |
| `Examples` | examples.dfy | the three inputs `main` evaluates, and some inputs on the error paths |

What is proved:

- The two-stack loop computes conventional precedence. On a stream that uses only `+ - * /`,
  `Reducer.Reduce` equals `Precedence.Conventional`: `*` and `/` bind tighter, and operators
  of one level apply left to right.
- On well-formed streams over `+ - * /`, the loop fails exactly when some `/` has a literal
  `0` as its right operand (`Reducer.DivisionByZeroExactly`).
- On reads that pop no empty stack, any other operator character makes it fail
  (`Reducer.UnknownOperatorFails`).
- When the reads end with an operator, as in `5 +`, the final loop can take the top of an
  empty operand stack. For streams over `+ - * /`, the model states when that happens and
  when an error comes first (`Reducer.TrailingOperator`). With any other operator
  character it states only that the result is an error or the empty pop
  (`Reducer.RunUnknownOperator`). For example, `1 / 0 +` and `1 + 2 * 0 /` fail with
  `DivisionByZero`, and `2 + 3 =` fails with `UnknownOperator`.
- `Reducer.EvaluateExpression` is an imperative method with the source's two stacks as
  sequences. Its loops are proved against `Reduce`.
- `parseAndEvaluate` cuts calls as follows:
  - a call with a `)` after the comma has the expected two arguments;
  - a call without `)` is not an error: its second argument runs to the end of the input;
  - a call without a comma is `InvalidFunctionFormat`;
  - an unknown name is `UnknownFunction`.
- On the three inputs of `main`:
  - `5 + 3 * 2` gives 11;
  - `max(5, 2)` gives 5;
  - `max(min(3 * 2, 2), 2)` gives 2. The first argument text is `min(3 * 2`, which reads no
    number and so evaluates to 0. The second argument is ` 2`. So `max(0, 2)` gives 2, and
    the nested call is never evaluated.

Two facts about the code are worth stating on their own:

- **A call without `)` is not an error.** Then `find(')')` returns `npos`, and the length
  `npos - pos2 - 1` is past the end of the string. When the first `)` comes before the
  comma, the `size_t` difference `find(')') - pos2 - 1` wraps around and is past the end
  too. Either way `substr` takes the rest of the string. `Parser.ParseUnclosed` states this.
  `Examples.MissingParenthesisExample` shows it: `max(5, 2` gives 5.
- **The collapse rule gives conventional precedence.** The inner loop applies the pending
  operator when the incoming one is `+`/`-` or the pending one is `*`/`/`. For the four
  operators this coincides with conventional precedence
  (`Reducer.ReduceMatchesConventional`).

## Model

| member | source | states |
|---|---|---|
| CppStrings.SizeSub | ConsoleApplication5/ConsoleApplication5/ConsoleApplication5.cpp:85 | a `size_t` difference: the result is in range and adding `b` back gives `a` modulo 2^64 |
| CppStrings.Find | ConsoleApplication5/ConsoleApplication5/ConsoleApplication5.cpp:77-80 | `find(c, pos)`: `npos`, or an index at or after `pos` holding `c` with no earlier `c` from `pos` on |
| CppStrings.FindFirstNotOf | ConsoleApplication5/ConsoleApplication5/ConsoleApplication5.cpp:67 | `find_first_not_of`: `npos` when every character from `pos` is `c`, else the first one that is not |
| CppStrings.FindLastNotOf | ConsoleApplication5/ConsoleApplication5/ConsoleApplication5.cpp:71 | `find_last_not_of`: the last index before `n` not holding `c`, or `npos` |
| CppStrings.Substr | ConsoleApplication5/ConsoleApplication5/ConsoleApplication5.cpp:72 | `substr(pos, count)`: length `min(count, size - pos)`, characters copied from `pos` on |
| CppStrings.SubstrWithin | ConsoleApplication5/ConsoleApplication5/ConsoleApplication5.cpp:72 | a `substr` that stays inside the string is the slice it covers |
| CppStrings.SubstrToEnd | ConsoleApplication5/ConsoleApplication5/ConsoleApplication5.cpp:85 | a `substr` whose count reaches past the end takes the rest of the string |
| CppStrings.Trim | ConsoleApplication5/ConsoleApplication5/ConsoleApplication5.cpp:66-73 | an all-space string comes back unchanged; otherwise the result starts and ends with a non-space and is the input minus leading and trailing spaces |
| CppStrings.TrimSlice | ConsoleApplication5/ConsoleApplication5/ConsoleApplication5.cpp:67-72 | the characters from the first to the last non-space start and end with a non-space and are the input minus a run of spaces on each side |
| CppStrings.TrimIdempotent | ConsoleApplication5/ConsoleApplication5/ConsoleApplication5.cpp:66-73 | trimming twice is trimming once |
| CppStrings.TrimPadded | ConsoleApplication5/ConsoleApplication5/ConsoleApplication5.cpp:66-73 | any number of spaces around a text that starts and ends with a non-space are removed, giving that text back |
| CppStrings.TrimKeepsTabs | ConsoleApplication5/ConsoleApplication5/ConsoleApplication5.cpp:67-71 | only `' '` is stripped: a tab next to the text stays |
| Lexer.SkipWhitespace | ConsoleApplication5/ConsoleApplication5/ConsoleApplication5.cpp:32-34 | the extractors' leading-whitespace skip: stops at the first non-whitespace character |
| Lexer.DigitsEnd | ConsoleApplication5/ConsoleApplication5/ConsoleApplication5.cpp:32 | the run of digits a number read consumes: all digits, followed by a non-digit or the end |
| Lexer.ReadNumber | ConsoleApplication5/ConsoleApplication5/ConsoleApplication5.cpp:32 | a successful `>> num` read consumes at least one character and stays within the string |
| Lexer.ReadNumberFails | ConsoleApplication5/ConsoleApplication5/ConsoleApplication5.cpp:32 | `>> num` fails exactly when neither a digit nor a point followed by a digit follows the optional sign |
| Lexer.LexNumber | ConsoleApplication5/ConsoleApplication5/ConsoleApplication5.cpp:32-34 | the reads from a `>> num` on alternate, numbers at even positions and operators at odd ones |
| Lexer.LexOperator | ConsoleApplication5/ConsoleApplication5/ConsoleApplication5.cpp:34 | the reads from a `>> op` on alternate, starting with an operator |
| Lexer.Lex | ConsoleApplication5/ConsoleApplication5/ConsoleApplication5.cpp:32-43 | all the reads of the loop alternate, starting with a number |
| Lexer.NumberThenOperators | ConsoleApplication5/ConsoleApplication5/ConsoleApplication5.cpp:32-34 | a number followed by reads that start with an operator alternates |
| Lexer.OperatorThenNumbers | ConsoleApplication5/ConsoleApplication5/ConsoleApplication5.cpp:34 | an operator followed by alternating reads starts with an operator |
| Lexer.NoLeadingNumber | ConsoleApplication5/ConsoleApplication5/ConsoleApplication5.cpp:32 | when the first non-whitespace character cannot start a number, nothing is read |
| Lexer.SkipWhitespaceIs | ConsoleApplication5/ConsoleApplication5/ConsoleApplication5.cpp:32-34 | the skip ends at the first non-whitespace index, whichever it is |
| Lexer.ReadDigit | ConsoleApplication5/ConsoleApplication5/ConsoleApplication5.cpp:32 | a lone digit reads as its value and consumes one character |
| Lexer.DigitsEndIs | ConsoleApplication5/ConsoleApplication5/ConsoleApplication5.cpp:32 | the run of digits a number read consumes ends at the first non-digit, whichever it is |
| Lexer.ReadInteger | ConsoleApplication5/ConsoleApplication5/ConsoleApplication5.cpp:32 | a run of digits followed by neither a digit nor a point reads as the integer it spells, and the read ends just past it |
| Lexer.DigitsBelowPow10 | ConsoleApplication5/ConsoleApplication5/ConsoleApplication5.cpp:32 | `n` digits spell a number below `10^n`, so the digits after the point add less than one |
| Lexer.DecimalBounds | ConsoleApplication5/ConsoleApplication5/ConsoleApplication5.cpp:32 | the decimal `whole.fraction` lies between the whole part and the next integer |
| Lexer.ReadDecimal | ConsoleApplication5/ConsoleApplication5/ConsoleApplication5.cpp:32 | digits, a point and digits (at least one digit in all) read as the decimal they spell, between the whole part and the next integer, and the read ends after the last digit |
| Lexer.ReadSigned | ConsoleApplication5/ConsoleApplication5/ConsoleApplication5.cpp:32 | a second sign makes the read fail; otherwise a sign reads as the unsigned number after it, negated for `-`, ending at the same index |
| Lexer.LexDigitAt | ConsoleApplication5/ConsoleApplication5/ConsoleApplication5.cpp:32-34 | a number read that meets a lone digit after whitespace yields that digit, then an operator read |
| Lexer.LexOperatorAt | ConsoleApplication5/ConsoleApplication5/ConsoleApplication5.cpp:34 | `>> op` yields the first non-whitespace character, then a number read follows |
| Lexer.LexOperatorEnd | ConsoleApplication5/ConsoleApplication5/ConsoleApplication5.cpp:34 | `>> op` with only whitespace left reads nothing and ends the loop |
| Tokens.PrefixWellFormed | ConsoleApplication5/ConsoleApplication5/ConsoleApplication5.cpp:32-43 | the reads before an operator form a non-empty well-formed stream |
| Tokens.SuffixWellFormed | ConsoleApplication5/ConsoleApplication5/ConsoleApplication5.cpp:32-43 | the reads after an operator form a non-empty well-formed stream |
| Precedence.LastAdditive | ConsoleApplication5/ConsoleApplication5/ConsoleApplication5.cpp:35 | the position of the last `+`/`-`, where a conventional expression splits, with none after it |
| Precedence.ExtendAdditive | ConsoleApplication5/ConsoleApplication5/ConsoleApplication5.cpp:35 | appending `+ n` or `- n` applies the operator to the whole value so far (left associativity) |
| Precedence.TermExtend | ConsoleApplication5/ConsoleApplication5/ConsoleApplication5.cpp:35 | appending `* n` or `/ n` to a term applies it to the term's value |
| Precedence.ExtendMultiplicative | ConsoleApplication5/ConsoleApplication5/ConsoleApplication5.cpp:35 | appending `* n` or `/ n` changes only the last term, not the sum before it |
| Precedence.LastAdditiveExtend | ConsoleApplication5/ConsoleApplication5/ConsoleApplication5.cpp:35 | appending `* n` or `/ n` leaves the split point where it was |
| Precedence.DividesByZeroExtend | ConsoleApplication5/ConsoleApplication5/ConsoleApplication5.cpp:27 | a longer stream divides by zero iff its prefix does or the new pair is `/ 0` |
| Precedence.DividesByZeroPrefix | ConsoleApplication5/ConsoleApplication5/ConsoleApplication5.cpp:27 | a division by zero in a prefix is one in the whole stream |
| Precedence.ConventionalExample | ConsoleApplication5/ConsoleApplication5/ConsoleApplication5.cpp:102 | under the reference, `5 + 3 * 2` is 11 |
| Reducer.ApplyOp | ConsoleApplication5/ConsoleApplication5/ConsoleApplication5.cpp:22-30 | succeeds iff the operator is one of `+ - * /` and it is not a division by 0, with the arithmetic value; otherwise `UnknownOperator` or `DivisionByZero` |
| Reducer.Collapse | ConsoleApplication5/ConsoleApplication5/ConsoleApplication5.cpp:35-40 | the inner loop pops operators only, keeps one more number than operators, and stops when the top no longer has to be applied before `op` |
| Reducer.MustCollapse | ConsoleApplication5/ConsoleApplication5/ConsoleApplication5.cpp:35 | the inner loop's condition: an incoming `+`/`-`, or a pending `*`/`/`; its effect on the stacks is stated by `Reducer.CollapseOne` and `Reducer.CollapseTwo` |
| Reducer.Drain | ConsoleApplication5/ConsoleApplication5/ConsoleApplication5.cpp:45-52 | the final loop ends whenever there is one more operand than operators; a pending operator outside `+ - * /` makes it fail or pop an empty stack |
| Reducer.Run | ConsoleApplication5/ConsoleApplication5/ConsoleApplication5.cpp:32-52 | the whole reduction from a given point ends whenever the reads end with a number; a pending operator outside `+ - * /` makes it fail or pop an empty stack |
| Reducer.Evaluate | ConsoleApplication5/ConsoleApplication5/ConsoleApplication5.cpp:15-53 | on well-formed reads `num (op num)*` the loop never takes the top of an empty stack |
| Reducer.Reduce | ConsoleApplication5/ConsoleApplication5/ConsoleApplication5.cpp:52 | the value evaluateExpression returns on reads that pop no empty stack; it equals conventional precedence on `+ - * /` streams, as `Reducer.ReduceMatchesConventional` and `Reducer.DivisionByZeroExactly` state |
| Reducer.CollapseLoop | ConsoleApplication5/ConsoleApplication5/ConsoleApplication5.cpp:35-40 | the inner loop, as a method, computes `Collapse` |
| Reducer.MainStep | ConsoleApplication5/ConsoleApplication5/ConsoleApplication5.cpp:32-42 | one round of the outer loop: an error is the error of the whole evaluation; otherwise the evaluation continues from the new stacks with the same outcome, and the stacks keep the shape `[+/-] [*//]` on `+ - * /` reads |
| Reducer.EvaluateExpression | ConsoleApplication5/ConsoleApplication5/ConsoleApplication5.cpp:15-53 | on every input that pops no empty stack, the two-stack loop yields `Reduce` of its reads, and on well-formed `+ - * /` streams the conventional value or `DivisionByZero` |
| Reducer.CollapseOne | ConsoleApplication5/ConsoleApplication5/ConsoleApplication5.cpp:35-40 | with one pending operator, the collapse applies it exactly when the rule demands |
| Reducer.CollapseTwo | ConsoleApplication5/ConsoleApplication5/ConsoleApplication5.cpp:35-40 | with a pending `+`/`-` under a `*`/`/`, the collapse applies one or both as the incoming operator demands |
| Reducer.CollapseStep | ConsoleApplication5/ConsoleApplication5/ConsoleApplication5.cpp:35-41 | after reading `o n` and then `o2`, the stacks again hold the pending form of the conventional value (or the division by zero) |
| Reducer.CollapseAfterAdditive | ConsoleApplication5/ConsoleApplication5/ConsoleApplication5.cpp:35-41 | the step of `CollapseStep` after a `+`/`-` |
| Reducer.CollapseAfterTerm | ConsoleApplication5/ConsoleApplication5/ConsoleApplication5.cpp:35-41 | the step of `CollapseStep` after a `*`/`/` with no `+`/`-` before it |
| Reducer.CollapseAfterSum | ConsoleApplication5/ConsoleApplication5/ConsoleApplication5.cpp:35-41 | the step of `CollapseStep` after a `*`/`/` that follows a `+`/`-` |
| Reducer.LastAdditiveExtendAdditive | ConsoleApplication5/ConsoleApplication5/ConsoleApplication5.cpp:35 | after appending `+ n` or `- n`, the split point is that operator |
| Reducer.DrainOne | ConsoleApplication5/ConsoleApplication5/ConsoleApplication5.cpp:45-50 | the final loop on one pending operator applies it |
| Reducer.DrainTwo | ConsoleApplication5/ConsoleApplication5/ConsoleApplication5.cpp:45-50 | the final loop on a pending `*`/`/` above a `+`/`-` applies the upper one first, or fails on `/ 0` |
| Reducer.FourOpsExtend | ConsoleApplication5/ConsoleApplication5/ConsoleApplication5.cpp:35 | appending one of `+ - * /` and a number keeps the stream within the four operators |
| Reducer.FinalDrain | ConsoleApplication5/ConsoleApplication5/ConsoleApplication5.cpp:45-52 | draining the pending stacks gives the conventional value of the whole stream |
| Reducer.FinalAfterAdditive | ConsoleApplication5/ConsoleApplication5/ConsoleApplication5.cpp:45-52 | the drain after a last `+`/`-` gives the conventional value |
| Reducer.FinalAfterTerm | ConsoleApplication5/ConsoleApplication5/ConsoleApplication5.cpp:45-52 | the drain after a last `*`/`/` with no `+`/`-` before gives the conventional value, or `DivisionByZero` on `/ 0` |
| Reducer.FinalAfterSum | ConsoleApplication5/ConsoleApplication5/ConsoleApplication5.cpp:45-52 | the drain after a last `*`/`/` that follows a `+`/`-` gives the conventional value, or `DivisionByZero` on `/ 0` |
| Reducer.PendingStep | ConsoleApplication5/ConsoleApplication5/ConsoleApplication5.cpp:32-42 | one more round of the outer loop keeps the stacks in the pending form of the conventional value, or fails with `DivisionByZero` exactly when the reads so far divide by zero |
| Reducer.RunAgrees | ConsoleApplication5/ConsoleApplication5/ConsoleApplication5.cpp:32-52 | from any point with the pending stacks of the prefix, the reduction ends with the conventional result |
| Reducer.LastDrain | ConsoleApplication5/ConsoleApplication5/ConsoleApplication5.cpp:45-52 | the last number read, then the final loop, gives the conventional result |
| Reducer.ReduceMatchesConventional | ConsoleApplication5/ConsoleApplication5/ConsoleApplication5.cpp:15-53 | on streams using only `+ - * /`, the stack reduction equals conventional precedence (including the error) |
| Reducer.DivisionByZeroExactly | ConsoleApplication5/ConsoleApplication5/ConsoleApplication5.cpp:27 | on such streams it fails iff some `/` has right operand 0, and the error is then `DivisionByZero` |
| Reducer.SingleOperator | ConsoleApplication5/ConsoleApplication5/ConsoleApplication5.cpp:45-52 | `a op b` evaluates to `applyOp(a, b, op)`, whatever `op` is |
| Reducer.RunUnknownOperator | ConsoleApplication5/ConsoleApplication5/ConsoleApplication5.cpp:28 | a pending or later operator outside `+ - * /` makes the reduction fail |
| Reducer.UnknownOperatorFails | ConsoleApplication5/ConsoleApplication5/ConsoleApplication5.cpp:28 | any operator outside `+ - * /` in the stream makes evaluation fail |
| Reducer.ReduceExample | ConsoleApplication5/ConsoleApplication5/ConsoleApplication5.cpp:102 | the reads of `5 + 3 * 2` reduce to 11 |
| Reducer.DrainPending | ConsoleApplication5/ConsoleApplication5/ConsoleApplication5.cpp:45-50 | the final loop on the stacks left by reads that end with an operator: `DivisionByZero` when a `/` meets a zero term, otherwise the pop of an empty stack |
| Reducer.TrailingLast | ConsoleApplication5/ConsoleApplication5/ConsoleApplication5.cpp:32-50 | the last number and the trailing operator, then the final loop, give that outcome |
| Reducer.RunTrailing | ConsoleApplication5/ConsoleApplication5/ConsoleApplication5.cpp:32-50 | from any point with the pending stacks of the prefix, reads that end with an operator give that outcome |
| Reducer.AlternatingTrailing | ConsoleApplication5/ConsoleApplication5/ConsoleApplication5.cpp:32-34 | a well-formed stream followed by an operator still alternates |
| Reducer.TrailingOperator | ConsoleApplication5/ConsoleApplication5/ConsoleApplication5.cpp:15-53 | reads `num (op num)* op` over `+ - * /`: `DivisionByZero` when a `/ 0` is applied first or the final loop divides by a zero last term, otherwise the pop of an empty stack |
| Reducer.TrailingDivisionByZero | ConsoleApplication5/ConsoleApplication5/ConsoleApplication5.cpp:27 | `1 / 0 +` fails with `DivisionByZero` before the final loop |
| Reducer.TrailingHiddenZero | ConsoleApplication5/ConsoleApplication5/ConsoleApplication5.cpp:27 | `1 + 2 * 0 /` fails with `DivisionByZero` in the final loop |
| Reducer.TrailingEmptyPop | ConsoleApplication5/ConsoleApplication5/ConsoleApplication5.cpp:46-47 | `1 + 2 -` pops an empty operand stack, so it is outside the inputs on which the loop is defined |
| Reducer.TrailingUnknownAfterSum | ConsoleApplication5/ConsoleApplication5/ConsoleApplication5.cpp:28 | `a + b` or `a - b` followed by any other operator character fails with `UnknownOperator` |
| Reducer.TrailingUnknownOperator | ConsoleApplication5/ConsoleApplication5/ConsoleApplication5.cpp:28 | `2 + 3 =` fails with `UnknownOperator` |
| Dispatcher.EvaluateFunction | ConsoleApplication5/ConsoleApplication5/ConsoleApplication5.cpp:56-63 | succeeds iff the name is registered, with the registered function applied to both arguments; otherwise `UnknownFunction(name)` |
| Dispatcher.Builtins | ConsoleApplication5/ConsoleApplication5/ConsoleApplication5.cpp:95-98 | `main` registers exactly `pow`, `abs`, `max`, `min` |
| Dispatcher.Max | ConsoleApplication5/ConsoleApplication5/ConsoleApplication5.cpp:97 | `std::max`: one of its arguments, at least as large as both; stated by `Dispatcher.BuiltinMax` |
| Dispatcher.Min | ConsoleApplication5/ConsoleApplication5/ConsoleApplication5.cpp:98 | `std::min`: one of its arguments, at most as large as both; stated by `Dispatcher.BuiltinMin` |
| Dispatcher.Abs | ConsoleApplication5/ConsoleApplication5/ConsoleApplication5.cpp:96 | `abs` on a double: `x` or `-x`, never negative; stated by `Dispatcher.BuiltinAbs` |
| Dispatcher.BuiltinMax | ConsoleApplication5/ConsoleApplication5/ConsoleApplication5.cpp:97 | `max` succeeds with one of its arguments, at least as large as both |
| Dispatcher.BuiltinMin | ConsoleApplication5/ConsoleApplication5/ConsoleApplication5.cpp:98 | `min` succeeds with one of its arguments, at most as large as both |
| Dispatcher.BuiltinAbs | ConsoleApplication5/ConsoleApplication5/ConsoleApplication5.cpp:96 | `abs` gives `x` or `-x`, never negative, whatever the second argument is |
| Dispatcher.BuiltinPow | ConsoleApplication5/ConsoleApplication5/ConsoleApplication5.cpp:95 | `pow` applies the library power function |
| Dispatcher.UnknownBuiltin | ConsoleApplication5/ConsoleApplication5/ConsoleApplication5.cpp:57-61 | any other name is `UnknownFunction(name)` |
| Dispatcher.RegisterBinding | ConsoleApplication5/ConsoleApplication5/ConsoleApplication5.cpp:95-98 | binding a name makes that name call the new function and leaves other names as they were |
| Parser.EvaluateString | ConsoleApplication5/ConsoleApplication5/ConsoleApplication5.cpp:15-53 | evaluateExpression on a string as parseAndEvaluate calls it; its results are stated by `Parser.EvaluateConventional`, `Parser.EvaluateUnknownOperator` and `Parser.NoNumberIsZero` |
| Parser.EvaluateConventional | ConsoleApplication5/ConsoleApplication5/ConsoleApplication5.cpp:15-53 | on text that reads as a well-formed `+ - * /` stream, the value is the conventional one, and it is an error exactly when a `/` meets a literal 0 |
| Parser.EvaluateUnknownOperator | ConsoleApplication5/ConsoleApplication5/ConsoleApplication5.cpp:22-30 | on text that pops no empty stack, reading any operator other than `+ - * /` makes evaluation fail |
| Parser.NoNumberIsZero | ConsoleApplication5/ConsoleApplication5/ConsoleApplication5.cpp:32-52 | text whose first read finds no number gives 0, through the empty-stack branch |
| Parser.Split | ConsoleApplication5/ConsoleApplication5/ConsoleApplication5.cpp:77-85 | the cutting of the trimmed input into a flat expression, a malformed call, or a name and two argument texts; its cuts are stated by `Parser.SplitAt` and `Parser.SplitFlat` |
| Parser.EvaluateTrimmed | ConsoleApplication5/ConsoleApplication5/ConsoleApplication5.cpp:78-90 | the branches after trimming: the flat expression's value, `InvalidFunctionFormat`, or argument 1, argument 2 and the lookup in that order; stated by `Parser.ParseFlat`, `Parser.ParseMissingComma`, `Parser.ParseCall` and `Parser.ParseUnclosed` |
| Parser.ParseAndEvaluate | ConsoleApplication5/ConsoleApplication5/ConsoleApplication5.cpp:75-91 | parseAndEvaluate with the registry passed in: trim, then `EvaluateTrimmed`; its results are stated by `Parser.ParseFlat`, `Parser.ParseMissingComma`, `Parser.ParseCall`, `Parser.ParseUnclosed` and `Parser.ParseIgnoresPadding` |
| Parser.SplitFlat | ConsoleApplication5/ConsoleApplication5/ConsoleApplication5.cpp:77-78 | a trimmed input without `(` is one flat expression |
| Parser.SplitMissingComma | ConsoleApplication5/ConsoleApplication5/ConsoleApplication5.cpp:80-83 | a `(` with no `,` after it is malformed |
| Parser.FindIs | ConsoleApplication5/ConsoleApplication5/ConsoleApplication5.cpp:77-80 | `find` returns the first matching position from its start |
| Parser.SplitAt | ConsoleApplication5/ConsoleApplication5/ConsoleApplication5.cpp:77-85 | the name is the text before the first `(`, argument 1 runs to the first `,` after it, argument 2 to the first `)` if that comes after the comma, else to the end |
| Parser.SecondArgument | ConsoleApplication5/ConsoleApplication5/ConsoleApplication5.cpp:85 | the second argument's `size_t` length ends it at the first `)` when that comes after the comma, and at the end of the text otherwise |
| Parser.CallText | ConsoleApplication5/ConsoleApplication5/ConsoleApplication5.cpp:77-85 | where the name, `(`, first argument, `,` and the rest sit in `name(a,rest` |
| Parser.SplitCall | ConsoleApplication5/ConsoleApplication5/ConsoleApplication5.cpp:77-85 | `name(a,rest` cuts into `name`, `a` and `rest` up to the first `)` of the text if that comes after the comma |
| Parser.FirstCloseAfterB | ConsoleApplication5/ConsoleApplication5/ConsoleApplication5.cpp:85 | in `name(a,b)tail` with no `)` in `name`, `a` or `b`, `find(')')` finds the one after `b` |
| Parser.SplitClosed | ConsoleApplication5/ConsoleApplication5/ConsoleApplication5.cpp:79-85 | `name(a,b)tail`, with `)` first after `b`, splits into `name`, `a`, `b` |
| Parser.NoCloseAfterComma | ConsoleApplication5/ConsoleApplication5/ConsoleApplication5.cpp:85 | in `name(a,b` with a `)` before the comma or none in `b`, `find(')')` finds none after the comma |
| Parser.SplitUnclosed | ConsoleApplication5/ConsoleApplication5/ConsoleApplication5.cpp:85 | `name(a,b` with no usable `)` splits into `name`, `a` and all of `b` |
| Parser.ParseFlat | ConsoleApplication5/ConsoleApplication5/ConsoleApplication5.cpp:88-90 | an input without `(` evaluates as its trimmed expression, which is the conventional value on `+ - * /` |
| Parser.ParseMissingComma | ConsoleApplication5/ConsoleApplication5/ConsoleApplication5.cpp:81-83 | a `(` without a later `,` is `InvalidFunctionFormat` of the trimmed input |
| Parser.ParseCall | ConsoleApplication5/ConsoleApplication5/ConsoleApplication5.cpp:75-87 | a closed call evaluates argument 1, then argument 2, then the registry lookup; the first error wins, the result is the function's value iff the name is registered, else `UnknownFunction` |
| Parser.ParseUnclosed | ConsoleApplication5/ConsoleApplication5/ConsoleApplication5.cpp:75-87 | a call without a usable `)` is no error: its second argument is the rest of the input, evaluated in the same order as a closed call, with the same error cases |
| Parser.ParseIgnoresPadding | ConsoleApplication5/ConsoleApplication5/ConsoleApplication5.cpp:76 | surrounding spaces do not change the result |
| Parser.CallArgumentIsZero | ConsoleApplication5/ConsoleApplication5/ConsoleApplication5.cpp:84 | an argument text starting with a letter (such as a nested call) reads no number and evaluates to 0 |
| Examples.EvaluateDigit | ConsoleApplication5/ConsoleApplication5/ConsoleApplication5.cpp:32-52 | a lone digit evaluates to its value |
| Examples.TrimmedAlready | ConsoleApplication5/ConsoleApplication5/ConsoleApplication5.cpp:66-73 | trimming a text without spaces at its ends changes nothing |
| Examples.TrimSpaceDigit | ConsoleApplication5/ConsoleApplication5/ConsoleApplication5.cpp:66-73 | a space followed by a digit trims to the digit |
| Examples.LexFirstExample | ConsoleApplication5/ConsoleApplication5/ConsoleApplication5.cpp:102 | `5 + 3 * 2` reads as 5, `+`, 3, `*`, 2 |
| Examples.LexFirstExampleEnd | ConsoleApplication5/ConsoleApplication5/ConsoleApplication5.cpp:102 | the tail `3 * 2` of that input reads as 3, `*`, 2 |
| Examples.FirstExample | ConsoleApplication5/ConsoleApplication5/ConsoleApplication5.cpp:102-106 | `5 + 3 * 2` is 11 |
| Examples.EvaluateDigitArgument | ConsoleApplication5/ConsoleApplication5/ConsoleApplication5.cpp:84-85 | an argument text that is a digit, with or without a leading space, evaluates to that digit |
| Examples.CallOn | ConsoleApplication5/ConsoleApplication5/ConsoleApplication5.cpp:84-86 | a closed call whose arguments evaluate to x and y is the registry lookup on x and y |
| Examples.LetterArgument | ConsoleApplication5/ConsoleApplication5/ConsoleApplication5.cpp:84 | an untrimmed argument starting with a letter evaluates to 0 |
| Examples.CallOnLetterDigit | ConsoleApplication5/ConsoleApplication5/ConsoleApplication5.cpp:84-86 | a call whose first argument starts with a letter and whose second is a digit applies the function to 0 and that digit |
| Examples.SecondExample | ConsoleApplication5/ConsoleApplication5/ConsoleApplication5.cpp:103-107 | `max(5, 2)` is 5 |
| Examples.ThirdExample | ConsoleApplication5/ConsoleApplication5/ConsoleApplication5.cpp:104-108 | `max(min(3 * 2, 2), 2)` is 2, computed as `max(0, 2)` |
| Examples.MinExample | ConsoleApplication5/ConsoleApplication5/ConsoleApplication5.cpp:98 | `min(3, 2)` is 2 |
| Examples.UnknownFunctionExample | ConsoleApplication5/ConsoleApplication5/ConsoleApplication5.cpp:61 | `foo(1,2)` fails with `UnknownFunction("foo")` |
| Examples.MissingCommaExample | ConsoleApplication5/ConsoleApplication5/ConsoleApplication5.cpp:81-83 | `max(1 2)` fails with `InvalidFunctionFormat` of the input |
| Examples.MissingParenthesisExample | ConsoleApplication5/ConsoleApplication5/ConsoleApplication5.cpp:85 | `max(5, 2` is 5, not an error |
| Examples.BlankExample | ConsoleApplication5/ConsoleApplication5/ConsoleApplication5.cpp:52 | an input of spaces only is 0 |

## Left out

- Console output, `main`'s `try`/`catch` and the printing of results and error messages are
  not modelled. A thrown `runtime_error` is an `Err` value. It carries the variable part of
  the message: the function name, or the trimmed input.
- `double` arithmetic is modelled with exact reals: no rounding, infinities, NaN or signed
  zero.
- `pow` is a parameter of `Dispatcher.Builtins`, since it is a library call. `abs`, `max` and
  `min` are written out.
- Lexer.ReadNumber: `>> double` is simplified. It reads an optional sign, digits and an
  optional fraction. Exponents, `inf`/`nan`, hexadecimal forms and locale-specific
  characters are not modelled. Whitespace is the C locale's `isspace` set.
- `evaluateExpression` reads lazily from the stream. Here it reads the whole token stream
  first (`Lexer.Lex`) and then runs the stack loop on it. The order of the reads and of the
  stack operations is the same, and an error stops the loop in both.
- The two `std::stack`s are sequences whose last element is the top.
- Taking the top of an empty stack is undefined behaviour. It can happen only when the
  reads end with an operator and no error is thrown first, for example `5 +`. The model
  marks that outcome as `EmptyPop` (`Reducer.Evaluate`) and gives it no value: `Reduce`,
  `EvaluateExpression` and `ParseAndEvaluate` require the inputs they evaluate to avoid it
  (`Reducer.Completes`, `Parser.ExprDefined`, `Parser.Defined`). Reads that end with an
  operator but throw first, such as `1 / 0 +` or `2 + 3 =`, are covered with their errors.
- The global `functions` map is a `Registry` parameter rather than mutable global state.
  `Dispatcher.RegisterBinding` states the effect of one assignment to it.
- Characters stand for the bytes of a `std::string`, and inputs are taken to be ASCII. A
  non-ASCII character, such as `é` in `5 é 3`, is one character here and so one `Op` read,
  while the stream reads its UTF-8 bytes one at a time.
- Strings are limited to fewer than 2^64 - 1 characters (`CppStrings.CppString`), so that
  `npos` never names a position.
- Reducer.Drain and Reducer.Run: their own contracts state only when they end and the
  unknown-operator failure. Their values are stated by `Reducer.FinalDrain`,
  `Reducer.RunAgrees`, `Reducer.RunTrailing` and `Reducer.ReduceMatchesConventional`.
- Lexer.ReadNumber: its own contract states only the bounds of what it consumes. Its value
  is stated by separate lemmas: `Lexer.ReadInteger` and `Lexer.ReadDigit` for a run of
  digits, `Lexer.ReadDecimal` for a fraction (through `Lexer.DecimalValue`, the fraction's
  digits over a power of ten), and `Lexer.ReadSigned` for a sign. Its failure is stated by
  `Lexer.ReadNumberFails`.
