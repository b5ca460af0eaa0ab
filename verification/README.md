# mathExprParser in Dafny

A model of the expression calculator in `mathExprParser.js`. `calc` turns a
textual infix expression (decimal literals, unary and binary `+ - * /`,
nested parentheses, spaces) into a postfix (RPN) sequence with a recursive
shunting-yard converter, then reduces that sequence to one number.

| file | module | what it holds |
|---|---|---|
| `tokens.dfy` | `Tokens` | the error kinds, `Result`, `Option`, and the postfix entry `Token = Num(real) \| NaN \| Op(char)` |
| `operators.dfy` | `OperatorTable` | `isValidOperator`, `getOperatorPrecedence`, `getOperatorExecutor` |
| `evaluator.dfy` | `Evaluator` | `RPNToResult`, as a recursive function and as a loop, and the operand-stack evaluator it is proved equal to |
| `lexical.dfy` | `Lexical` | the longest decimal literal at the head of a text (what the two regular expressions match), its value, and the removal of spaces |
| `parens.dfy` | `Parens` | the group collected after a signed `(`, and parenthesis balance |
| `converter.dfy` | `Converter` | `getNumber`, `infixToRPNImpl`, `infixToRPN` and `calc`, which are mutually recursive, plus the invariants every recursion level keeps |
| `scanner_facts.dfy` | `ScannerFacts` | what `getNumber` returns for a signed literal, for a signed group, and when there is no number |
| `chains.dfy` | `Chains` | `calc` on a chain of operators of one precedence rank evaluates from left to right |
| `samples.dfy` | `Samples` | `calc` followed step by step on `2+3*4`, `(2+3)*4`, `-(5+3)` and `((1+2)*(3+4))` |

How the program's notions are represented:

- A postfix entry is a token, not a string. A number is `Num(v)`. An
  operator symbol is `Op(c)`. The string `"NaN"`, which the converter
  pushes when a signed group evaluates to NaN, is `NaN`.
- The thrown "Invalid Expression" error is `Failure(InvalidExpression)`.
- The NaN returned by `RPNToResult` is `Failure(NotANumber)`, as is
  `parseFloat` of a final entry that is not a number.
- Values are exact `real`s.
- The output sequence and the depth counter are shared by all recursion
  levels of the converter. They are threaded through the levels as one
  `Shared` value.
- The previous-component marker is the `Prev` datatype.
- The source hands a nested level the slice after the `(`. It then adds
  that level's returned index, plus one, to its own index.
  - Here every level works on the same stripped text from an absolute
    index, and returns an absolute index.
  - So `ConvertGroup` resumes at `inner.ret + 1`, which is the position the
    source reaches with `i += ret + 1` and the loop's own increment.
- `getNumber` calls `calc` on a signed group, so the scanner, the converter
  and `calc` are one mutually recursive group of functions. Termination
  uses the remaining text length, with a rank for each function as a tie
  breaker.
- `RPNToResult` is modelled twice.
  - `Reduce` is the in-place reduction. Its termination measure is
    `3·length − i`.
  - `ReduceInPlace` is the same loop over a local copy of the sequence.
  - Both are proved equal to `RunStack`, the textbook operand-stack reading
    of a postfix sequence. In it, the prefix left of the cursor is the
    operand stack.

The main theorems:

- `Converter.InfixToRpnHolds` and `Converter.CalcHolds`: the converter
  succeeds only on text whose parentheses balance. The proof goes through
  the invariant `LevelSpec`, which every recursion level keeps
  (`Converter.ConvertLevelHolds`).
- `Chains.CalcChain`: a chain of operators of one rank, such as `8-3-2` or
  `-8/4/2`, evaluates as a left fold over its values.
- `Samples`: `*` binds before `+` (`2+3*4` is 14). Parentheses override
  the ranks (`(2+3)*4` is 20). A sign applies to a whole group (`-(5+3)` is
  -8). Nested groups convert inside out (`((1+2)*(3+4))` is 21).

## Model

| member | source | states |
|---|---|---|
| OperatorTable.Precedence | mathExprParser.js:16-41 | rank 1 exactly for `*` and `/`, rank 2 exactly for `+` and `-`, and rank 3 exactly for every character that is not one of the four operators |
| OperatorTable.IsValidOperator | mathExprParser.js:16-25 | no contract of its own: that it holds exactly for `*`, `/`, `+` and `-` is stated by `OperatorTable.Precedence` (rank 3 exactly when it fails) and `OperatorTable.Execute` (succeeds only when it holds) |
| OperatorTable.Execute | mathExprParser.js:43-58 | succeeds exactly for the four operators, except a division by zero; any other character fails with the NaN error, like the default executor; a failing operator fails only by division by zero; the values are stated by `OperatorTable.ExecuteValues` |
| OperatorTable.ExecuteValues | mathExprParser.js:47-54 | `+` gives the sum and `*` the product; `-` gives the number that, added to `b`, gives back `a`; `/` by a non-zero `b` gives the number that, multiplied by `b`, gives back `a` |
| Evaluator.Collapse | mathExprParser.js:258 | the splice shortens the sequence by two: the entries before index `i - 2` and after index `i` stay as they were, and the operator's result takes the place of the three entries `i - 2`, `i - 1`, `i` |
| Evaluator.Reduce | mathExprParser.js:247-262 | no contract of its own beyond its measure `3·length − i`: what it computes is stated by `Evaluator.ReduceIsStackEvaluation` |
| Evaluator.ReduceIsStackEvaluation | mathExprParser.js:244-264 | from any cursor position, the in-place reduction gives the result of the operand-stack evaluator run on the entries right of the cursor, with the entries left of it as its stack; an operator without two numeric entries before it gives NaN |
| Evaluator.RpnToResult | mathExprParser.js:244-265 | on every token sequence, the result equals the operand-stack evaluator's bottom entry, or the NaN error when that entry is not a number |
| Evaluator.ReduceInPlace | mathExprParser.js:246-264 | the loop, whose measure `3·length − i` falls at every step, returns the operand-stack evaluator's result |
| Lexical.LiteralLength | mathExprParser.js:110-116 | the length matched is non-zero exactly when the text starts with a digit, and the matched prefix is a decimal literal (`\d+` or `\d+\.\d+`) |
| Lexical.LiteralLengthIsLongest | mathExprParser.js:110-116 | no decimal literal at the head of the text is longer than the match, so `digits.digits` is taken over `digits` whenever it is there |
| Lexical.LiteralValueOfParts | mathExprParser.js:124 | the value of `w` is its digits in base ten, and the value of `w.f` is that plus the value of `f` over ten to the length of `f` |
| Lexical.StripSpec | mathExprParser.js:237 | the stripped text has no space, text without spaces is unchanged, and every other character occurs as often as before |
| Parens.CollectGroupSpec | mathExprParser.js:86-98 | the collected group is a prefix of the text after the sign that stays open up to its end, and it either closes there or runs to the end of the text |
| Converter.ScanNumber | mathExprParser.js:62-128 | on success at least one character is consumed and no more than the text holds; the value read is stated by `ScannerFacts.ScanSignedLiteral`, `ScannerFacts.ScanSignedGroup` and `ScannerFacts.ScanRejects` |
| Converter.ScanGroup | mathExprParser.js:81-107 | a signed group consumes at least one character and no more than the text holds; its value is stated by `ScannerFacts.ScanSignedGroup` |
| Converter.ConvertLevel | mathExprParser.js:144-235 | a successful level returns an index from one before its start up to the last index of the text; what it appends and where it stops is stated by `Converter.ConvertLevelHolds`, and its output on given texts by the `Samples` lemmas |
| Converter.ConvertGroup | mathExprParser.js:166-183 | an opening parenthesis returns an index at or after it, inside the text; that it keeps the level invariant is stated by `Converter.ConvertGroupHolds` |
| Converter.ConvertOperand | mathExprParser.js:153-160 | a scanned number returns an index at or after it, inside the text; that it keeps the level invariant is stated by `Converter.ConvertOperandHolds` |
| Converter.ConvertOperator | mathExprParser.js:209-224 | a binary operator returns an index at or after it, inside the text; that it keeps the level invariant and loses no operator is stated by `Converter.ConvertOperatorHolds` |
| Converter.InfixToRpn | mathExprParser.js:60-242 | no contract of its own: `Converter.InfixToRpnHolds`, `Chains.ChainToRpn` and the `Samples` lemmas state what it returns |
| Converter.Calc | mathExprParser.js:267-270 | no contract of its own: `Converter.CalcHolds`, `Chains.CalcChain` and the `Samples` lemmas state what it returns |
| Converter.PopSymbols | mathExprParser.js:215-220 | popping from the top down to index `k` appends exactly the operators at index `k` and above to the output |
| Converter.FlushSymbols | mathExprParser.js:147-150 | flushing a level's stack appends exactly the operators on it to the output |
| Converter.PushOperator | mathExprParser.js:211-222 | the kept entries are a bottom part of the stack, and the new operator goes on top of them; the entries popped to the output, top first, are exactly the top entries of rank at most the new operator's; the highest entry kept has a higher rank |
| Converter.PushOperatorKeepsOrder | mathExprParser.js:211-222 | a stack whose ranks strictly fall from bottom to top still has that property after a push, and an entry is popped exactly when its rank is at most the incoming operator's |
| Converter.PushOperatorSymbols | mathExprParser.js:211-222 | a push loses no operator: the old stack plus the new operator are the new stack plus what was popped |
| Converter.StackHoldsAtMostTwo | mathExprParser.js:211-222 | a stack of operators ordered by falling rank holds at most two entries |
| Converter.ScanLiteral | mathExprParser.js:110-127 | without a group, the scanner succeeds exactly when a digit follows the optional sign; it then yields a number and consumes at least one character, and otherwise reports an invalid expression |
| Converter.ScanHolds | mathExprParser.js:62-128 | the text the scanner consumes has balanced parentheses, and the scanner never fails with the NaN error |
| Converter.ConvertLevelHolds | mathExprParser.js:144-235 | every recursion level only appends to the output, and every operator left on its stack reaches the output. It stops at the `)` that closes it, with depth one lower and balanced text before it, or at the end of the text with the depth raised by the levels left open |
| Converter.ConvertGroupHolds | mathExprParser.js:166-183 | an opening parenthesis keeps the level invariant, both when the nested level is closed by its `)` and when it runs to the end of the text |
| Converter.ConvertOperandHolds | mathExprParser.js:153-160 | a number scanned and appended to the output keeps the level invariant |
| Converter.ConvertOperatorHolds | mathExprParser.js:209-224 | a binary operator settled against the stack keeps the level invariant, and none of the stack's operators is lost |
| Converter.InfixToRpnHolds | mathExprParser.js:237-241 | conversion succeeds only when the text without spaces has balanced parentheses, and never fails with the NaN error; the converse is `Converter.InfixToRpnSucceeds` |
| Converter.InfixToRpnSucceeds | mathExprParser.js:237-241 | conversion succeeds exactly when the top level over the text without spaces succeeds and that text has balanced parentheses: the depth check of line 239 rejects every unbalanced text the levels accept |
| Converter.CalcIgnoresSpaces | mathExprParser.js:237 | `infixToRPN` and `calc` give the same result for a text and for the same text with its spaces removed |
| Converter.CalcHolds | mathExprParser.js:267-270 | `calc` gives a number, or the NaN of a malformed postfix sequence, only for text whose parentheses balance |
| ScannerFacts.ScanSignedLiteral | mathExprParser.js:68-127 | a sign, a literal and any text that cannot extend the literal: a `-` negates the literal's value, a `+` or no sign keeps it, and the length consumed is the literal's plus one for a sign |
| ScannerFacts.ScanSignedGroup | mathExprParser.js:81-107 | a sign and a group: the group runs to the `)` that brings the depth back to 0, or to the end; its `calc` value is signed, a NaN value gives a NaN entry, and the length is the group's plus the sign's |
| ScannerFacts.ScanRejects | mathExprParser.js:110-112 | when neither `(` nor a digit follows the optional sign, the scanner reports an invalid expression |
| Chains.RunPairs | mathExprParser.js:244-262 | on a leading value followed by value-operator pairs, the operand-stack evaluator computes the left fold of the operators over the values |
| Chains.ConvertChain | mathExprParser.js:209-224 | in a chain of operators of one rank, each operator pops the previous one before it is pushed, so the output is each value followed by its operator |
| Chains.ChainToRpn | mathExprParser.js:144-241 | a chain of signed literals and operators of one rank converts to its leading value, then each later value followed by its operator |
| Chains.CalcChain | mathExprParser.js:267-270 | `calc` on such a chain equals the left fold of its operators over its values: `a-b-c` is `(a-b)-c` |
| Samples.DigitScan | mathExprParser.js:110-127 | a lone digit that no digit or `.` follows is read as its value, and one character is consumed |
| Samples.PrecedenceLevel | mathExprParser.js:209-224 | in `2+3*4` the `*` is pushed above the `+`, so the final flush outputs `*` before `+` |
| Samples.PrecedenceRpn | mathExprParser.js:60-242 | `2+3*4` converts to `2 3 4 * +` |
| Samples.PrecedenceValue | mathExprParser.js:244-265 | `2 3 4 * +` evaluates to 14 |
| Samples.PrecedenceCalc | mathExprParser.js:267-270 | `calc` of `2+3*4` is 14: `*` binds before `+` |
| Samples.SumLevel | mathExprParser.js:166-196 | a group `(a+b)` of two digits converts at one depth more, appends `a b +`, and returns the index of its `)` with the depth restored |
| Samples.GroupFirstLevel | mathExprParser.js:144-235 | in `(2+3)*4` the group's `2 3 +` reaches the output before the `*` is pushed |
| Samples.GroupFirstRpn | mathExprParser.js:60-242 | `(2+3)*4` converts to `2 3 + 4 *` |
| Samples.GroupFirstValue | mathExprParser.js:244-265 | `2 3 + 4 *` evaluates to 20 |
| Samples.GroupFirstCalc | mathExprParser.js:267-270 | `calc` of `(2+3)*4` is 20: the parentheses override the ranks |
| Samples.SumRpn | mathExprParser.js:60-242 | `(5+3)` converts to `5 3 +` |
| Samples.SumValue | mathExprParser.js:244-265 | `5 3 +` evaluates to 8 |
| Samples.SumCalc | mathExprParser.js:267-270 | `calc` of `(5+3)` is 8 |
| Samples.SumGroupCollected | mathExprParser.js:84-98 | the scanner collects all of `(5+3)` as the group after a sign |
| Samples.SignedGroupCalc | mathExprParser.js:81-107 | `calc` of `-(5+3)` is -8: the sign applies to the whole group, whose value comes from a nested `calc` |
| Samples.ProductLevel | mathExprParser.js:144-235 | inside the outer parentheses of `((1+2)*(3+4))`, both sums reach the output before the `*`, which the `)` flushes |
| Samples.NestedRpn | mathExprParser.js:60-242 | `((1+2)*(3+4))` converts to `1 2 + 3 4 + *` |
| Samples.NestedValue | mathExprParser.js:244-265 | `1 2 + 3 4 + *` evaluates to 21 |
| Samples.NestedCalc | mathExprParser.js:267-270 | `calc` of `((1+2)*(3+4))` is 21 |

## Left out

- IEEE floating point.
  - Values are exact reals, with no rounding and no overflow.
  - A division by zero is the error `DivisionByZero`. The source yields an
    infinity or NaN and carries on.
  - A signed group whose value is a division by zero therefore fails the
    whole calculation.
- Number-to-string round trips. These are `toString` when a value is pushed
  (lines 157 and 258), `parseFloat` when it is read back (lines 124, 256
  and 264), and the `+num` test of `isNumber` (lines 1-4). Entries are typed
  tokens instead: a numeric entry is `Num`, and the `"NaN"` entry is `NaN`.
- The regular-expression engine and its sticky `lastIndex` (lines 64-66 and
  114-115). It is replaced by a direct digit scanner with the same
  longest-match outcome (`Lexical.LiteralLength`).
- Error messages. A thrown error is only its kind, `InvalidExpression`.
- The closing-parenthesis value of the previous-component marker. The
  source sets it at line 187 and returns at once, so it is never read.
- The `i >= 0` guard of the evaluator loop (line 250). The cursor never
  goes below zero, because it only moves down from 2 or more.
- Converter.ConvertLevelHolds: states that the output only grows, but not
  that numbers reach the output in their left-to-right input order for
  every expression. That order is proved for chains of one rank by
  `Chains.ChainToRpn`.
- Converter.ScanNumber, Converter.ScanGroup, Converter.ConvertLevel,
  Converter.ConvertGroup, Converter.ConvertOperand and
  Converter.ConvertOperator carry only length and index bounds in their own
  contracts. Converter.InfixToRpn, Converter.Calc, Evaluator.Reduce and
  OperatorTable.IsValidOperator carry none. The lemmas named in each row
  state the invariant the member keeps or the outcome it has on the inputs
  those lemmas cover, not its result on every input.
- The caller's token array. `RPNToResult` splices the array it is given
  (line 258), so the caller sees it reduced afterwards. Here tokens are a
  value: the caller's sequence is never changed, and only the result is
  modelled.
- Converter.Calc: its value is proved for chains of one rank and for the
  four `Samples` expressions, not as a general theorem for every expression
  that mixes ranks or nests groups.
