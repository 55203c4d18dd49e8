# MLISP core in Dafny

MLISP is a small Lisp interpreter written in C (`parsing.c`, with the declarations in
`parsing.h`). A line of input is parsed by the mpc library into a parse tree. The tree
is read into a `Token`: a number, a double, an error, a symbol, an S-expression or a
Q-expression. The token is evaluated and printed. Evaluation is a tree walk that
works in place on each S-expression's array of cells:

- the cells are evaluated left to right;
- the first error among them is the value;
- once one cell is a double, every integer cell is promoted to a double;
- `()` is its own value;
- a one-cell expression is that cell's value;
- otherwise the first cell must be a symbol naming a builtin;
- the builtins are `list`, `head`, `tail`, `join`, `eval` and the arithmetic operators.

This project models that core and proves what it computes.

- `tokens.dfy` (`Tokens`): the token datatype and its size measure. A cell is owned by
  exactly one container and is never copied, so a token is a value.
- `floats.dfy` (`Floats`): doubles as 64-bit patterns. Zero tests and negation are
  interpreted. Every other floating-point operation is a parameter (`FloatOps`).
- `text.dfy` (`Text`): `strstr`, `strtol` and `%li` on strings.
- `cells.dfy` (`Cells`): the container as it sits in memory, a class with a `cell`
  array and a `count`. It carries token_add, token_pop, token_take and token_join.
- `builtins.dfy` (`Builtins`): reference functions for head, tail, join and the
  arithmetic fold, with C's truncating `/` and `%`.
- `eval.dfy` (`Evaluator`): reference functions for token_eval, token_eval_sexpr,
  builtin and builtin_eval. They are mutually recursive, and termination rests on
  evaluation never growing the number of tokens.
- `eval_laws.dfy` (`EvalLaws`): what the evaluator promises. This covers:
  - the first error wins;
  - promotion;
  - collapse of empty and one-cell expressions;
  - dispatch;
  - `eval` of `list`;
  - idempotence of evaluation.
- `machine.dfy` (`Machine`): the builtins and token_eval_sexpr as the C code runs them.
  They pop, take and join cells and rewrite tags in place. Each is proved to return
  the reference function's value.
- `reader.dfy` (`Reader`): token_read over a parse-tree datatype. It has the reader as
  written, the corrected reader, a proof that they agree on trees without braces, and
  the imperative reader.
- `printer.dfy` (`Printer`): token_print as the text it writes. It proves the bracket
  balance and the integer round trip through the reader.
- `scenarios.dfy` (`Scenarios`): sample input lines, from the token the corrected
  reader builds for them, through the value, to the printed text.

The code differs from a description of the system as an interpreter of this grammar
in three places:

- The reader does not skip the `{` and `}` of a Q-expression. The model has both
  readers: the reader as written, and the corrected reader that the rest of the model
  uses. See Findings.
- `builtin` sends a name to builtin_op only when `strstr("+-*/", name)` finds it. So the
  grammar's `%`, `^`, `min` and `max` are unknown functions.
- Promotion happens as soon as any cell is a double, wherever the integers stand.

The model follows the code in the last two.

## Model

| member | source | states |
|---|---|---|
| Tokens.SizeOfAppend | parsing.c:99-104 | the size of two cell sequences put together is the sum of their sizes: moving cells between containers neither creates nor loses tokens |
| Floats.Negate | parsing.c:307-309 | unary minus on a double keeps the magnitude bits and flips the sign bit |
| Floats.NegateInvolutive | parsing.c:307-309 | negating twice gives the original double back |
| Floats.ZeroPatterns | parsing.c:316-337 | the test `y->frac == 0` holds exactly for +0.0 and -0.0 |
| Text.ContainsIff | parsing.c:107-125 | `strstr(hay, needle)` succeeds exactly when `needle` starts at some position of `hay` |
| Text.NatToDecimal | parsing.c:162 | the magnitude part of `%li`: the digits of a non-negative value, non-empty, no leading zero, and with exactly that decimal value |
| Text.IntToDecimal | parsing.c:162 | `%li`: a leading minus exactly for a negative value, followed by the digits of its magnitude; `DecimalDenotes` and `StrToLOfDecimal` read it back |
| Text.StrToL | parsing.c:89 | `strtol` returns a value in the range of `long`; ERANGE is flagged exactly when the number the text denotes (`DenotedValue`: spaces, sign, digit run) is outside that range, the value is then clamped to LONG_MIN or LONG_MAX by its sign, and otherwise it is the denoted number |
| Text.DecimalDenotes | parsing.c:87-91 | the text `%li` prints for any integer denotes that integer |
| Text.StrToLOfDecimal | parsing.c:87-91 | `strtol` of the text `%li` prints for any `long` returns that `long` without ERANGE |
| Cells.Container.Empty | parsing.c:49-62 | token_sexpr and token_qexpr make a container of the requested kind with no cells |
| Cells.Container.Add | parsing.c:99-104 | token_add: the new cells are the old cells followed by `x`; the kind is unchanged |
| Cells.Container.Pop | parsing.c:187-194 | token_pop: returns the old `cell[i]`; the cells before `i` stay and the later ones shift left by one, so the count drops by one |
| Cells.Container.Take | parsing.c:196-200 | token_take: returns the old `cell[i]` and leaves the container empty |
| Cells.Container.MoveFirst | parsing.c:203-205 | one pass of token_join: `y` loses its first cell and this container gains it at the end |
| Cells.Container.Join | parsing.c:202-208 | token_join: this container holds its old cells followed by all of `y`'s cells in order, and `y` is empty |
| Builtins.Head | parsing.c:210-220 | builtin_head: checks in source order (one argument, then a Q-expression, then non-empty), each with its exact message; on success a Q-expression holding only the first element; the result is a list exactly when the argument is acceptable |
| Builtins.Tail | parsing.c:222-230 | builtin_tail: the same checks and messages; on success the argument's element sequence less its first element, in order |
| Builtins.Concat | parsing.c:253-256 | the elements of the lists, in order, as the join loop collects them: one list gives its own elements, and every list's elements fit in the result; `ConcatSize` and `ConcatAppend` state the rest |
| Builtins.ConcatSize | parsing.c:247-259 | joined lists hold every element of the arguments exactly once; only the Q-expression shells disappear |
| Builtins.ConcatAppend | parsing.c:254-256 | concatenating the elements of two groups of lists is concatenating each group's elements |
| Builtins.Join | parsing.c:247-259 | builtin_join: the result is a list exactly when every argument is a Q-expression, and is otherwise the error "Function 'join' passed incorrect types!"; no token is created |
| Builtins.JoinTwo | parsing.c:247-259 | joining two lists gives their elements in argument order |
| Builtins.JoinAssociative | parsing.c:247-259 | joining groups of lists separately and then joining the results equals one join of them all |
| Builtins.HeadTailJoin | parsing.c:210-259 | joining the head and the tail of a non-empty list gives the list back |
| Builtins.CDiv | parsing.c:295-303 | C's `/` on `long`: the quotient truncated toward zero, so its magnitude times the divisor's stays within the dividend's by less than one divisor, and a non-zero quotient is negative exactly when the operands' signs differ |
| Builtins.CMod | parsing.c:280-288 | C's `%` on `long`: quotient times divisor plus remainder is the dividend; `CDivMod` bounds it and gives its sign |
| Builtins.CDivMod | parsing.c:280-302 | C's `/` and `%` on `long`: quotient times divisor plus remainder is the dividend, the remainder is smaller than the divisor and has the dividend's sign |
| Builtins.CDivExample | parsing.c:280-302 | `-7 / 2` is -3 with remainder -1 and `7 / -2` is -3 with remainder 1, unlike a Euclidean division |
| Builtins.IntStep | parsing.c:277-303 | one step `x->num op= y->num`: an operator no comparison matches leaves the accumulator, and for `/` the result's magnitude times the divisor's stays within the accumulator's; `IntFoldAdd`, `IntFoldSub` and `IntFoldMul` state the folds |
| Builtins.FloatStep | parsing.c:313-339 | one step `x->frac op= y->frac`: an operator no comparison matches leaves the accumulator; the other steps are the uninterpreted double operations |
| Builtins.IntFold | parsing.c:275-305 | the integer loop: a number, or the division or modulus error exactly when the operator is `/` or `%` and some later argument is zero |
| Builtins.FloatFold | parsing.c:311-341 | the double loop: a double, or the division or modulus error exactly when the operator is `/` or `%` and some later argument is ±0.0 |
| Builtins.Op | parsing.c:261-345 | builtin_op: a non-number argument gives "Cannot operate on a non-number"; the result has the first argument's numeric tag; a zero divisor error occurs exactly when `/` or `%` meets a zero later argument |
| Builtins.IntFoldAdd | parsing.c:277-279 | folding `+` adds the sum of the remaining arguments to the accumulator |
| Builtins.IntFoldSub | parsing.c:289-291 | folding `-` subtracts the sum of the remaining arguments from the accumulator |
| Builtins.IntFoldMul | parsing.c:292-294 | folding `*` multiplies the accumulator by the product of the remaining arguments |
| Builtins.OpIntSum | parsing.c:268-305 | `(+ a b ...)` on integers is the sum of all the arguments |
| Builtins.OpIntDifference | parsing.c:268-305 | `(- a)` is `-a`; `(- a b ...)` is `a` minus the sum of the others |
| Builtins.OpIntProduct | parsing.c:268-305 | `(* a b ...)` on integers is the product of all the arguments |
| Builtins.OpFloatNegate | parsing.c:306-309 | `(- x)` on a double flips its sign |
| Builtins.IntFoldOther | parsing.c:275-305 | an operator that matches none of the comparisons leaves the integer accumulator unchanged |
| Builtins.FloatFoldOther | parsing.c:311-341 | the same for the double accumulator |
| Builtins.OpOtherOperator | parsing.c:261-345 | an operator name that matches none of the comparisons returns the first argument |
| Evaluator.Promote | parsing.c:358-363 | the promotion pass: the same length, every NUM cell becomes the FLOAT `(double)num` and every other cell is unchanged |
| Evaluator.ErrIndex | parsing.c:353-356 | the index of the first ERR cell, or the length when there is none |
| Evaluator.Eval | parsing.c:387-392 | token_eval: a non-S-expression is its own value; a value is in normal form and has no more tokens than the input |
| Evaluator.EvalSexpr | parsing.c:347-385 | token_eval_sexpr: the value is in normal form and no larger than the expression |
| Evaluator.EvalAll | parsing.c:349-351 | the first loop: every cell replaced by its value, in order, with sizes not growing |
| Evaluator.Reduce | parsing.c:353-385 | the rest of token_eval_sexpr on evaluated cells: the value is in normal form and no larger than the cells |
| Evaluator.Apply | parsing.c:368-384 | the end of token_eval_sexpr on promoted cells: the value is in normal form and no larger than the cells |
| Evaluator.Builtin | parsing.c:394-415 | builtin: the dispatched builtin's value is in normal form and has at most one token (a new shell) more than its arguments |
| Evaluator.BuiltinEval | parsing.c:237-245 | builtin_eval: the value is in normal form and no larger than the argument; its checks and success value are stated in `EvalLaws.BuiltinEvalCases` |
| EvalLaws.EvalIdempotent | parsing.c:347-392 | evaluating a value again changes nothing |
| EvalLaws.Unfold | parsing.c:347-392 | an S-expression's value is the reduction of its evaluated cells |
| EvalLaws.FirstErrorWins | parsing.c:349-356 | if cell `k` evaluates to an error and no earlier cell does, that error is the value, whatever the later cells give |
| EvalLaws.EmptyIsItsOwnValue | parsing.c:368-370 | `()` evaluates to `()` |
| EvalLaws.SingleCellCollapses | parsing.c:371-373 | `(x)` has the value of `x` |
| EvalLaws.NoErrorIndex | parsing.c:353-356 | when no cell evaluates to an error, the scan finds no error |
| EvalLaws.LeadingNonSymbol | parsing.c:375-380 | two or more cells, no error and a first value that is not a symbol give "S-expression does not begin with Symbol" |
| EvalLaws.LeadingSymbolDispatches | parsing.c:375-384 | two or more cells, no error and a first value `Sym(f)`: the value is builtin `f` applied to the other promoted values, which are at least one and share one numeric tag |
| EvalLaws.ReduceLeadingSymbol | parsing.c:375-384 | the same, stated on already evaluated cells |
| EvalLaws.Promotion | parsing.c:357-365 | after the scan, if some cell is a double then no cell is an integer and each integer became `(double)num`; otherwise nothing changed; either way the numeric tags are not mixed |
| EvalLaws.PromotedIdempotent | parsing.c:357-365 | promoting promoted cells changes nothing |
| EvalLaws.PromotedZeroDivisors | parsing.c:357-363 | when `(double)n` is zero exactly for n = 0 (`ExactZero`), promotion changes no argument's standing as a zero divisor |
| EvalLaws.DivisionOfNumbers | parsing.c:311-341 | `(/ x y ...)` on numbers, doubles and integers mixed, gives "Division by Zero!" exactly when some later argument is 0 or ±0.0, and a number otherwise, given `ExactZero` |
| EvalLaws.DoubleByIntegerZero | parsing.c:358-362 | `(/ x 0)` with a double `x` is "Division by Zero!": the 0 is promoted to a zero double, given `ExactZero` |
| EvalLaws.DoubleByIntegerFive | parsing.c:358-362 | `(/ x 5)` with a double `x` is no error, given `ExactZero` |
| EvalLaws.ModulusOfPromoted | parsing.c:316-323 | the double loop's modulus path on promoted numbers: "Modulus by Zero!" exactly at a zero later argument, given `ExactZero` |
| EvalLaws.OperatorNames | parsing.c:410 | the names `strstr("+-*/", func)` accepts are exactly the eleven substrings of "+-*/", the empty one included |
| EvalLaws.OperatorWindows | parsing.c:410 | `strstr` on "+-*/" succeeds exactly at one of the five start positions |
| EvalLaws.FourLetters | parsing.c:410 | `strstr` on a four-letter string, unrolled |
| EvalLaws.GrammarSymbolDispatch | parsing.c:394-415 | `+ - * /` reach builtin_op, while the grammar's `% ^ min max` give "Unknown function!" |
| EvalLaws.EvalAllInert | parsing.c:387-392 | cells that are neither S-expressions nor errors evaluate to themselves |
| EvalLaws.PromotedInert | parsing.c:357-365 | promotion keeps such cells free of S-expressions and errors |
| EvalLaws.NoErrorInInert | parsing.c:353-356 | the scan finds no error among such cells |
| EvalLaws.ReduceInert | parsing.c:353-384 | such cells reduce to what the end of token_eval_sexpr makes of them after promotion |
| EvalLaws.PromotedCons | parsing.c:357-363 | a leading cell that is not a number is left alone by promotion |
| EvalLaws.ListQuotes | parsing.c:232-235 | `(list x ...)` on values that evaluate to themselves is the Q-expression of those values, promoted |
| EvalLaws.EvalAllPair | parsing.c:349-351 | two cells are evaluated one by one |
| EvalLaws.ApplyEval | parsing.c:237-245 | `eval` with a single Q-expression evaluates its cells as an S-expression |
| EvalLaws.BuiltinEvalCases | parsing.c:237-245 | builtin_eval: not exactly one argument gives "Function 'eval' passed too many arguments"; one argument that is not a Q-expression gives "Function 'eval' passed incorrect types"; one Q-expression gives its cells evaluated as an S-expression |
| EvalLaws.EvalUnquotes | parsing.c:237-245 | `(eval e)` where `e` evaluates to a Q-expression evaluates that Q-expression's cells as an S-expression |
| EvalLaws.ListThenEval | parsing.c:232-245 | `(eval (list x ...))` equals `(x ...)` for cells that evaluate to themselves |
| Machine.BuiltinList | parsing.c:232-235 | builtin_list: the container is retagged as a Q-expression with the same cells |
| Machine.KeepFirst | parsing.c:215-219 | head's loop, popping index 1 until one cell is left, leaves only the first element |
| Machine.BuiltinHead | parsing.c:210-220 | the imperative builtin_head returns `Head` of the argument cells |
| Machine.BuiltinTail | parsing.c:222-230 | the imperative builtin_tail returns `Tail` of the argument cells |
| Machine.ConcatSnoc | parsing.c:254-256 | one more list appends its elements to the concatenation |
| Machine.JoinOne | parsing.c:255 | joining a popped list onto `x` appends its elements |
| Machine.JoinNext | parsing.c:255 | one pass of the join loop: the first argument is popped and its elements appended to `x` |
| Machine.PopQuoted | parsing.c:253-255 | popping the first of several Q-expressions returns it and leaves the rest, all Q-expressions |
| Machine.JoinRest | parsing.c:254-256 | the join loop appends the elements of every remaining argument, in order |
| Machine.AllQuoted | parsing.c:248-251 | the check loop of builtin_join answers whether every argument is a Q-expression |
| Machine.JoinSplit | parsing.c:253-256 | joining the first list with the join of the others is the join of them all |
| Machine.BuiltinJoin | parsing.c:247-259 | the imperative builtin_join returns `Join` of the argument cells |
| Machine.StepInteger | parsing.c:276-304 | one integer pass: the zero-divisor error of `%` or `/`, or the accumulator combined with `y` |
| Machine.IntegerRound | parsing.c:276-304 | one integer pass pops an argument and keeps the result of the whole fold unchanged |
| Machine.FoldIntegers | parsing.c:275-305 | the integer loop returns `IntFold` of the accumulator and the remaining cells |
| Machine.StepFloat | parsing.c:312-340 | one double pass: the zero-divisor error of `%` or `/`, or the accumulator combined with `y` |
| Machine.FloatRound | parsing.c:312-340 | one double pass pops an argument and keeps the result of the whole fold unchanged |
| Machine.FoldFloats | parsing.c:311-341 | the double loop returns `FloatFold` of the accumulator and the remaining cells |
| Machine.BuiltinOp | parsing.c:261-345 | the imperative builtin_op returns `Op` of the argument cells |
| Machine.PromoteCells | parsing.c:358-363 | the promotion pass rewrites the cells in place into `Promote` of the old cells |
| Machine.ScanOne | parsing.c:354-365 | one pass of the scan: it stops at an ERR, or moves past the cell, promoting once at the first double |
| Machine.CellAt | parsing.c:354-357 | promotion does not change which cells are errors |
| Machine.ScannedNext | parsing.c:353-366 | the scanning state moves past a cell that is not an error |
| Machine.ErrIndexAt | parsing.c:353-356 | the first error is at `k` when none comes before it and `k` is an error or the end |
| Machine.ScanCells | parsing.c:353-366 | the scan stops at the first error, leaving it in place; with no error the cells are the promoted cells |
| Machine.EvalCells | parsing.c:349-351 | the first loop rewrites every cell in place into its value |
| Machine.EvalSexprM | parsing.c:347-385 | the imperative token_eval_sexpr returns `EvalSexpr` of the cells |
| Machine.ReduceM | parsing.c:353-385 | after the first loop, the first error is taken out or the promoted cells are applied |
| Machine.ApplyCases | parsing.c:368-384 | the four outcomes of the end of token_eval_sexpr: `()`, the single cell, the missing-symbol error, or the dispatch |
| Machine.ApplyM | parsing.c:368-384 | the imperative end of token_eval_sexpr returns `Apply` of the cells |
| Machine.ApplySymbolM | parsing.c:375-384 | the leading symbol is popped and the rest handed to the dispatcher |
| Machine.EvalM | parsing.c:387-392 | the imperative token_eval returns `Eval` of the token |
| Machine.BuiltinEvalM | parsing.c:237-245 | the imperative builtin_eval returns `BuiltinEval` of the argument cells |
| Machine.BuiltinM | parsing.c:394-415 | the imperative dispatcher returns `Builtin` of the cells and the name |
| Reader.ReadNum | parsing.c:87-91 | token_read_num: "Invalid Number" exactly when `strtol` reports ERANGE, otherwise the `long` it returned |
| Reader.ReadFloat | parsing.c:93-97 | token_read_float: "Invalid Number" exactly when `strtod` reports ERANGE, otherwise the double it returned |
| Reader.ReadNumber | parsing.c:107-112 | a number leaf with a `.` in its text is read as a double, any other as an integer |
| Reader.KindOf | parsing.c:117-127 | the container a tag names: a Q-expression when the tag contains "qexpr", else an S-expression for "sexpr" or the root ">", else none |
| Reader.Container | parsing.c:117-127 | builds the container of the given kind holding the given cells |
| Reader.Read | parsing.c:106-143 | the corrected reader: number and symbol leaves are converted directly; a tag that names nothing gives NULL; a container tag gives the container of that kind holding what the child loop `ReadFrom` collects, and NULL exactly when that loop fails |
| Reader.Kept | parsing.c:129-140 | the children the corrected loop does not skip, in order |
| Reader.ReadFromKept | parsing.c:129-142 | the corrected child loop succeeds exactly when every unskipped child reads as a token, and then holds those children's tokens one for one, in order |
| Reader.ReadAsWritten | parsing.c:106-143 | token_read as written: number and symbol leaves are converted directly; a tag that names no container gives no token; any token it gives otherwise is a container of the kind the tag names |
| Reader.AsWrittenFrom | parsing.c:129-142 | the loop as written: once NULL, never a token again; a token it gives keeps the kind of the starting container and extends its cells |
| Reader.AddRaw | parsing.c:99-104 | token_add as the reader uses it: a proper token only when a container receives a proper token |
| Reader.NotBuiltStays | parsing.c:129-140 | once the reader as written has a NULL, the rest of the loop does not repair it |
| Reader.AgreeWithoutBraces | parsing.c:106-143 | on a tree with no `{` or `}` leaf, the reader as written and the corrected reader give the same token, or neither gives one |
| Reader.AgreeFrom | parsing.c:129-140 | the loop part of the same agreement |
| Reader.AgreeChild | parsing.c:129-140 | one child of the same agreement |
| Reader.AgreeBuiltChild | parsing.c:129-140 | the same agreement for a child that reads as a token |
| Reader.QexprNeverBuilt | parsing.c:125-140 | as written, no Q-expression node of the grammar is ever read into a token |
| Reader.RawStaysBroken | parsing.c:129-140 | a container holding a NULL cell stays broken for the rest of the loop |
| Reader.Bracketed | parsing.c:129-140 | a node of three children whose outer two are skipped reads as the middle child's token, wrapped in the container its tag names |
| Reader.BracketedAsWritten | parsing.c:129-140 | as written, a root whose only unskipped child is broken is itself broken |
| Reader.BracesExample | parsing.c:106-143 | for the input `{1}`, the reader as written gives no token while the corrected reader gives the S-expression holding the Q-expression `{1}` |
| Reader.ExampleQexpr | parsing.c:106-143 | the node of `{1}` reads as `{1}`, and as written gives no token; its helpers (`ExampleQexprRead`, `ExampleQexprRaw`, `ExampleQexprShape`, `ExampleNumber` and the tag facts `NumberTag`, `OneText`, `CharTag`, `RootTag`, `QexprTag`, `QexprTagNamesQexpr`, `QexprTagLacks`) settle each node and tag of that tree |
| Reader.ContainsAt | parsing.c:107-125 | a needle found at some position is found by `strstr` |
| Reader.NoOccurrence | parsing.c:107-125 | `strstr` fails when the text is shorter than the needle or lacks its first letter |
| Reader.ReadNumOfDecimal | parsing.c:87-91 | reading the text `%li` prints for any `long` gives that number |
| Reader.ReadNumOutOfRange | parsing.c:87-91 | digits denoting a value above LONG_MAX read as "Invalid Number", not as a clamped number |
| Reader.ReadFromStep | parsing.c:129-140 | one pass of token_read's loop in terms of what is still to be read |
| Reader.ReadM | parsing.c:106-143 | the corrected reader, written imperatively in token_read's shape, returns `Read` of the node |
| Reader.ReadChildrenM | parsing.c:129-142 | the corrected reader's child loop returns what `ReadFrom` collects: every unskipped child's token in order, or NULL |
| Reader.ReadChildM | parsing.c:129-140 | one pass of the corrected loop: the child is skipped, or read and added; a child that gives NULL makes the whole reading NULL (the code as written adds it as a cell and goes on) |
| Printer.Print | parsing.c:159-180 | what token_print writes: an error starts with "Error: ", an S-expression is enclosed in `(` `)` and a Q-expression in `{` `}`; `PrintBrackets` and `PrintNumRoundTrip` state the rest |
| Printer.PrintCells | parsing.c:145-157 | the cells as token_expr_print writes them: nothing for no cells, the first cell's text first, and a space right after it when more follow |
| Printer.PrintCellsSnoc | parsing.c:148-154 | one more cell is printed after a single space, with no trailing space |
| Printer.DecimalCharacters | parsing.c:162 | `%li` writes only digits and a minus sign |
| Printer.PrintNumRoundTrip | parsing.c:159-163 | the text printed for a `long` has no decimal point and reads back as the same integer |
| Printer.PrintThenRead | parsing.c:106-112 | a number leaf holding the printed text of a `long` reads as that integer |
| Printer.PrintBrackets | parsing.c:145-180 | with leaves that hold no brackets, the printed text has exactly one `(` and one `)` per S-expression, and one `{` and one `}` per Q-expression; the counting helpers `PlainCount`, `LeafCount`, `WrapCount` and `SpacedCount` serve it |
| Printer.ContainerBrackets | parsing.c:173-178 | a container contributes its own pair of brackets around its cells' brackets |
| Printer.PrintLeafBrackets | parsing.c:161-172 | leaves contribute no brackets |
| Printer.PrintCellsBrackets | parsing.c:145-157 | the brackets of the printed cells are those of each cell |
| Printer.ConsBrackets | parsing.c:148-154 | the brackets of the cells are those of the first cell plus those of the rest |
| Printer.PrintM | parsing.c:159-180 | token_print writes `Print` of the token |
| Printer.ExprPrintM | parsing.c:145-157 | token_expr_print writes the opening bracket, the cells separated by single spaces, and the closing bracket |
| Printer.ExprPrintStep | parsing.c:148-154 | one pass of token_expr_print's loop keeps the text written so far equal to the printed prefix of the cells |
| Printer.PrintLineM | parsing.c:182-185 | token_println writes the token followed by a newline |
| Scenarios.ApplyIntegers | parsing.c:347-385 | an S-expression of self-evaluating cells without doubles goes to the end of token_eval_sexpr unchanged |
| Scenarios.CallIntegers | parsing.c:375-384 | a symbol followed by such cells calls the builtin it names on them |
| Scenarios.OnePlusTwo | parsing.c:261-305 | `(+ 1 2)` has the value 3 |
| Scenarios.AddTwo | parsing.c:347-392 | the token read for the line `(+ 1 2)` prints `3` |
| Scenarios.DivideByZero | parsing.c:295-301 | the token read for the line `(/ 10 0)` prints `Error: Division by Zero!` |
| Scenarios.UnknownSymbol | parsing.c:394-415 | the token read for the line `(foo 1 2)` prints `Error: Unknown function!` |
| Scenarios.EmptyLine | parsing.c:368-370 | the token read for the line `()` prints `()` |
| Scenarios.HeadValue | parsing.c:210-220 | `(head {1 2 3})` has the value `{1}` |
| Scenarios.HeadOfList | parsing.c:210-220 | the token the corrected reader builds for `(head {1 2 3})` prints `{1}` |
| Scenarios.TailValue | parsing.c:222-230 | `(tail {1 2 3})` has the value `{2 3}` |
| Scenarios.PrintTwoThree | parsing.c:145-177 | the list `{2 3}` prints as `{2 3}` |
| Scenarios.TailOfList | parsing.c:222-230 | the token the corrected reader builds for `(tail {1 2 3})` prints `{2 3}` |
| Scenarios.JoinValue | parsing.c:247-259 | `(join {1 2} {3 4})` has the value `{1 2 3 4}` |
| Scenarios.JoinLists | parsing.c:247-259 | the token the corrected reader builds for `(join {1 2} {3 4})` has the value `{1 2 3 4}` |
| Scenarios.EvalOfHead | parsing.c:210-245 | the token the corrected reader builds for `(eval (head {(+ 1 2) (+ 10 20)}))` has the value 3 |

## Left out

- `main` (parsing.c:416-461) is not modelled. It covers the editline loop, building the
  mpc grammar, parse errors and the banner. The mpc library is not part of this model.
  The parse tree is the datatype `Reader.Node`. The grammar is used only for a Node's
  possible tags and for the symbols it accepts.
- Output is the returned string. What token_print writes to standard output is the text
  the printer functions and methods return.
- Floating-point numerics are not interpreted. `(double)n`, `+ - * /`, `fmod`, `strtod`
  and `%g` are uninterpreted fields of `FloatOps`. Only the zero test and negation are
  modelled exactly, as bit operations. So the zero-divisor errors of arguments that mix
  doubles and integers, such as `(/ 2.5 0)`, follow only under the premise
  `Floats.ExactZero`: `(double)n` is a zero exactly for n = 0, as IEEE 754 conversion
  gives. The lemmas below take it as a precondition.
- EvalLaws.PromotedZeroDivisors: requires `Floats.ExactZero`, a fact of IEEE 754
  conversion that the uninterpreted `(double)n` does not carry by itself.
- EvalLaws.DivisionOfNumbers: requires `Floats.ExactZero`, for the same reason.
- EvalLaws.DoubleByIntegerZero: requires `Floats.ExactZero`, for the same reason.
- EvalLaws.DoubleByIntegerFive: requires `Floats.ExactZero`, for the same reason.
- EvalLaws.ModulusOfPromoted: requires `Floats.ExactZero`, for the same reason.
- Memory management is not modelled. This covers `malloc`, `realloc` and `free`,
  token_delete (parsing.c:64-85) and the freeing inside `LASSERT`. Each cell has a single
  owner, so tokens are values, and a freed container's leftover state is not specified.
  Shrinking the array in token_pop is not modelled: `Pop` keeps the same array and only
  lowers `count`.
- Builtins.IntFold: C `long` overflow and `LONG_MIN / -1` (undefined behaviour) are not
  modelled. The fold uses unbounded integers. Only the reader's `strtol` keeps `long`'s
  range.
- Builtins.Op: requires at least one argument and no mix of numeric tags. Both always
  hold in the code: the dispatcher is only reached with two or more cells, and only
  after promotion. With no arguments, builtin_op would pop a cell that does not exist.
- Evaluator.Builtin: requires the same two conditions, for the same reason.
- Machine.BuiltinOp: requires the same two conditions, for the same reason.
- Machine.BuiltinM: requires the same two conditions, for the same reason.
- Machine.BuiltinJoin: requires at least one argument, for the same reason. With none,
  builtin_join would pop a cell that does not exist.
- The `ERR_TYPE` enum of parsing.h is never used and is not modelled.
- Reader.ReadChildrenM always collects the cells in an S-expression container and then
  builds the token of the right kind. This differs from creating the container first
  and filling it.
- The model uses the corrected reader everywhere else (see Findings). The reader as
  written is modelled as `Reader.ReadAsWritten`. Its outcome records, as the datatype
  `Raw`, whether it produced a NULL, a NULL cell, or a `token_add` on NULL (a crash).
- Printer: the round trip from printed text back through the reader is proved only for
  integer leaves. Doubles print through the uninterpreted `%g`. Containers would need
  the mpc parser, which is not part of this model.

## Findings

| source | as written | input that shows it | evidently intended | confidence | as-written member | corrected member |
|---|---|---|---|---|---|---|
| parsing.c:129-140 | token_read skips children whose text is `(` or `)` or whose tag is `regex`, but not the `{` and `}` leaves of a Q-expression. Reading such a leaf returns NULL, which is then added as a cell. | the input line `{1}` | the brackets of both kinds of expression are skipped, so `{1}` reads as an S-expression holding the Q-expression `{1}` | not executed | Reader.ReadAsWritten, Reader.BracesExample, Reader.QexprNeverBuilt | Reader.Read, Reader.AgreeWithoutBraces |
