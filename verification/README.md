# nuPython interpreter core in Dafny

nuPython is a small Python-like language. Its interpreter takes a program
graph built by a separate parser and runs it against a variable store. This
project models two pieces of that interpreter and proves properties of them.

- **The store** (`ram.c`) is a growable array of named cells. A variable's
  address is the index of its cell. Writing by name overwrites the cell that
  already has that name, or else appends a cell, doubling the array when it
  is full. Reads return copies.
- **The evaluator and executor** (`execute.c`) do the following:
  - evaluate operands: literals, identifiers, `&x` and `*p`;
  - apply the binary-operator rules in their fixed order: the string rule,
    pointer plus or minus an integer, Int-to-Real promotion, comparisons,
    Int or Real arithmetic, and otherwise an error;
  - run the two assignment forms `x = e` and `*p = e`;
  - handle the calls `input()`, `int()`, `float()` and `print()`;
  - walk the statement graph (assignment, call, pass, while) until its end
    or the first semantic error.

The modules, in dependency order:

| module | file | contents |
|---|---|---|
| `Values` | values.dfy | `Value` (the tagged RAM value), `Tag`, `Op`, `Error`, `Result`/`Option`, `Double` and the `FloatUnit` parameter |
| `CText` | ctext.dfy | `strtol`, `atoi`, `strcmp`, and `%d` rendering as the reference for the parse |
| `Ram` | ram.dfy | the store and its representation invariant |
| `ProgramGraph` | graph.dfy | the statement graph as an arena of nodes linked by index |
| `Operators` | operators.dfy | `determine_op_result` and its helpers |
| `Evaluate` | evaluate.dfy | `retrieve_value`, `execute_binary_expression`, and right-hand sides |
| `Execute` | execute.dfy | statements, the while rule, and the fuel-bounded `execute` |
| `Scenarios` | scenarios.dfy | concrete statements and expressions, each showing one behaviour of the code |

## Modelling choices

**Values and the store.** Integers are unbounded. A Real is an opaque
64-bit pattern of which only "is zero" (either sign) is interpreted. Every
other floating-point operation (`(double)i`, `(int)d`, `+ - * /`, `fmod`,
`pow`, comparisons, `strtod`) comes from a `FloatUnit` value passed in as a
parameter. The store is an immutable record: the cells, the count of
occupied cells and the capacity. `Ram.Valid` is its invariant:

- the array holds `capacity` cells;
- the first `numValues` cells carry distinct identifiers;
- the cells after them are empty.

**Failures.** Each failure is an `Error` value, not a printed message. An
operator helper that fails also reports the tag it had already stored in
the result before failing (`Operators.Outcome.residue`). That tag decides
what a failing while condition does (see below).

**Statements and execution.**

- Statements live in a `seq<Stmt>`. Links are indices.
- `Execute.Run` follows the links with a fuel bound, since loops make the
  graph cyclic.
- Input lines are a `seq<string>` carried in the `Machine`. The output of
  `print` is not modelled.

**Behaviour of the code worth noting:**

- A failing while condition does not always halt. The executor halts only
  when the condition's result is still tagged None (execute.c:1077-1081).
  Int `/ 0` and Real `/ 0.0` store their tag before the zero check
  (execute.c:317 and execute.c:357). So `while 1 / 0:` skips the loop and
  execution goes on after it. The comment at execute.h:173 says that
  division by zero should stop execution; the code does not stop here.
- `*p` checks the address against the capacity (execute.c:564-568). The
  store read then rejects any address at or beyond `num_values`
  (ram.c:160-162). So only occupied cells can be read through `*p`.
- `int(v)` with `v = ""` yields 0. `strtol` consumes nothing, and the end
  pointer already stands at the terminator, so the check at
  execute.c:67 passes.
- Int values are C `int`, and the result of `strtol` is stored in an `int`
  (execute.c:66). The model uses unbounded integers (see below).

## Model

| member | source | states |
|---|---|---|
| `Ram.Init` | ram.c:40-66 | the new store has no values and capacity 4; every slot is empty, with no identifier and value None; no name is defined |
| `Ram.Find` | ram.c:121-139 | the search from an index yields the first later occupied index with that identifier, or -1 exactly when there is none |
| `Ram.GetAddr` | ram.c:121-139 | the address is -1 exactly when the name is not defined; otherwise it is the first index below `numValues` whose identifier is the name |
| `Ram.ReadByAddr` | ram.c:157-205 | the read fails exactly when the address is negative or at least `numValues`; otherwise it is the value of that cell, held under that cell's name |
| `Ram.ReadByName` | ram.c:219-236 | the read by name equals the read by address at `GetAddr`; it fails exactly when the name is undefined, and otherwise yields the value the name holds |
| `Ram.WriteByAddr` | ram.c:279-326 | the write fails exactly for an address outside the occupied cells; on success only that cell's value changes, while its identifier, every other cell, the count and the capacity stay as they were |
| `Ram.Grow` | ram.c:360-375 | doubling keeps every old cell at its index, makes the new slots empty and keeps the invariant |
| `Ram.WriteByName` | ram.c:344-422 | an existing name is overwritten in place at its address with the count unchanged; a new name is appended at index `numValues`, with the count up by one and the capacity doubled only when full; the name then reads the value, every other name reads as before, and the invariant holds |
| `Ram.OverwriteReads` | ram.c:353-356 | overwriting one occupied cell's value keeps every address and every other variable's value |
| `Ram.AppendReads` | ram.c:377-421 | appending a new name at `numValues` gives it that address and leaves every other variable's value alone |
| `Ram.ExtendsKeepsAddress` | ram.c:117-119 | once a variable has an address, every store that extends this one keeps it there |
| `Ram.WriteAllKeepsAddresses` | ram.c:340-342 | after any sequence of writes by name, a variable that was defined is still defined at the same address |
| `Ram.ReadAfterWriteByAddr` | ram.c:279-326 | reading back an occupied address just written gives the value written |
| `CText.SkipSpace` | execute.c:66 | `strtol` starts at the first character that is not white space |
| `CText.SignedDigits` | execute.c:66 | nothing is consumed, with value 0, exactly when no digit follows the optional sign; otherwise the longest digit run is consumed and the value is its number, negated after a minus |
| `CText.StrToL` | execute.c:66-67 | after the leading white space: nothing is consumed, with value 0, exactly when no digit follows the optional sign; otherwise the longest digit run is consumed and its number, negated after a minus, is the value |
| `CText.StrToLPlusSign` | execute.c:66-67 | a leading `+` is accepted: "+7" reads 7 consuming 2 characters |
| `CText.StrToLLeadingZeros` | execute.c:66-67 | leading zeros are accepted: "007" reads 7 consuming 3 characters |
| `CText.Atoi` | execute.c:134 | `atoi` yields the number of the digit run after the white space and the optional sign, negated after a minus, and 0 when there is no digit |
| `CText.Decimal` | execute.c:965 | `%d` writes a minus exactly for a negative number, then digits denoting its magnitude with no leading zero |
| `CText.NaturalDigitsValue` | execute.c:66 | the digits `%d` prints for a natural number denote that number |
| `CText.StrToLReadsDecimal` | execute.c:66-67 | the parse of the decimal rendering of `n`, followed by anything not starting with a digit, yields `n` and stops right after the rendering |
| `CText.StrToLDecimal` | execute.c:66-67 | the parse of the decimal rendering of `n` reads back `n` and consumes it whole |
| `CText.StrToLSkipsSpace` | execute.c:66-67 | a leading white-space character does not change the parsed value and adds one to the characters consumed, unless nothing was parsed |
| `CText.Compare` | execute.c:221-241 | the sign `strcmp` yields is -1, 0 or 1, and 0 exactly when the strings are equal |
| `CText.CompareIsLexicographic` | execute.c:221-241 | the sign of `strcmp` is negative exactly when the first string is lexicographically smaller: a proper prefix, or smaller at the first difference |
| `CText.CompareAntisymmetric` | execute.c:221-241 | swapping the operands negates the sign of `strcmp` |
| `CText.DigitEnd` | execute.c:66 | the digit run from an index is all digits and ends at the string's end or before a non-digit |
| `Values.Op.IsRelational` | execute.c:399-405 | an operator is relational exactly when it is not one of the six arithmetic operators `+ - * / % **`, i.e. it is one of the six comparisons |
| `Operators.CDiv` | execute.c:330 | C's int `/` has the magnitude of the quotient of the magnitudes, and is negative only when the operand signs differ |
| `Operators.CDivTruncates` | execute.c:325-336 | C's `/` on ints truncates toward zero, and `%` gives a remainder smaller than the divisor with the sign of the dividend |
| `Operators.DetermineOpResult` | execute.c:466-515 | the operand-typing rule: Int op Int gives an Int, Real op Real gives a Real, mixed gives a Real, comparisons of numbers give a Boolean, Str + Str is the concatenation, numbers fail only under `/` and `%`, and non-numbers succeed only under the string and pointer rules; a failure leaves the Int tag exactly for Int `/` or `%` by zero, the Real tag for the other numeric failures (among them `/` by a Real zero), the Boolean tag for a comparison that reaches number_comparison with wrong operand types, and no tag otherwise |
| `Operators.StringConcat` | execute.c:200-213 | the concatenation is a Str holding the left string followed by the right one |
| `Operators.StringComparison` | execute.c:220-248 | a comparison operator yields a Boolean agreeing with lexicographic order for each of the six comparisons; any other operator fails with no tag |
| `Operators.NumberComparison` | execute.c:255-290 | two Ints compare as integers under each of the six comparisons, two Reals through the floating unit, and anything else fails after the Boolean tag was stored |
| `Operators.ChangeNumericTypes` | execute.c:299-309 | an Int beside a Real becomes the double of that Int and the Real is kept; any other pair is unchanged |
| `Operators.HandleIntegerOps` | execute.c:316-349 | Int arithmetic fails exactly for `/` or `%` by zero or a non-arithmetic operator, always with the Int tag; `+ - *` are exact; `/` has magnitude \|a\|/\|b\| and is negative exactly when the signs differ (and the magnitude is nonzero), so it truncates toward zero; `%` completes the division identity with a remainder smaller than the divisor |
| `Operators.HandleRealOps` | execute.c:356-392 | Real arithmetic fails exactly for `/` by a zero of either sign or a non-arithmetic operator, with the Real tag; otherwise it is the floating unit's result |
| `Operators.HandlePointerArithmetic` | execute.c:437-458 | pointer arithmetic succeeds exactly under `+` and `-`, moving the address by the Int in that direction; otherwise it fails with no tag |
| `Operators.StringRule` | execute.c:474-489 | with a Str operand only Str + Str and a Str-vs-Str comparison succeed; a comparison yields the Boolean of lexicographic order; everything else is an operand-type error |
| `Operators.PointerRule` | execute.c:437-458 | a pointer not obtained through `*` beside an Int yields pointer plus or minus that Int under `+` and `-`, on either side; any other operator is a pointer-arithmetic error |
| `Operators.DereferencedPointerIsNotArithmetic` | execute.c:492-493 | a pointer read through `*` combined with an Int is an operand-type error, not pointer arithmetic |
| `Operators.Promotion` | execute.c:299-309 | an Int beside a Real, on either side, computes as the double of that Int, for every operator |
| `Operators.IntegerRule` | execute.c:316-349 | Int `+ - *` are exact; `/` by zero is a ZeroDivisionError, otherwise it truncates toward zero; `%` by a nonzero divisor is C's remainder and by zero an error with the Int tag; `**` is the floating pow truncated back; each of the six comparisons compares the integers |
| `Operators.RealRule` | execute.c:356-392 | Real `/` by a zero of either sign is a ZeroDivisionError; otherwise arithmetic and comparisons are the floating unit's |
| `Operators.DivisionByZeroRule` | execute.h:173 | `/` between numbers fails exactly when the divisor is Int 0 or a Real zero, and then with ZeroDivisionError |
| `Operators.OtherCombinationsFail` | execute.c:498-514 | any other combination without a Str and outside the pointer rule, such as Boolean, None or a mismatched pointer, is an operand-type error |
| `Evaluate.Literal` | execute.c:581-624 | only identifiers and the None literal have no literal value; a Str literal is its text, True and False are the Booleans, an Int literal is an Int and a Real literal a Real |
| `Evaluate.IntLiteralReadsDecimal` | execute.c:584-585 | an Int literal written as `%d` prints `n` denotes `n` |
| `Evaluate.Lookup` | execute.c:627-640 | an identifier fails with NameNotDefined exactly when undefined, and otherwise yields the value it holds |
| `Evaluate.AddressOfElement` | execute.c:529-547 | `&x` succeeds exactly for a defined identifier and yields a pointer to x's cell; a non-identifier and an undefined name fail with their own errors |
| `Evaluate.Deref` | execute.c:550-578 | `*p` succeeds exactly when p is defined, holds a pointer, and that pointer addresses an occupied cell, and then yields that cell's value; it fails with NameNotDefined, NotAPointer or InvalidAddress in that order |
| `Evaluate.RetrieveValue` | execute.c:524-647 | each operand form yields what its own rule says: the address for `&`, the pointed-to value for `*`, the variable's value for an identifier, and the literal's value, with None as an unsupported operand; a failing `&x`, `*p` or `x` reports the error of its own rule (`AddressOfElement`, `Deref`, `Lookup`), so NameNotDefined, NotAPointer and InvalidAddress each arise where the code reports them |
| `Evaluate.ExecuteBinaryExpression` | execute.c:657-687 | an operand that fails to evaluate fails the expression with nothing stored; a single operand is its own value; when both operands evaluate, the result is the operator rules applied to their values, with the `*` flags of the two operands; a failure with a stored tag comes only from the operator rules |
| `Evaluate.HandleNormalExpression` | execute.c:130-193 | an identifier yields its value exactly when defined; a literal yields its value; the None literal is an unsupported right-hand side |
| `Evaluate.HandleConversion` | execute.c:56-85 | `int(v)` and `float(v)` need v to be a Str variable; `int(v)` succeeds exactly when the parse consumes the whole string, yielding the parsed value, and otherwise fails with InvalidIntString |
| `Evaluate.ConversionReadsDecimal` | execute.c:65-72 | `int(v)` of a variable holding the decimal rendering of `n` yields `n` |
| `Evaluate.HandleFunction` | execute.c:92-123 | `input` needs a string-literal prompt and takes the next input line as a Str; `int` and `float` are the conversion of their parameter, succeeding or failing as it does, and leave the input alone; any other name is an unsupported call |
| `Evaluate.ProcessRhs` | execute.c:811-856 | a call is handled by the call rules; an expression leaves the input alone; a single operand evaluates as its operand rule, except that the plain None literal is refused as an unsupported right-hand side; a binary expression succeeds exactly when its evaluation does and then stores that value; a failure reports the operand's or the expression's own error |
| `Execute.PointerRhs` | execute.c:722-739 | the right-hand side of `*p = e` is evaluated as for `x = e` when it is a call or a binary expression; a single operand is evaluated as its element alone, without its `&` or `*`; only a call can consume input |
| `Execute.HandlePointerAssignment` | execute.c:696-748 | `*p = e` succeeds exactly when p points to an occupied cell and e evaluates; it then changes only that cell's value, leaves the count and capacity alone, and leaves p unchanged unless p points to itself, and leaves the input as e consumed it (one line for `*p = input(...)`); failures come in the order NameNotDefined, NotAPointer, InvalidAddress, the right-hand side's error, then WriteFailed |
| `Execute.PointerAssignmentIgnoresUnaryOperator` | execute.c:734-737 | in `*p = e` a single operand is evaluated by its element alone, so a `&` or `*` in front of it has no effect |
| `Execute.ExecuteAssignment` | execute.c:865-899 | `x = e` succeeds exactly when e evaluates; then x reads the value, every other name reads as before, and the input advances as e consumed it; a failure reports e's error; `*p = e` is the pointer assignment; the store stays valid and keeps every address |
| `Execute.ExecuteFunctionCall` | execute.c:909-998 | only print is a call statement; print of nothing or of a literal succeeds; print of a variable fails if it is undefined or holds None |
| `Execute.WhileTarget` | execute.c:1042-1081 | a condition value that is true goes to the body; false or another type goes past the loop; a failed condition halts exactly when no tag was stored, and otherwise goes past the loop |
| `Execute.Step` | execute.c:1012-1085 | one statement keeps the store valid with every address kept; it moves to the statement's successor, or to the body for a while; only an assignment changes the machine; pass never fails. Each statement kind follows its rule: an assignment halts exactly when `ExecuteAssignment` fails, with its error, and otherwise continues to `next` with the machine it built; a call halts exactly when `ExecuteFunctionCall` fails, with its error; a while halts exactly when `WhileTarget` of its evaluated condition is None, with the condition's error, and otherwise continues to that target |
| `Execute.Run` | execute.c:1010-1088 | the run keeps the store valid with every address kept, and it stops only at a statement that fails in the state it reached |
| `Execute.RunUnfolds` | execute.c:1012-1040 | a statement that does not fail hands the rest of the run to its successor in the new state |
| `Execute.StopOnError` | execute.h:199-208 | at a semantic error execution stops at that statement, with the store as it was before it |
| `Execute.FailedRhsWritesNothing` | execute.c:878-886 | in either assignment form, a right-hand side that fails stops execution with nothing written |
| `Scenarios.PointerRoundTrip` | execute.c:865-899 | `x = 5; p = &x; *p = 9` from a store without x and p: every step succeeds, x then reads 9, and p still points at x |
| `Scenarios.PointerStoreLayout` | ram.c:344-422 | after `x = 5; p = &x`, x has the next free address and p points to that occupied cell |
| `Scenarios.PointerWrite` | execute.c:696-748 | `*p = 9` in that store sets x to 9 and leaves p and x's address alone |
| `Scenarios.CountingLoopCondition` | execute.c:1042-1074 | `while i < 3` enters the body exactly while i is below 3 |
| `Scenarios.CountingLoopBody` | execute.c:865-899 | `i = i + 1` adds one to i and touches no other variable |
| `Scenarios.DividingConditionMovesOn` | execute.c:1049-1081 | `while 1 / 0` is skipped rather than halting, because the Int tag was stored before the zero check |
| `Scenarios.UndefinedConditionHalts` | execute.c:1049-1079 | `while y` with y undefined halts with NameNotDefined |
| `Scenarios.DivisionByZeroStops` | execute.h:173 | `x = 5 / 0` stops execution at that statement with ZeroDivisionError and nothing written |
| `Scenarios.UndefinedNameFails` | execute.c:627-635 | `x = y + 1` with y undefined fails with NameNotDefined |
| `Scenarios.ConversionReadsNumber` | execute.c:65-72 | `int(v)` with v = "12" yields 12 |
| `Scenarios.ConversionSkipsSpace` | execute.c:65-72 | `int(v)` with v = " -7" yields -7 |
| `Scenarios.ConversionRejectsTrailing` | execute.c:65-69 | `int(v)` with v = "12x" fails with InvalidIntString |
| `Scenarios.ConversionOfEmpty` | execute.c:65-72 | `int(v)` with v = "" yields 0 |
| `Scenarios.Concatenation` | execute.c:200-213 | `"ab" + "cd"` is `"abcd"` |

## Left out

- Floating point: Real values are opaque bit patterns. `(double)`, `(int)`, `+ - * /`, `fmod`, `pow`, the comparisons, `atof` and `strtod` are supplied by the `FloatUnit` parameter. Only the tag dispatch around them and the `== 0.0` test are modelled.
- Integer `**` is modelled as `(int)pow((double)a, (double)b)` through the `FloatUnit`. Nothing is proved about its value.
- Integer `%` by zero is undefined behaviour in C (execute.c:334-336). The model reports it as the error RemainderByZero.
- 32-bit `int` overflow and wrap-around: integers and addresses are unbounded.
- Operators.IntegerRule: states `**` only as the floating unit's pow truncated back, and `%` by zero as the model's RemainderByZero, for the two reasons just above.
- Output: the text of `print` and of every diagnostic, and the line numbers they carry. Errors are an enumeration, and a stopped run reports the index of the failing statement.
- `input()` reads lines from a `seq<string>` given with the machine. The 255-character `fgets` chunking and the stripping of the newline are not modelled. End of input is the error InputUnavailable.
- Memory management: `ram_destroy`, `ram_free_value`, the leaked read copies, and every `malloc`/`realloc`/`strdup` failure. Writes by name therefore always succeed.
- `ram_print`: debugging output only.
- `deref_pointer` (execute.c:413-430) is dead code: its only calls are commented out.
- The branch at execute.c:831-836 re-stores the tag already present and has no effect.
- The program-graph builder is not part of this model. Only the arena the executor follows is modelled. A call on the right of `=` always carries a parameter, as the C code dereferences it unconditionally.
- A null store or null name passed to the store functions: callers never pass one.
- Execute.Run: is bounded by fuel, so a run that would not terminate ends as OutOfFuel. No lemma relates runs with different fuel.
- The whole run of `i = 0; while i < 3: i = i + 1` ending with i equal to 3 is not proved. Each lemma that chains the steps of this concrete program through `Run` needs far more solver resource than the limit allows. The parts are proved separately: the condition step (`Scenarios.CountingLoopCondition`), the body step (`Scenarios.CountingLoopBody`), and the hand-over from one statement to the next (`Execute.RunUnfolds`).
- `strcmp` is modelled on character codes, and strings contain no NUL character.
- `*p` applied to a variable that holds no pointer prints "invalid operand types"; the model names that error NotAPointer.
- Execute.HandlePointerAssignment: keeps p unchanged only when p does not point to its own cell, since `*p = e` with p pointing at itself overwrites p, as the code does.
