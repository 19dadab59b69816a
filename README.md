# Type-level TypeScript programs, modelled in Dafny

The repository `type-programming` writes programs in TypeScript's type system. It has:

- natural-number arithmetic on tuple lengths (`examples/natural_numbers.ts`);
- boolean connectives (`examples/logic.ts`);
- an interpreter for a tiny imperative language (`examples/interpreter.ts`);
- the route-parameter extractor `ParseUrlParams` (`examples/navigate.ts`);
- a scratch pad (`scratch-pad/index.ts`), holding:
  - the Advent of Code 2022 day 6 exercise (`StringToArrayOfChars`, `Elem`, `HasDuplicates`, `Solution`);
  - `ToNumber`, which turns a numeric string into a number type;
  - `DerivedClassOf`, which reads a birth year off a PESEL number.

Every one of these is a pure type-level computation: a conditional type or a recursive type alias. The model is therefore purely functional, with one module per source file:

| module | models |
|---|---|
| `Wrappers` | `Option`, standing for a type that may be `never` |
| `Logic` | `examples/logic.ts` |
| `NaturalNumbers` | `examples/natural_numbers.ts` |
| `Interpreter` | `examples/interpreter.ts` |
| `InterpreterProperties` | laws of the interpreter |
| `InterpreterPrograms` | the two sample programs and the sample evaluations |
| `Scratchpad` | the day 6 exercise |
| `DecimalNumbers` | `ToNumber`, and rendering numbers as strings |
| `Pesel` | `DerivedClassOf` |
| `Navigate` | `examples/navigate.ts` |

The modelling rests on these choices:

- A type that may come out as `never` becomes an `Option`, with `never` as `None`.
- The interpreter's `Eval` has three outcomes: a number; `never`; or `TooDeep`, for the compiler's instantiation-depth error. That error is what an `add` or `sub` with an operand that is not a number runs into.
- A tuple used as a number becomes a `seq<()>`, where only the length matters.
- A boolean literal type becomes `bool`.
- A string literal type becomes `string`.
- A union of object types keyed by a string literal becomes a set of strings.
- Type-level recursion that TypeScript cuts off ("type instantiation is excessively deep") is bounded explicitly:
  - each `while` loop gets a `fuel` budget of re-executions;
  - `ToNumber` stops its search at 10^|t|, past which no rendering can match.

The scratch pad defines local copies of `Append`, `CreateArrOfLen`, `Concat`, `Length`, `Add`, `Sub`, `Not`, `And` and `Or`. They are token for token the definitions in `examples/natural_numbers.ts` and `examples/logic.ts`. Each is modelled once: `Scratchpad` imports `Logic` and `NaturalNumbers`.

The language of `examples/interpreter.ts` has:

- natural-number literals, variables, `+` and `-`;
- assignment, `return` and `while`;
- a `while` test that compares the condition's value with 0.

## Model

| member | source | states |
|---|---|---|
| `Logic.Not` | examples/logic.ts:1 | the result is the negation of the argument |
| `Logic.And` | examples/logic.ts:3-7 | the result is true exactly when both arguments are true |
| `Logic.Or` | examples/logic.ts:9 | the double-negation definition is the disjunction of the arguments |
| `Logic.NotInvolution` | examples/logic.ts:1 | negating twice gives back the argument |
| `Logic.AndCommutes` | examples/logic.ts:3-7 | `And` does not depend on the order of its arguments |
| `Logic.DeMorgan` | examples/logic.ts:1-9 | both De Morgan laws hold for `Not`, `And` and `Or` |
| `Logic.TruthTables` | scratch-pad/index.ts:183-195 | the four-row truth tables of `And` and `Or` hold |
| `NaturalNumbers.Append` | examples/natural_numbers.ts:3-7 | the result is one longer, keeps the tuple as its prefix and ends with the new element |
| `NaturalNumbers.CreateArrOfLenFrom` | examples/natural_numbers.ts:9-14 | growing a shorter accumulator one element at a time stops at exactly length N |
| `NaturalNumbers.CreateArrOfLen` | examples/natural_numbers.ts:9-20 | the tuple has length N, and is empty for 0 |
| `NaturalNumbers.Concat` | examples/natural_numbers.ts:22-28 | the lengths add up, with A as the first part and B as the rest |
| `NaturalNumbers.Add` | examples/natural_numbers.ts:40-49 | tuple addition is addition of natural numbers |
| `NaturalNumbers.Sub` | examples/natural_numbers.ts:51-63 | the result is N - M when M <= N and `never` otherwise |
| `NaturalNumbers.SplitOffSuffix` | examples/natural_numbers.ts:54 | the match `[...infer U, ...Suffix]` succeeds exactly when the suffix ends the tuple, and U followed by the suffix is the tuple |
| `NaturalNumbers.AddSubRoundTrip` | examples/natural_numbers.ts:40-63 | adding M back after subtracting it (M <= N) gives N |
| `NaturalNumbers.SubAddRoundTrip` | examples/natural_numbers.ts:40-63 | subtracting M after adding it gives N, for every N and M |
| `NaturalNumbers.MultiplyElems` | examples/natural_numbers.ts:65-70 | one block of N per element gives length \|T\| * N |
| `NaturalNumbers.Mul` | examples/natural_numbers.ts:72-74 | tuple multiplication is multiplication of natural numbers |
| `NaturalNumbers.MulByZero` | examples/natural_numbers.ts:76-83 | multiplying by 0 on either side gives 0 |
| `NaturalNumbers.Length` | examples/natural_numbers.ts:30-32 | the tuple's length (no contract of its own; `Add`, `Sub` and `Mul` state what the lengths they read are) |
| `NaturalNumbers.Samples` | examples/natural_numbers.ts:44-83 | all fourteen `Add`, `Sub` and `Mul` test cases hold; in addition `Sub<1, 2>` is `never` |
| `Interpreter.Lookup` | examples/interpreter.ts:44-49 | a name is found exactly when it is bound, and the value is that of its first binding |
| `Interpreter.UpdateEnv` | examples/interpreter.ts:57-61 | a bound name has its first binding replaced in place; an unbound name gets a binding appended |
| `Interpreter.Eval` | examples/interpreter.ts:25-42 | an expression has a value only when all its variables are bound, and only an `add` or `sub` can hit the depth error |
| `Interpreter.ExtendsZero` | examples/interpreter.ts:77 | the `while` test: it holds for 0 and for `never`, and fails for every other number (a predicate; used by the contracts of `ExecuteStmt` and `WhileSemantics`) |
| `Interpreter.Continues` | examples/interpreter.ts:77-79 | the condition on which the loop runs its body: a number other than 0 (a predicate; used by `WhileSemantics`, `WhileTerminates` and `WhileUnrolls`) |
| `Interpreter.ExecuteStmt` | examples/interpreter.ts:63-84 | bound names only grow and stay unique; only a `return` yields a value; a loop that falls through leaves a condition that extends 0 |
| `Interpreter.ExecuteStmts` | examples/interpreter.ts:86-93 | the same invariants for a statement list; a list with no `return` yields no value |
| `Interpreter.RunProgram` | examples/interpreter.ts:95-101 | a program without `return` yields no value |
| `Interpreter.UpdateEnvNames` | examples/interpreter.ts:57-61 | the bound names gain the assigned name, and uniqueness is preserved |
| `Interpreter.LookupAfterUpdate` | examples/interpreter.ts:44-61 | after an update the name looks up to the new value, and every other name is unchanged |
| `Interpreter.LookupUnique` | examples/interpreter.ts:44-49 | in a duplicate-free environment every binding is what `Lookup` finds |
| `Interpreter.AsMap` | examples/interpreter.ts:8 | the environment read as a map agrees with `Lookup` on every bound name |
| `Interpreter.UpdateEnvAsMap` | examples/interpreter.ts:57-61 | as a map, `UpdateEnv` is a map update |
| `InterpreterProperties.EvalArithmetic` | examples/interpreter.ts:36-41 | `add` is addition, and `sub` is subtraction that is `never` below zero; an operand that is not a number makes either the depth error |
| `InterpreterProperties.EvalDefined` | examples/interpreter.ts:25-42 | without `sub`, an expression has a value exactly when its variables are bound |
| `InterpreterProperties.EvalFrame` | examples/interpreter.ts:25-49 | environments that agree on an expression's variables give it the same value |
| `InterpreterProperties.AssignSemantics` | examples/interpreter.ts:66-71 | an assignment fails exactly when its right side is `never` or the depth error, each with its own fault; otherwise it updates that one variable and yields no value |
| `InterpreterProperties.ReturnSemantics` | examples/interpreter.ts:72-74 | `return` keeps the environment and yields the expression's value; `never` and the depth error are failures |
| `InterpreterProperties.WhileSemantics` | examples/interpreter.ts:75-84 | a condition that is the depth error fails; a condition of 0 or `never` skips the loop; a value returned by the body ends it; otherwise the loop runs again on the body's environment |
| `InterpreterProperties.WhileTerminates` | examples/interpreter.ts:75-84 | a loop whose body falls through along a chain of environments, under a non-zero condition at each, until the condition extends 0, ends in the last environment with no value, given fuel for the chain's length |
| `InterpreterProperties.ExecuteStmtsAppend` | examples/interpreter.ts:86-93 | running `a + b` runs `a`, and continues with `b` only if `a` falls through |
| `InterpreterProperties.StopsAtFirstReturn` | examples/interpreter.ts:86-93 | statements after a `return` are never run |
| `InterpreterProperties.FuelMonotoneStmt` | examples/interpreter.ts:63-84 | a statement that finishes with some fuel finishes the same way with more |
| `InterpreterProperties.FuelMonotoneStmts` | examples/interpreter.ts:86-93 | the same for statement lists |
| `InterpreterProperties.RunProgramFuelMonotone` | examples/interpreter.ts:95-101 | a program's result does not depend on the fuel once it finishes |
| `InterpreterProperties.WhileUnrolls` | examples/interpreter.ts:77-83 | with a condition that does not extend 0, a loop equals its body followed by the loop |
| `InterpreterProperties.RunEmptyProgram` | examples/interpreter.ts:87-93 | the empty program yields no value |
| `InterpreterPrograms.SampleEvaluations` | examples/interpreter.ts:51-55 | samples `a` and `b` evaluate to 42 and 43; an unbound variable is `never` |
| `InterpreterPrograms.SimpleProgram` | examples/interpreter.ts:103-123 | `simpleProgram`: x = 42, y = x, z = x + y, return z (a constant; its result is stated by `SimpleProgramReturns84`) |
| `InterpreterPrograms.SimpleProgramReturns84` | examples/interpreter.ts:103-125 | `simpleProgram` returns 84 |
| `InterpreterPrograms.SumLoop` | examples/interpreter.ts:134-160 | the loop `while n { sum = sum + n; n = n - 1 }` (a constant; its effect is stated by `SumLoopAdds`) |
| `InterpreterPrograms.SumOfNumbersFrom1To` | examples/interpreter.ts:127-164 | `sumOfNumbersFrom1To10` with the starting value 10 of `n` as a parameter (its result is stated by `SumOfNumbersFrom1ToReturns`) |
| `InterpreterPrograms.SumLoopAdds` | examples/interpreter.ts:134-160 | from n = k and sum = s, the loop stops at n = 0 with s + k(k+1)/2 in sum |
| `InterpreterPrograms.SumOfNumbersFrom1ToReturns` | examples/interpreter.ts:127-166 | the summing program started at n returns n(n+1)/2 |
| `InterpreterPrograms.SumOfNumbersFrom1To10Returns55` | examples/interpreter.ts:127-166 | `sumOfNumbersFrom1To10` returns 55 |
| `Scratchpad.StringToArrayOfCharsFrom` | scratch-pad/index.ts:73-78 | the accumulator is kept as a prefix, followed by each letter of S in order as a one-letter string |
| `Scratchpad.StringToArrayOfChars` | scratch-pad/index.ts:71-78 | the i-th element is the i-th letter |
| `Scratchpad.Elem` | scratch-pad/index.ts:98-100 | the result is true exactly when X occurs in the tuple |
| `Scratchpad.HasDuplicates` | scratch-pad/index.ts:110-114 | the result is true exactly when some element occurs twice |
| `Scratchpad.SolutionFrom` | scratch-pad/index.ts:116-126 | an answer exists exactly when some window of four is distinct; it is Idx plus the offset of the first such window |
| `Scratchpad.Solution` | scratch-pad/index.ts:116-126 | the answer is the first position after four distinct consecutive letters, and `never` when there is none |
| `Scratchpad.SolutionIsFirstMarker` | scratch-pad/index.ts:116-126 | the first window of four distinct elements determines the answer |
| `Scratchpad.Sample1` | scratch-pad/index.ts:159-161 | the puzzle input gives 7 |
| `Scratchpad.Sample2` | scratch-pad/index.ts:162-164 | the second example gives 5 |
| `Scratchpad.Sample3` | scratch-pad/index.ts:165-167 | the third example gives 6 |
| `Scratchpad.Sample4` | scratch-pad/index.ts:168-173 | the fourth example gives 10 |
| `Scratchpad.Sample5` | scratch-pad/index.ts:174-179 | the fifth example gives 11 |
| `Scratchpad.ElemAndDuplicateSamples` | scratch-pad/index.ts:197-210 | the `Elem` and `HasDuplicates` cases on number tuples hold |
| `DecimalNumbers.Decimal` | scratch-pad/index.ts:321 | a number renders as a non-empty digit string with no leading zero, shorter than 10^length |
| `DecimalNumbers.DigitsValue` | scratch-pad/index.ts:321 | a string has a digit value exactly when it is a non-empty string of digits |
| `DecimalNumbers.DigitsValueOfDecimal` | scratch-pad/index.ts:321 | reading a rendering as digits gives the number back |
| `DecimalNumbers.DecimalInjective` | scratch-pad/index.ts:321 | different numbers render differently |
| `DecimalNumbers.ToNumberFrom` | scratch-pad/index.ts:318-321 | counting up from n finds the least m >= n that renders as T, and `never` when there is none |
| `DecimalNumbers.ToNumber` | scratch-pad/index.ts:318-321 | the result renders as T, and `never` means no number renders as T |
| `DecimalNumbers.ToNumberOfDecimal` | scratch-pad/index.ts:318-321 | `ToNumber` inverts the rendering of numbers |
| `DecimalNumbers.ToNumberIsDigitsValue` | scratch-pad/index.ts:318-321 | where `ToNumber` answers, it agrees with the digit value |
| `DecimalNumbers.LeadingZeroIsNever` | scratch-pad/index.ts:318-321 | a digit string of length two or more that starts with 0 is `never` |
| `DecimalNumbers.ToNumberSample` | scratch-pad/index.ts:269 | `ToNumber<"990">` is 990 |
| `Pesel.DerivedClassOf` | scratch-pad/index.ts:312-315 | strings shorter than two characters give `never`; otherwise the result renders as the first two characters |
| `Pesel.DerivedClassOfDigits` | scratch-pad/index.ts:312-315 | a value exists exactly when the first two characters are digits, and it is their two-digit value, below 100 |
| `Pesel.DigitsAgreeWhereDefined` | scratch-pad/index.ts:312-315 | wherever the source gives a year, the corrected reading gives the same year |
| `Pesel.ClassOfSample` | scratch-pad/index.ts:293-296 | PESEL "99123456789" has class-of 99, so 90 is rejected |
| `Pesel.LeadingZeroPesel` | scratch-pad/index.ts:312-321 | PESEL "05211234567" has no class-of as written; the corrected reading gives 5 |
| `Navigate.ParseUrlParams` | examples/navigate.ts:6-11 | a segment without `/` requires `name` when it is `:name`, and nothing otherwise |
| `Navigate.Split` | examples/navigate.ts:7-8 | splitting at every `/` gives segments without `/` that join back to the route |
| `Navigate.ParseUrlParamsIsSegmentKeys` | examples/navigate.ts:6-11 | the required keys are exactly the names of the route's `:name` segments |
| `Navigate.AcceptsParams` | examples/navigate.ts:13-21 | the `params` argument of a `navigate` call type-checks when it has every key the route requires (a predicate; used by `BlogPostSample` and `BlogCommentSample`) |
| `Navigate.BlogPostSample` | examples/navigate.ts:13-16 | "/blog/:postId" requires exactly `postId`; `{ postId }` is accepted and `{ someRandomKey }` is rejected |
| `Navigate.BlogCommentSample` | examples/navigate.ts:18-21 | "/blog/:postId/comment/:commentId" requires exactly `postId` and `commentId` |

## Left out

- `DefaultTo` (examples/interpreter.ts:23) is not modelled as a function. It maps a number type to itself and `never` to `never`, so it does not stop a `never` operand. An `add` or `sub` with an operand that is not a number reaches `CreateArrOfLen<never>` (examples/natural_numbers.ts:9-14), which never stops because no tuple length extends `never`, and the compiler gives up with its instantiation-depth error. `Interpreter.Eval` returns `TooDeep` for that case, and a statement that evaluates it fails with `DepthExceeded`. What TypeScript does with the erroneous type after reporting the error is not modelled.
- Interpreter.ExecuteStmt: an assignment whose right side is `never` fails at once with `Err(EvalFailed)`. In TypeScript it binds the variable to `never` and the statement succeeds. What happens next depends on where the variable is read:
  - read by a `return`, the run gives `never`, as in the model;
  - read by an `add` or `sub`, the compiler hits the depth error;
  - read directly as a `while` condition, the loop is skipped, because `never extends 0` holds (examples/interpreter.ts:77).
  - Example: `x = 0 - 1; while (x) { return 1 }; return 7` returns 7 in TypeScript, and `Err(EvalFailed)` in the model.
  - The model does not capture never-valued bindings: those never read, and those read only in the last two ways.
- TypeScript's recursion limit (about 1000 nested instantiations) is not modelled. Loops are bounded by an explicit fuel argument instead, and running out is `Err(OutOfFuel)`.
- `ToNumber` counts up without end when no number renders as the string. TypeScript reports that as an error; the model's search stops at 10^|t| and answers `None`, which it proves is the only possible outcome.
- The rendering of numbers at or above 10^21 in exponent form, and of non-integral numbers, is left out: the model has only natural numbers in plain decimal.
- `Navigate.AcceptsParams` checks only that every required key is given. TypeScript's excess-property check of object literals, and the `string` type of the values, are not modelled.
- The `navigate` declaration (examples/navigate.ts:1-4) and the runtime function `createStudent` (scratch-pad/index.ts:298-308) have no behaviour beyond their type parameters. They are represented by the type-level functions they call.
- Scratchpad.StringToArrayOfChars: a letter is a Dafny `char`, a Unicode scalar value. TypeScript's template-literal inference `${infer Letter}${infer Rest}` (scratch-pad/index.ts:76) takes one UTF-16 code unit. A character outside the Basic Multilingual Plane is two tuple elements in TypeScript and one in the model, which also shifts the index that `Scratchpad.Solution` answers.
- Scratchpad.StringToArrayOfCharsFrom: the same difference. Each step peels one Unicode scalar value off the string, where TypeScript peels one UTF-16 code unit.
- Pesel.DerivedClassOf: "the first two characters" (scratch-pad/index.ts:313) are two Unicode scalar values here, and two UTF-16 code units in TypeScript. The two agree on PESEL numbers, which are ASCII digits.
- `HasDuplicates` cases over heterogeneous tuples (scratch-pad/index.ts:207-208) are not restated. Dafny's sequences have a single element type; `HasDuplicates` is generic over any element type with equality.
- `Equals` is type identity. Over the element types used here (numbers and one-letter strings) it is modelled by `==`.
- `examples/testing_utils.ts`, `scratch-pad/if.ts` and the type-algebra demonstrations of the scratch pad are not part of this model: the namespaces `AAA`, `BBB`, `aa` and `cool`, the `Alike` helpers, and the types `b` and `B` inside `pesel`.

## Findings

| source | as written | input that shows it | evidently intended | confidence | as-written member | corrected member |
|---|---|---|---|---|---|---|
| scratch-pad/index.ts:312-321 | `DerivedClassOf` passes the first two characters to `ToNumber`, which only matches a number's own rendering, and no number renders with a leading zero | PESEL "05211234567" (born 2005) gives no class-of (TypeScript's depth error; `None` in the model) instead of 5 | the two leading digits read as a year 0-99 | not executed | `Pesel.LeadingZeroPesel` | `Pesel.DerivedClassOfDigits` |
