# Trigger Script core in Dafny

Trigger Script is a small scripting language. A program is a module of
*units*. A unit has inputs, an optional output, a global block of
statements, and *actions*. An action waits on plugin *triggers* (a timer,
a line arriving on a pipe) and runs its block whenever a trigger fires.
The repository compiles a unit into a definition tree (`tsdef`) and then
interprets that tree (`tsint`). Plugins reach the interpreter through a
foreign-function layer (`tsffi`). The built-in plugins live in `tscore`,
and an IDE front end lives in `tside`.

This project models the deterministic core of that system as immutable
datatypes and pure functions, and proves what the C code promises about
them. Each source file or component has one Dafny module:

- **Definition layer.**
  - `LexerUtil`: string-literal unescaping.
  - `ParserUtil`: the grammar actions' block cursor, loop checks and error handling.
  - `DefTypes`: the static type lattice.
  - `Def`: blocks, scopes, statement lists and list constructors.
  - `DefError`: the compile error list.
  - `DefFFI`: plugin type codes.
  - `Arguments`: argument-type matching.
  - `DefModule`: the symbol hash, overload resolution and the referenced-unit and group lists.
  - `Resolve`: type inference and name resolution.
- **Interpreter.**
  - `IntValue`: values and conversions.
  - `ExpOp`: per-type operator tables with C's truncating `/` and `%`.
  - `IntFFI`: values crossing into plugins.
  - `ExpChain`: primary, comparison and logical chain evaluation.
  - `ExpEval`: operands and `TSInt_EvaluateExp`.
  - `IntBlock`: the execution stack, variables and assignment.
  - `IntStatement`: the statement stepper.
  - `IntAction`: the pending and signaled action lists and the trigger protocol.
  - `IntUnit`: unit invocation and action processing.
  - `IntModule`: the module event loop.
- **Plugins and utilities.**
  - `Timer`: the timer, ptimer and vtimer controllers.
  - `PipeLine` and `Pipe`: the notify plugin's line reader and pipes.
  - `IdHash`: the plugin id hash.
  - `Graph`: graph bounds and the count of active graphs.
  - `MathBasic`: minimum and maximum.
  - `Path`: the unit search path.
  - `Text`: `%d` and `atoi`.
- **IDE.**
  - `Variables`: the `ts_variable` presets.
  - `Editor`: the editor's tab list.
  - `Ide`: the IDE run-state machine.
- **Shared.** `Wrappers` (Option and Result) and `Seqs` (sequence helpers).

C pointers that may be NULL are `Option`s. Linked lists are sequences,
head first. A function that can fail returns a `Result` or an
`Outcome`:
- `Done` for a value;
- `Raised` for an interpreter exception;
- `Unspecified` where the C reads memory it never wrote or dereferences
  NULL, so that its behaviour is undefined.

Whatever lies outside the program becomes a parameter:
- **Interpreter calls and controls.**
  - Calls to units and to plugin functions are the `IntBlock.Oracles`.
  - A unit invoked from inside another unit is answered by the oracle
    alone. The ids it takes and the units it arms never reach the module
    state. For a call inside an expression, the mode it hands back is
    not adopted either; a call statement does adopt it.
  - The plugin action controllers are `IntAction.Controller`.
  - The debugger controller and the abort signal, sampled before each
    statement, are `IntUnit.Tick` scripts.
- **The module loop.** Plugin group callbacks, the signals that arrive
  while the module sleeps, and the abort signal are `IntModule.World`.
- **Names and the outside world.**
  - What a called name resolves to during resolution is `Resolve.Lookup`.
  - Which files exist is an input of `Path.FindUnitFile`.
  - The text of a pipe's file is an input of the `Pipe` operations.
  - Whether the OS timer could be set is an input of the `Timer` operations.
  - Dialog answers are inputs of the `Editor` and `Ide` handlers.
- **Unbounded loops.** A run of statements consumes one tick per
  statement. The event loop takes a bound on its rounds, and a loop with
  an empty body takes fuel. Running out of any of these is reported as
  undetermined, never as a result.

## Model

| member | source | states |
|---|---|---|
| DefTypes.Rank | ts/api/tsdef/source/def.c:53-60 | Every type has a rank below six. |
| DefTypes.RankStrictlyIncreasing | ts/api/tsdef/source/def.c:53-60 | The rank table orders void < delayed < bool < int < real < string. |
| DefTypes.RankInjective | ts/api/tsdef/source/def.c:53-60 | Two types share a rank exactly when they are the same type, so ordering by rank loses nothing. |
| DefTypes.AllowPrimitiveConversion | ts/api/tsdef/source/def.c:812-832 | Only concrete types (bool, int, real, string) convert; a string converts to any concrete type; any other concrete type converts exactly to the types of equal or higher rank. |
| DefTypes.ConversionComposition | ts/api/tsdef/source/def.c:812-832 | Conversion is reflexive on concrete types and transitive through any intermediate type other than string, and not through string: int converts to string and string to bool, yet int does not convert to bool. |
| DefTypes.SelectPrimitivePromotion | ts/api/tsdef/source/def.c:834-846 | The promotion is one of the two operand types and ranks at least as high as both. |
| DefTypes.PromotionIsJoin | ts/api/tsdef/source/def.c:834-846 | Promotion is commutative, idempotent and associative, and lies below every common upper bound: it is the least upper bound of the rank order. |
| DefTypes.PromotionAcceptsOperands | ts/api/tsdef/source/def.c:812-846 | Both concrete operands convert into their promotion, so a binary operation can always evaluate at the promoted type. |
| DefTypes.OpAllowed | ts/api/tsdef/source/def.c:848-878 | A void left side allows only the terminating value op and negation of an int or real; a void right operand is never allowed; a string on either side allows only '+'; any other pair of non-void types allows every operator. |
| DefTypes.StringOnlyConcatenates | ts/api/tsdef/source/def.c:848-878 | With a string on either side and a non-void other operand, an operator is legal exactly when it is '+'. |
| DefTypes.SteppablePrimitive | ts/api/tsdef/source/def.c:880-902 | A for loop can count with a type exactly when it is concrete and not string (bool, int or real). |
| DefTypes.Precedence | ts/api/tsdef/source/def.c:36-44 | Only the terminating value op has precedence zero, and no precedence exceeds three. |
| DefTypes.PrecedenceOrder | ts/api/tsdef/source/def.c:36-44 | '^' binds tighter than '* / %', which bind tighter than '+ -'. |
| DefTypes.LogicalPrecedence | ts/api/tsdef/source/def.c:46-51 | Only the terminating value op has precedence zero, and 'and' binds tighter (2) than 'or'. |
| Arguments.ArgumentTypesFromExpList | ts/api/tsdef/source/arguments.c:23-58 | One type per argument, in order, each the argument expression's static primitive type. |
| Arguments.ArgumentTypesFromInput | ts/api/tsdef/source/arguments.c:60-118 | A unit without inputs gives the empty list; otherwise the list exists exactly when every input variable has a declared type, and then lists those types in input order. |
| Arguments.ArgumentCountMatchInput | ts/api/tsdef/source/arguments.c:126-140 | The result is a match exactly when the argument count equals the number of inputs, otherwise a count mismatch; never a type mismatch. |
| Arguments.ArgumentTypesMatchInput | ts/api/tsdef/source/arguments.c:142-174 | A count mismatch exactly when the counts differ; a match exactly when the counts agree and every input is declared with exactly the argument's type; a type mismatch otherwise. |
| Arguments.ArgumentTypesMatchFFI | ts/api/tsdef/source/arguments.c:176-232 | A count mismatch exactly when the counts differ; otherwise the delta is the summed type distance, and the result is a type mismatch exactly when some argument cannot convert to its parameter type, the report naming the last such position with its argument and parameter types. |
| Arguments.ExactSignatureHasZeroDelta | ts/api/tsdef/source/arguments.c:176-232 | A signature whose parameter types equal the argument types has delta zero, the best possible match. |
| Arguments.ZeroDeltaIsExact | ts/api/tsdef/source/arguments.c:176-232 | Conversely, delta zero means every parameter type equals its argument's type. |
| ParserUtil.Location | ts/api/tsdef/source/parserutil.c:71 | The location recorded is the current line number minus one, in unsigned arithmetic: line zero wraps to the largest unsigned value. |
| ParserUtil.ScanForLoop | ts/api/tsdef/source/parserutil.c:362-378 | The walk from the current block towards the root finds a loop exactly when some enclosing block is the body of a loop statement. |
| ParserUtil.HandleError | ts/api/tsdef/source/parserutil.c:23-62 | The error count always grows by one; syntax errors and flow control outside a loop abandon the statement and every other error the parse, as does a failing append; the report is appended with no flags and no info when there is a list; the unit and current block are untouched. |
| ParserUtil.ProcessError | ts/api/tsdef/source/parserutil.c:69-72 | A syntax error is counted and, when there is a list, reported at the current line minus one. |
| ParserUtil.Action | ts/api/tsdef/source/parserutil.c:110-132 | A new empty action one level below the global block is put at the head of the unit's action list with the triggers and location, the older actions following unchanged, and its body becomes the current block. |
| ParserUtil.EndAction | ts/api/tsdef/source/parserutil.c:134-137 | The unit's global block becomes current again, the unit untouched. |
| ParserUtil.EndBlock | ts/api/tsdef/source/parserutil.c:410-416 | The parent of the current block becomes current: the enclosing block for a nested block, the global block for an action's body, none for the global block. |
| ParserUtil.AddFunctionCall | ts/api/tsdef/source/parserutil.c:139-167 | The call is appended to the current block at the current location and parsing continues in the same block. |
| ParserUtil.AddAssignment | ts/api/tsdef/source/parserutil.c:196-224 | The assignment is appended to the current block at the current location and parsing continues in the same block. |
| ParserUtil.AddIfStatement | ts/api/tsdef/source/parserutil.c:226-269 | The if statement's fresh, empty block, one level deeper, becomes current, and ending it returns to the block that was current. |
| ParserUtil.AddLoop | ts/api/tsdef/source/parserutil.c:271-355 | The loop's fresh, empty block, one level deeper, becomes current; ending it returns to the block that was current; and inside it break and continue are accepted. |
| ParserUtil.MakeLoopFor | ts/api/tsdef/source/def.c:2084-2108 | A for loop keeps its initial assignment, limit and direction, and counts with its own variable or, when it has none, with the variable its initial assignment sets. |
| ParserUtil.AddLoopFlowControl | ts/api/tsdef/source/parserutil.c:357-408 | Inside a loop the break or continue is appended and parsing continues; outside one nothing is added, the error is counted, and the statement (or, on a failing append, the parse) is abandoned. |
| ParserUtil.AddFinish | ts/api/tsdef/source/parserutil.c:418-438 | 'finish' is appended to the current block wherever it is, with no loop check, and parsing continues. |
| LexerUtil.ClosingQuote | ts/api/tsdef/source/lexerutil.c:32-67 | The scan stops at a '"' at or after where it started. |
| LexerUtil.Decoded | ts/api/tsdef/source/lexerutil.c:32-67 | The decoded text is never longer than the raw text up to the closing quote. |
| LexerUtil.TranslateStringLiteral | ts/api/tsdef/source/lexerutil.c:16-72 | The translation loop produces exactly the decoding of the text between the opening quote and the first unescaped closing quote, and fits the raw length less two that is allocated. |
| LexerUtil.DecodeEscaped | ts/api/tsdef/source/lexerutil.c:38-63 | Decoding the escaped form of any string followed by a quote gives the string back and stops at that quote: '\\n' and '\\a' decode to newline and BEL, any other escaped character to itself. |
| LexerUtil.TranslateEscapedLiteral | ts/api/tsdef/source/lexerutil.c:16-72 | Quoting the escaped form of any string gives a literal that translates back to the string. |
| LexerUtil.PlainLiteral | ts/api/tsdef/source/lexerutil.c:62-63 | A literal whose interior has no backslash or quote decodes to its interior unchanged. |
| DefError.InitializeDefErrorList | ts/api/tsdef/source/deferror.c:17-23 | A new list is empty with zero counts, and its counts agree with its reports. |
| DefError.AppendDefErrorList | ts/api/tsdef/source/deferror.c:25-75 | The report is appended at the tail with the earlier reports unchanged; a warning raises the warning count and anything else the error count; the counts keep agreeing with the reports. |
| DefError.InfoFlagKeepsWarning | ts/api/tsdef/source/deferror.c:48-66 | Setting INFO_VALID on the report does not change whether it counts as a warning. |
| DefFFI.FFICodeOf | ts/api/tsdef/source/ffi.c:14-35 | Every type has an FFI code from -1 (none) to 4. |
| DefFFI.TranslateFFIType | ts/api/tsdef/source/ffi.c:14-35 | A known code maps to the type whose code it is; any other code maps to VOID; never DELAYED. |
| DefFFI.TranslateRoundTrip | ts/api/tsdef/source/ffi.c:14-35 | Translating a type's own FFI code gives the type back. |
| DefFFI.TranslateInjective | ts/api/tsdef/source/ffi.c:14-35 | Distinct known codes translate to distinct types. |
| Text.IntToDecimal | ts/api/tsint/source/value.c:102 | "%d" output is non-empty, starts with '-' exactly for negative numbers, and is all digits otherwise. |
| Text.NatToDecimal | ts/api/tsint/source/value.c:102 | The digits of a natural number, with no leading zero. |
| Text.DecimalDigitsValue | ts/api/tsint/source/value.c:102 | The value of the digits written for n is n. |
| Text.AtoiOfDecimal | ts/api/tsint/source/value.c:158 | atoi reads back exactly the integer "%d" wrote. |
| Def.InitializeBlock | ts/api/tsdef/source/def.c:62-79 | A new block is empty, at depth zero without a parent and one level below its parent otherwise. |
| Def.RebaseStmts | ts/api/tsdef/source/def.c:247-279 | Rebasing a statement list keeps its length. |
| Def.RebaseBlockWellDepthed | ts/api/tsdef/source/def.c:247-279 | After rebasing, the block has the requested depth and every block nested in it, at any level, sits exactly one level below its parent. |
| Def.RebaseStmtsWellDepthed | ts/api/tsdef/source/def.c:254-277 | Every rebased statement of a list owns only well-depthed blocks. |
| Def.RebaseStmtWellDepthed | ts/api/tsdef/source/def.c:259-276 | A rebased if or loop statement owns a well-depthed block; other statements own none. |
| Def.RebaseIdentity | ts/api/tsdef/source/def.c:247-279 | Rebasing a block whose depths are already right changes nothing, so rebasing is idempotent. |
| Def.RebaseStmtsIdentity | ts/api/tsdef/source/def.c:254-277 | Rebasing a list of well-depthed statements changes nothing. |
| Def.RebaseStmtIdentity | ts/api/tsdef/source/def.c:259-276 | Rebasing a well-depthed statement changes nothing. |
| Def.RebaseBlockErases | ts/api/tsdef/source/def.c:247-279 | Rebasing a block changes only depths: with every depth erased, the block is what it was. |
| Def.RebaseStmtsErases | ts/api/tsdef/source/def.c:254-277 | Rebasing a statement list changes only the depths of the blocks it owns. |
| Def.RebaseStmtErases | ts/api/tsdef/source/def.c:259-276 | Rebasing a statement changes only the depths of the blocks it owns. |
| Def.AppendStatement | ts/api/tsdef/source/def.c:2204-2286 | The statement goes at the tail, after the unchanged earlier statements, with its location; the block keeps its depth and variables; the appended statement equals the one given up to block depths, and equals it outright when its blocks already sit below the block; the block it owns is rebased below the block, so a well-depthed block stays well-depthed. |
| Def.FindInBlock | ts/api/tsdef/source/def.c:325-337 | The slot found holds the name and no later declaration in the block has it; no slot means no variable of the block has the name. |
| Def.LookupVariable | ts/api/tsdef/source/def.c:317-341 | The variable found has the name and is the most recent declaration of it in the innermost block that declares it; no result means no block of the scope chain declares the name. |
| Def.DeclareVariable | ts/api/tsdef/source/def.c:343-380 | The new variable is appended with type DELAYED and the next slot number, and a block whose slots are numbered by position stays so. |
| Def.DeclareThenLookup | ts/api/tsdef/source/def.c:317-380 | Right after a declaration in the innermost block, a lookup of the name finds exactly the new variable's slot there, shadowing any outer declaration. |
| Def.ConstructList | ts/api/tsdef/source/def.c:440-479 | The item becomes the head of the list, followed by the existing items, if any, in order. |
| Def.ConstructPrimaryExp | ts/api/tsdef/source/def.c:1148-1189 | The node becomes the head of the chain; a new chain has type DELAYED and no negation flag, an existing one keeps its nodes, type and flag behind the new node. |
| Def.ConstructComparisonExp | ts/api/tsdef/source/def.c:1308-1349 | The comparison node, typed DELAYED, becomes the head of the chain, followed by the existing nodes. |
| Def.ConstructLogicalExp | ts/api/tsdef/source/def.c:1468-1531 | A new chain is the one node; a chain headed by a bare value node reuses that node, moving its operand and flags to the right-hand side and discarding the right operand given; any other chain gets the new node in front. |
| Def.LogicalShapedCounts | ts/api/tsdef/source/def.c:1468-1531 | A chain that is one bare VALUE node, or only `and`/`or` nodes, has one operand more than it has operators. |
| Def.ConstructLogicalExpReadsInOrder | ts/api/tsdef/source/def.c:1468-1531 | Read as `x0 op0 x1 ... xn`, the built chain is the new operand, then the new operator, then the operands and operators of the remaining chain in order (a bare VALUE chain contributes its operand as the right one), or `x op y` alone; it keeps the grammar's shape. |
| Def.ExpPrimitiveType | ts/api/tsdef/source/def.c:1697-1720 | Comparison and logical expressions are bool; a primary expression has the effective type the resolver recorded. |
| Def.CallPrimitiveType | ts/api/tsdef/source/def.c:990-1029 | An unresolved call is DELAYED; a call resolved to a foreign function never is. |
| Def.ExpValuePrimitiveType | ts/api/tsdef/source/def.c:961-1046 | Constants have their literal's type; a variable is DELAYED exactly when it is unbound or bound to a DELAYED variable. |
| Def.InitializeUnit | ts/api/tsdef/source/def.c:2365-2381 | A new unit has its name, id zero, no input, output or actions, and an empty global block at depth zero. |
| Def.AddAction | ts/api/tsdef/source/def.c:2288-2315 | The action, with its triggers and location, goes in front of the existing actions, which are unchanged, with an empty body one level below the global block; the global block and name are untouched. |
| DefModule.ComputeHash | ts/api/tsdef/source/module.c:23-39 | The loop computes the 32-bit FNV-style hash of the name (multiply with unsigned wrap-around, then XOR in the sign-extended character) and the bucket index is that hash modulo 2048, hence always below 2048. |
| DefModule.InitializeModule | ts/api/tsdef/source/module.c:42-68 | All 2048 buckets start empty; there are no groups, no units on either list and the referenced-unit count is zero; the group and object lists start partitioned by their flags. |
| DefModule.ScanTypedUnits | ts/api/tsdef/source/module.c:146-167 | The first scan stops at the first same-name unit whose input types match exactly or whose input count differs, and finds nothing exactly when no unit is such a stopping point. |
| DefModule.ScanTypedUnitsByCount | ts/api/tsdef/source/module.c:169-191 | The second scan stops at the first unit of the name, whatever its types, and finds nothing exactly when no unit has the name. |
| DefModule.ScanFFI | ts/api/tsdef/source/module.c:193-230 | A wrong argument count on a same-name plugin function ends the scan at that function; otherwise the result is the same-name function of least conversion delta, the earliest one on a tie, with the disallowed-conversion report of its signature; nothing is found exactly when no plugin function has the name. |
| DefModule.LookupModuleObject | ts/api/tsdef/source/module.c:126-259 | Typed units are preferred: a unit is the result exactly when some typed unit has the name, the exactly matching one when the first scan finds it, a count mismatch reported on the first stopping candidate; otherwise the least-delta plugin function with its type-mismatch report, or the count mismatch that cut the scan; not found exactly when neither a unit nor a plugin function has the name. |
| DefModule.SecondScanAcceptsTypeMismatch | ts/api/tsdef/source/module.c:169-191 | As written, a unit `f` taking an int does not stop the first scan for a call `f("x")`, although its types mismatch, so the second scan returns it without an error. |
| DefModule.GrownKeeps | ts/api/tsdef/source/module.c:409-436 | Registering plugin functions only adds objects: every object of a bucket is still in it afterwards. |
| DefModule.PushFFIObject | ts/api/tsdef/source/module.c:416-426 | The object is put into the bucket its name hashes to, and nothing else is removed. |
| DefModule.PushGroupFunctions | ts/api/tsdef/source/module.c:409-436 | The k-th function of the group becomes the object in slot count-1-k and lies in the bucket its name hashes to; the registered-object list grows by one entry per function in front of the old list. |
| DefModule.AddFFIGroup | ts/api/tsdef/source/module.c:376-446 | The group takes the next group id and heads the registered groups; every function is findable in its name's bucket as the object of slot count-1-k; existing objects, referenced lists and units are unchanged. |
| DefModule.MarkUnitResolved | ts/api/tsdef/source/module.c:453-475 | The unit takes the next unit id and moves from the unresolved list to the head of the referenced list, the count grows by one, no unit is lost, and distinct referenced ids stay distinct. |
| DefModule.ReferenceFFI | ts/api/tsdef/source/module.c:477-520 | Afterwards the object's group and the object are marked referenced and sit on the referenced lists only; every other group is unchanged; the lists stay partitioned by the flags; a second reference changes nothing. |
| Resolve.HandleError | ts/api/tsdef/source/resolve.c:89-124 | A warning raises only the warning count, an error only the error count; when there is a list the report is appended with the unit's name, the current location and the info, and it is flagged WARNING exactly when it is a warning; nothing earlier is lost. |
| Resolve.LastReportFlags | ts/api/tsdef/source/resolve.c:97-121 | The report appended to the list is a warning exactly when the flags passed include WARNING, whatever else they hold. |
| Resolve.EmitReports | ts/api/tsdef/source/resolve.c:394-418 | Replaying a template instance's reports adds exactly one error or warning per report and loses nothing already reported. |
| Resolve.OperandTypes | ts/api/tsdef/source/resolve.c:506-570 | The operand types of a primary chain, one per node, in order. |
| Resolve.PromoteAllIsMax | ts/api/tsdef/source/resolve.c:515-527 | Promoting all operand types gives one of them, of rank at least every operand's. |
| Resolve.FirstDisallowedOp | ts/api/tsdef/source/resolve.c:570-585 | An operator reported is used in the chain and not allowed at the promoted type; no report means every used operator from that code on is allowed. |
| Resolve.EveryOpHasACode | ts/api/tsdef/source/resolve.c:570-585 | The operator check visits every operator code, so none escapes it. |
| Resolve.NoDisallowedOp | ts/api/tsdef/source/resolve.c:570-585 | When the check reports nothing, every operator used in the chain is allowed at the promoted type. |
| Resolve.DecideExp | ts/api/tsdef/source/resolve.c:712-739 | The expression keeps its kind; on success every variable and call in it is bound; only reports are added to the state. |
| Resolve.DecideOptExp | ts/api/tsdef/source/resolve.c:866-881 | An absent condition stays absent; a present one is decided, and bound on success. |
| Resolve.DecideValue | ts/api/tsdef/source/resolve.c:177-244 | A constant is left as it is; a variable is bound to the innermost declaration of its name from the current block outwards, and when no block declares it the error UNDEFINED_VARIABLE abandons the statement. |
| Resolve.DecidePrimary | ts/api/tsdef/source/resolve.c:506-624 | On success every operand is bound, the chain's type is the promotion of the operand types, every operator used is allowed at that type, and a negated chain is int or real; the chain keeps its length and flag. |
| Resolve.DecidePrimaryFrom | ts/api/tsdef/source/resolve.c:541-568 | Continuing over the remaining operands keeps those guarantees for the whole chain. |
| Resolve.FinishPrimary | ts/api/tsdef/source/resolve.c:570-610 | Once every operand is bound, the expression continues only when each operator used, the value operation and a leading minus are allowed on the promoted type; it then carries exactly that promotion, and a negated expression is Int or Real. |
| Resolve.PrimaryStep | ts/api/tsdef/source/resolve.c:543-568 | Taking one more bound operand keeps every operand bound and concrete, and the promotion of the longer chain is the promotion of the shorter one with the new operand's type. |
| Resolve.DecideComparison | ts/api/tsdef/source/resolve.c:626-678 | On success every node's type is concrete and is the promotion of its own and the next node's operand types, and every operand is bound. |
| Resolve.DecideComparisonFrom | ts/api/tsdef/source/resolve.c:640-672 | Continuing over the remaining nodes keeps the comparison typing for the whole chain. |
| Resolve.ComparisonStep | ts/api/tsdef/source/resolve.c:640-672 | Deciding one more comparison node keeps every node decided so far typed and bound. |
| Resolve.ComparisonLast | ts/api/tsdef/source/resolve.c:640-672 | When the last node is decided, the whole comparison chain is typed and bound. |
| Resolve.DecideLogicalFrom | ts/api/tsdef/source/resolve.c:680-710 | On success every present operand of every node is bound. |
| Resolve.DecideArgumentsFrom | ts/api/tsdef/source/resolve.c:741-758 | A call keeps its number of arguments, and on success every argument is bound. |
| Resolve.DecideCall | ts/api/tsdef/source/resolve.c:246-484 | The call keeps its name, and on success it has a target and bound arguments. |
| Resolve.BindCall | ts/api/tsdef/source/resolve.c:279-484 | An unknown name is UNDEFINED_FUNCTION and abandons the statement; a wrong count adds one error and abandons it; a lookup failure abandons resolution; a typed unit becomes the target, an error exactly when used as a trigger; a plugin function becomes the target with one warning when an argument needs a disallowed conversion, and one error exactly when it cannot be called or cannot trigger as used. |
| Resolve.BindFFI | ts/api/tsdef/source/resolve.c:437-470 | A plugin function always becomes the call's target with its own name and types and nothing else of the call changes; a needed conversion adds exactly one warning; exactly one error is added when the function cannot be invoked, or cannot act as a trigger, in the way it is used. |
| Resolve.UnitUseChecked | ts/api/tsdef/source/resolve.c:424-436 | A unit used as a trigger adds the error FUNCTION_NOT_ACTIONABLE; used in a statement it adds nothing. |
| Resolve.DecideCallListFrom | ts/api/tsdef/source/resolve.c:486-504 | Every trigger of the list is decided, the list keeping its length, and a failing trigger never abandons only a statement. |
| Resolve.LookupOrDeclare | ts/api/tsdef/source/resolve.c:760-800 | Afterwards the name is found exactly at the location returned: the existing innermost declaration, with the chain unchanged, or a new variable in the next slot of the current block. |
| Resolve.SetVariableType | ts/api/tsdef/source/resolve.c:801-830 | Only the chosen variable's type changes: every block keeps its depth, and every variable its name and slot. |
| Resolve.SetTypeKeepsLookup | ts/api/tsdef/source/resolve.c:760-830 | Retyping a variable leaves every name's lookup where it was. |
| Resolve.SameNamesSameLookup | ts/api/tsdef/source/def.c:317-341 | Two scope chains that agree on all variable names give the same lookup result for every name. |
| Resolve.SameNamesSameFind | ts/api/tsdef/source/def.c:325-337 | Two blocks with the same variable names find every name in the same slot. |
| Resolve.PerformAssignment | ts/api/tsdef/source/resolve.c:760-830 | The right-hand side is decided first; on success the left-hand side is bound to the variable the chain now holds under that name, and a name no block declared is declared in the current block and takes the right-hand side's type; on failure the chain is unchanged. |
| Resolve.AssignmentWarning | ts/api/tsdef/source/resolve.c:801-826 | Assigning to an existing typed variable leaves the chain unchanged and adds one INCOMPATIBLE_TYPES warning exactly when the right-hand side's type does not convert to the variable's, and no error. |
| Resolve.ProcessLoopHead | ts/api/tsdef/source/resolve.c:883-1002 | The loop's block is entered whatever happens; a for loop without an initial assignment whose variable no block declares adds one error and abandons the statement; on success a for loop's variable is bound to a steppable type and its bound is bound. |
| Resolve.ForLoopHead | ts/api/tsdef/source/resolve.c:896-980 | A for loop enters one new block holding the body's statements; without an initial assignment and with a variable no block declares it adds exactly one error and abandons the statement; on success the variable is bound to a steppable type and the bound is bound. |
| Resolve.ForLoopBound | ts/api/tsdef/source/resolve.c:937-979 | The bound is decided in the enclosing block; then one INCOMPATIBLE_TYPES warning exactly when it does not convert to the variable's type, and one TYPE_NOT_STEPPABLE warning, which abandons the statement, exactly when the variable's type cannot count. |
| Resolve.ProcessStatement | ts/api/tsdef/source/resolve.c:1004-1066 | A statement becomes current at its location, keeps it, and never passes on a decision to abandon only itself; only reports are added. |
| Resolve.StatementOutcome | ts/api/tsdef/source/resolve.c:1004-1066 | Only ABORT_RESOLVE stops the statement loop; an abandoned statement lets the next one run. |
| Resolve.ProcessStmts | ts/api/tsdef/source/resolve.c:1004-1066 | Every statement of the block is processed, keeping its location and the statement count, and the loop never ends in a decision to abandon a statement. |
| Resolve.ProcessActionsFrom | ts/api/tsdef/source/resolve.c:1068-1099 | Every action is processed in list order, keeping their number, in the scope of the global block. |
| Resolve.ResolveInputTypes | ts/api/tsdef/source/resolve.c:1101-1215 | A wrong argument count adds one error and fails; on success each input, in order, keeps its name and is declared with its argument's type; the unit's statements, output and actions are untouched; it never abandons resolution. |
| Resolve.DeclareInputsFrom | ts/api/tsdef/source/resolve.c:1154-1200 | Continuing over the remaining inputs keeps every input declared with its argument's type. |
| Resolve.ResolveOutputType | ts/api/tsdef/source/resolve.c:1217-1238 | A unit without output is left untouched with no report; with one, the output assignment is resolved in the global block and the output stays present. |
| Resolve.ResolveUnit | ts/api/tsdef/source/resolve.c:1240-1304 | The result is RESOLVE_INITIALIZE_ERROR exactly when typing the inputs fails; any error makes it an error code; success means no error and no warning, a warning code means warnings but no error; on success or warning every unit (the unit and each template instance) is resolved. |
| Resolve.ProcessUnitsFrom | ts/api/tsdef/source/resolve.c:1278-1303 | The loop over the units never gives the initialisation error; it stops with an error code as soon as any error has been counted, the counts never go down, and on success every unit is returned. |
| IntValue.ExceptionCode | ts/api/tsint/include/tsint/exception.h:13-17 | Every exception a running unit raises has a negative code, so none reads as TSINT_EXCEPTION_NONE. |
| IntValue.BoolToInt | ts/api/tsint/source/value.c:56-59 | A bool widens to 0 or 1, 1 exactly for true. |
| IntValue.Truncate | ts/api/tsint/source/value.c:124-127 | The cast from real to int drops the fraction toward zero: the result lies within one of the real, on the real's side of zero. |
| IntValue.ConvertValue | ts/api/tsint/source/value.c:37-178 | A conversion never raises; a successful one has the target type, and converting to the value's own type gives it back unchanged; the result is left undetermined exactly for a non-concrete target, real to string and string to real (the C library's "%f" and atof). |
| IntValue.ConvertToBool | ts/api/tsint/source/value.c:37-178 | The bool a value converts to, defined exactly when the conversion to bool succeeds. |
| IntValue.BoolIntRoundTrip | ts/api/tsint/source/value.c:56-89 | A bool converted to int and back is the same bool. |
| IntValue.IntToBoolNonzero | ts/api/tsint/source/value.c:83-89 | An int converts to true exactly when it is nonzero. |
| IntValue.IntStringRoundTrip | ts/api/tsint/source/value.c:101-160 | The decimal text an int converts to reads back, through string-to-int, as the same int. |
| IntValue.BoolStringRoundTripLosesTrue | ts/api/tsint/source/value.c:66-155 | As written, true converts to the string "true", yet "true" converts back to false: the bool is stored through the real member of the value union. |
| IntValue.ConvertToBoolThroughRealIsFalse | ts/api/tsint/source/value.c:116-155 | As written, every real and every string converts to false, because the bool is written as a double into the union and read back as its low byte. |
| IntValue.IntRealRoundTrip | ts/api/tsint/source/value.c:96-127 | An int converted to real and back is the same int. |
| ExpOp.CDivMod | ts/api/tsint/source/expop.c:129-150 | The C quotient and remainder satisfy b*q + r == a, the remainder is smaller than the divisor in magnitude and has the sign of the dividend. |
| ExpOp.CDivModNonNegative | ts/api/tsint/source/expop.c:129-150 | For a non-negative dividend and a positive divisor, C division agrees with mathematical (Euclidean) division. |
| ExpOp.CDivDiffersFromEuclidean | ts/api/tsint/source/expop.c:129-150 | For a negative dividend they differ: C gives -7 / 2 == -3 and -7 % 2 == -1, Euclidean division -4 and 1. |
| ExpOp.BoolPrimaryOp | ts/api/tsint/source/expop.c:19-95 | VALUE copies the left operand; any other operator without a right operand is undetermined (a NULL dereference); only `/` and `%` by false raise, and they raise DIVIDE_BY_ZERO; bool `^` is false exactly when the left operand is false and the right one true. |
| ExpOp.BoolOpsAreIntOpsOnBits | ts/api/tsint/source/expop.c:19-95 | Apart from `^`, each bool operator is the int operator applied to 0/1 and read back as nonzero: `+` is or, `*` and, `-` exclusive or, and `/` and `%` raise on false and otherwise divide by one. |
| ExpOp.IntPrimaryOp | ts/api/tsint/source/expop.c:97-152 | VALUE copies; `-` alone negates; `+` and `-` are exact sum and difference; `/` and `%` raise DIVIDE_BY_ZERO exactly on a zero divisor and otherwise give the C (truncating) quotient and remainder. |
| ExpOp.RealPrimaryOp | ts/api/tsint/source/expop.c:154-207 | VALUE copies and `-` alone negates; no real operator raises, not even division by zero. |
| ExpOp.StringPrimaryOp | ts/api/tsint/source/expop.c:209-255 | VALUE copies; `+` gives the left string followed by the right one; every other operator leaves the result unwritten. |
| ExpOp.ApplyPrimary | ts/api/tsint/source/expeval.c:296-320 | An operator keeps the left operand's type, and VALUE returns the left operand. |
| ExpOp.IntCompare | ts/api/tsint/source/expop.c:318-377 | Each comparison operator holds exactly when the corresponding relation holds between the ints. |
| ExpOp.BoolCompare | ts/api/tsint/source/expop.c:257-316 | Bools compare as the integers 0 and 1, so false < true. |
| ExpOp.RealCompare | ts/api/tsint/source/expop.c:379-438 | Each comparison operator holds exactly when the corresponding relation holds between the reals. |
| ExpOp.Strcmp | ts/api/tsint/source/expop.c:449 | The sign of strcmp is -1, 0 or 1. |
| ExpOp.StrcmpZeroIffEqual | ts/api/tsint/source/expop.c:449-467 | strcmp is zero exactly on equal strings, so `==` and `~=` on strings are string equality and inequality. |
| ExpOp.StrcmpAntisymmetric | ts/api/tsint/source/expop.c:449 | Swapping the operands flips the sign of strcmp. |
| ExpOp.StrcmpIsLexicographic | ts/api/tsint/source/expop.c:449 | strcmp is negative exactly when the first string comes first in lexicographic order (a proper prefix first). |
| ExpOp.StringCompare | ts/api/tsint/source/expop.c:440-500 | `==` and `~=` are equality and inequality of the strings; `<` and `>` are lexicographic order. |
| ExpOp.ApplyComparison | ts/api/tsint/source/expeval.c:366-390 | A comparison has an outcome exactly when both operands have the same type. |
| ExpOp.ComparisonComplement | ts/api/tsint/source/expop.c:257-500 | For operands of one type, exactly one of an operator and its negation holds: `==` against `~=`, `<` against `>=`, `>` against `<=`. |
| IntFFI.FFITypeOf | ts/api/tsint/source/ffi.c:58-93 | A plugin value's type code is one of the four FFI type codes. |
| IntFFI.DefTypeToFFIType | ts/api/tsint/source/ffi.c:21-56 | A value is handed to a plugin exactly when its type is concrete and is the type named, and the plugin value then carries the matching FFI type code; no conversion raises. |
| IntFFI.FFITypeToDefType | ts/api/tsint/source/ffi.c:58-93 | A plugin value is read back exactly when the code is an FFI type code and is the value's own, and then has the definition type that code translates to. |
| IntFFI.DefFFIRoundTrip | ts/api/tsint/source/ffi.c:21-93 | A value handed to a plugin and read back unchanged is the same value. |
| IntFFI.FFIDefRoundTrip | ts/api/tsint/source/ffi.c:21-93 | A plugin value read in and handed out again is the same plugin value. |
| ExpChain.PrimaryPartial | ts/api/tsint/source/expeval.c:38-150 | The node the partial evaluation leaves as processed lies between its start and the end of the chain. |
| ExpChain.PrimaryLoop | ts/api/tsint/source/expeval.c:73-135 | The loop over the chain only moves forward: the node it stops at is at or after the current one. |
| ExpChain.PrimaryChain | ts/api/tsint/source/expeval.c:282-347 | An empty chain has no value; an exception raised by the first operand is the chain's exception. |
| ExpChain.SameLevelLoop | ts/api/tsint/source/expeval.c:73-135 | With every operator at one precedence level other than `^`, the loop computes the left fold of the remaining operands. |
| ExpChain.SameLevelIsLeftFold | ts/api/tsint/source/expeval.c:38-150 | A chain of `+` and `-` alone, or of `*`, `/` and `%` alone, groups to the left: `a - b - c` is `(a - b) - c`. |
| ExpChain.PowLoop | ts/api/tsint/source/expeval.c:73-135 | On a chain of `^` alone, the loop recurses into the right operand at every step. |
| ExpChain.PowIsRightFold | ts/api/tsint/source/expeval.c:38-150 | A chain of `^` alone groups to the right: `a ^ b ^ c` is `a ^ (b ^ c)`. |
| ExpChain.TighterRightBindsFirst | ts/api/tsint/source/expeval.c:38-150 | In `a op1 b op2 c` with `op2` binding tighter, `b op2 c` is computed first and then combined with `a`, operands still read left to right. |
| ExpChain.LooserRightBindsLast | ts/api/tsint/source/expeval.c:38-150 | In `a op1 b op2 c` with `op1` binding at least as tightly, and not both `^`, `a op1 b` is computed first. |
| ExpChain.ComparisonChain | ts/api/tsint/source/expeval.c:349-491 | An empty chain has no value; an exception raised by the first operand is the chain's exception. |
| ExpChain.ComparisonFromAllPairs | ts/api/tsint/source/expeval.c:395-488 | From any node on, when every operand and comparison evaluates, the rest of the chain holds exactly when every remaining adjacent pair holds. |
| ExpChain.ComparisonChainIsConjunction | ts/api/tsint/source/expeval.c:349-491 | `a < b <= c` holds exactly when every adjacent pair holds. |
| ExpChain.ComparisonStopsAtFalse | ts/api/tsint/source/expeval.c:395-488 | A false pair ends the chain as false: the operands after it are never read, whatever they would give. |
| ExpChain.SkipTo | ts/api/tsint/source/expeval.c:205-210 | The skip stops at a node at or after its start, on the last node or at the first operator binding less tightly than the one skipped for, every node in between binding at least as tightly. |
| ExpChain.LogicalPartial | ts/api/tsint/source/expeval.c:152-280 | The node the partial evaluation leaves as processed lies between its start and the end of the chain. |
| ExpChain.LogicalLoop | ts/api/tsint/source/expeval.c:185-273 | The loop over the chain only moves forward. |
| ExpChain.LogicalChain | ts/api/tsint/source/expeval.c:493-512 | An empty chain has no value; an exception raised by the first operand is the chain's exception. |
| ExpChain.AndRun | ts/api/tsint/source/expeval.c:152-280 | An `and` group closes at an `or` node or at the end of the chain, and a false conjunction stays false. |
| ExpChain.RefFromTrue | ts/api/tsint/source/expeval.c:152-280 | In the reference semantics of `and` over `or`, once one group holds, the whole chain holds. |
| ExpChain.RefFromAndRun | ts/api/tsint/source/expeval.c:152-280 | Reading an `and` group node by node gives the same value as closing the group first. |
| ExpChain.AndRunFalse | ts/api/tsint/source/expeval.c:195-212 | A false conjunction is carried unchanged up to the first `or`, which is where the group closes. |
| ExpChain.AndGroupLoop | ts/api/tsint/source/expeval.c:185-273 | The loop called at the precedence of `and` evaluates exactly the open `and` group and stops at the `or` that closes it. |
| ExpChain.AndRunAllAnd | ts/api/tsint/source/expeval.c:152-280 | An `and` group that runs to the end of the chain closes there, and stays false once false. |
| ExpChain.TopLoop | ts/api/tsint/source/expeval.c:185-273 | The loop at the lowest precedence computes the reference value of the rest of the chain. |
| ExpChain.AndGroupLoopTop | ts/api/tsint/source/expeval.c:185-273 | The same, started on a node of an `and` group. |
| ExpChain.LogicalChainMatchesReference | ts/api/tsint/source/expeval.c:152-280 | When the NOT flags of adjacent nodes agree and no false `and` group ends the chain with an `or`, the chain's value is that of `and` binding tighter than `or`, with short-circuiting not changing the value. |
| ExpChain.SkipOverrunCounterexample | ts/api/tsint/source/expeval.c:205-210 | As written, `false and false or true` evaluates to false: the skip over the false `and` group runs onto the last node and its `or true` is never read. |
| ExpChain.NotFlagCounterexample | ts/api/tsint/source/expeval.c:267 | As written, `false or not true or false` evaluates to true: the NOT of the middle operand is taken from the first node's flag, so the operand reads true. |
| ExpEval.ConstantAs | ts/api/tsint/source/expvalue.c:171-210 | A constant read in a type has that type and never raises; the read is undetermined exactly for a non-concrete type, a real read as string and a string read as real; a real constant reads as bool true exactly when nonzero, and a string constant reads as bool true exactly when it is not "true". |
| ExpEval.LookupSlot | ts/api/tsint/source/variable.c:15-30 | A variable's value is the one its slot at the binding's depth and index holds; a slot not on the stack or never assigned gives an undetermined value, never an exception. |
| ExpEval.AsBool | ts/api/tsint/source/expeval.c:514-561 | A bool outcome is passed through as the bool, an exception as the exception. |
| ExpEval.EvalExp | ts/api/tsint/source/expeval.c:514-561 | A successful evaluation has the type asked for. |
| ExpEval.EvalPrimary | ts/api/tsint/source/expeval.c:282-347 | A primary chain with no nodes or with a type no value can have gives no value. |
| ExpEval.PrimarySteps | ts/api/tsint/source/expeval.c:282-347 | The chain's nodes are visited in order, each keeping its operator. |
| ExpEval.ValueAs | ts/api/tsint/source/expvalue.c:171-496 | A successfully read operand has the type it is read in. |
| ExpEval.EvalCall | ts/api/tsint/source/expvalue.c:42-169 | A call's result has the type asked for, and an unresolved call gives no value. |
| ExpEval.UnitArguments | ts/api/tsint/source/unit.c:109-170 | When the arguments evaluate, there is one value per argument and argument i has the type of input variable i; more arguments than inputs never evaluate. |
| ExpEval.FFIArguments | ts/api/tsint/source/ffi.c:111-182 | When the arguments evaluate, there is one plugin value per argument and argument i carries the plugin's argument type i; more arguments than parameters never evaluate. |
| ExpEval.CmpSteps | ts/api/tsint/source/expeval.c:349-491 | Each comparison node keeps its operator and its optional right operand, and every operand is evaluated in the FIRST node's type, whatever type its own node was given. |
| ExpEval.LogicalSteps | ts/api/tsint/source/expeval.c:152-280 | Each logical node keeps its operator and its two NOT flags. |
| ExpEval.ConstantAsAgreesWithConvert | ts/api/tsint/source/expvalue.c:171-496 | Reading a constant in a type is the general value conversion, except when a real or string constant is read as bool. |
| ExpEval.StringConstantBoolIsInverted | ts/api/tsint/source/expvalue.c:204-210 | As written, the string constant "true" reads as false and every other string constant as true, while any string held in a variable converts to false. |
| ExpEval.VariableReadsItsSlot | ts/api/tsint/source/expvalue.c:224-237 | A variable read in its own type gives exactly the value its slot holds. |
| ExpEval.EvalInOwnTypeIsPrimaryValue | ts/api/tsint/source/expeval.c:514-561 | Evaluating a primary expression in its own type does not change its value. |
| ExpEval.IntSubtractionGroupsLeft | ts/api/tsint/source/expeval.c:38-150 | `a - b - c` on int constants evaluates to `(a - b) - c`. |
| ExpEval.IntProductBindsTighter | ts/api/tsint/source/expeval.c:38-150 | `a + b * c` on int constants evaluates to `a + (b * c)`. |
| ExpEval.LogicalExpMatchesReference | ts/api/tsint/source/expeval.c:152-280 | Whatever the environment, a logical expression whose operands all evaluate, with agreeing NOT flags and no false `and` group ending in an `or`, has the value of `and` over `or`. |
| ExpEval.ComparisonExpIsConjunction | ts/api/tsint/source/expeval.c:349-491 | A comparison expression whose operands all evaluate in the first node's type holds exactly when each adjacent pair does. |
| IntBlock.ControlModeForInvokedUnit | ts/api/tsint/source/unit.c:85-107 | The mode a called unit starts in is never single-step: run and step both become run, while step-into and halt are passed on unchanged. |
| IntBlock.ControlModeIdempotent | ts/api/tsint/source/unit.c:85-107 | Choosing the invoked unit's mode from a mode already chosen that way changes nothing. |
| IntBlock.FirstStatement | ts/api/tsint/source/block.c:80 | A block has a first statement exactly when it is not empty, and that statement is at position 0. |
| IntBlock.Slots | ts/api/tsint/source/variable.c:15-30 | Evaluation sees one slot row per stack frame, in depth order, each the frame's own variables. |
| IntBlock.StartBlock | ts/api/tsint/source/block.c:18-88 | Entering a block pushes exactly one frame on top of the unchanged stack; it records the block, its owner and the return statement, and all its variable slots start uninitialized. Execution continues at the block's first statement, and the mode, unit and location are untouched. |
| IntBlock.FinishBlock | ts/api/tsint/source/block.c:90-165 | Leaving a block pops exactly the top frame and resumes at the return statement that frame recorded; nothing else about the unit changes. |
| IntBlock.StartThenFinish | ts/api/tsint/source/block.c:18-165 | Entering a block and leaving it again gives back the original stack, with execution at the return statement. |
| IntBlock.StartBlockValid | ts/api/tsint/source/block.c:18-88 | Entering a block whose return statement lies in the current block, owned by an if or loop whose body it is, keeps the unit state well formed. |
| IntBlock.FinishBlockValid | ts/api/tsint/source/block.c:90-165 | Leaving a block of a well-formed unit state leaves a well-formed unit state. |
| IntBlock.SameShapeValid | ts/api/tsint/source/assignment.c:17-43 | Changing only variable slots and for-loop records of the frames keeps a unit state well formed. |
| IntBlock.LookupVariable | ts/api/tsint/source/variable.c:15-30 | Reading a variable never raises; it gives a value exactly when the binding addresses a slot on the stack that has been assigned, and that value is the slot's content. |
| IntBlock.WriteSlot | ts/api/tsint/source/assignment.c:36-40 | Storing a value keeps every frame's block, owner, return statement, loop record and slot count; the addressed slot holds the value and every other slot is unchanged. |
| IntBlock.PerformAssignment | ts/api/tsint/source/assignment.c:17-43 | An assignment raises exactly when evaluating its right-hand side in the variable's declared type raises, with that exception; on success the variable's slot holds the evaluated value and the statement position, mode, unit and location are unchanged. |
| IntBlock.AssignThenLookup | ts/api/tsint/source/assignment.c:17-43 | After a successful assignment the variable reads back the value the right-hand side evaluated to, of the variable's declared type, and every other slot reads what it read before. |
| IntBlock.DistinctSlotsIndependent | ts/api/tsint/source/assignment.c:17-43 | Writing one variable of a block never changes what another variable of the same block reads. |
| IntStatement.Lift | ts/api/tsint/source/statement.c:593-594 | A statement step succeeds with the new state exactly when the operation succeeded, and raises exactly when it raised, with the same exception and the state as it was. |
| IntStatement.Following | ts/api/tsint/source/statement.c:256 | The statement after position i exists exactly when i is not the block's last statement, and it is at i + 1. |
| IntStatement.EvalCondition | ts/api/tsint/source/statement.c:67-85 | A condition succeeds exactly when the expression evaluated as bool succeeds, giving that bool, and raises exactly when that evaluation raises, with its exception. |
| IntStatement.ForSetup | ts/api/tsint/source/statement.c:375-404 | A for loop's record can be set up exactly for a concrete variable type; it holds the evaluated bound and a step of that type (1 for an int variable), and compares with < and steps with + when counting up, with > and - when counting down. |
| IntStatement.ForTest | ts/api/tsint/source/statement.c:88-138 | The for-loop test never raises; it gives an answer exactly for a bool, int or real variable whose value has the bound's type, and that answer is the recorded comparison of the variable against the bound. |
| IntStatement.ForStep | ts/api/tsint/source/statement.c:444-492 | Stepping a for-loop variable keeps its type and is undetermined for a type without arithmetic; an int variable counting up gains the step, counting down loses it. |
| IntStatement.SetForState | ts/api/tsint/source/statement.c:357 | Writing the for-loop record of frame k changes that record only: every other frame, and every block, owner, return statement and slot, is kept. |
| IntStatement.ContinueLoop | ts/api/tsint/source/statement.c:46-150 | A plain loop always goes round again; a while loop goes round exactly as its condition evaluates; a for loop never raises and, when it answers, answers with the test of its variable against the bound recorded one frame down. |
| IntStatement.ProcessFunctionCall | ts/api/tsint/source/statement.c:152-259 | A successful call leaves the stack unchanged and continues at the next statement; an unresolved target is undefined; a plugin call raises only with the FFI exception or an exception from evaluating its arguments. |
| IntStatement.ProcessAssignment | ts/api/tsint/source/statement.c:261-275 | An assignment statement succeeds exactly when the assignment does, and then continues at the next statement; when it raises, the assignment raised that exception. |
| IntStatement.AfterElseChain | ts/api/tsint/source/statement.c:317-324 | The statement an if body returns to is the first one after it that is not an elseif or else of the same chain; every statement skipped is one. |
| IntStatement.ProcessIf | ts/api/tsint/source/statement.c:277-329 | An if whose guard is false moves on to the next statement with nothing else changed; a true guard, or a plain else, enters the body and returns past the rest of the chain; a guard that raises leaves the state unchanged. |
| IntStatement.EnterOrLeave | ts/api/tsint/source/statement.c:412-417 | After a loop test that says go on the state is kept; otherwise the loop body's block is finished. |
| IntStatement.SetUpForLoop | ts/api/tsint/source/statement.c:353-404 | Setting up a for loop keeps the body's frame and statement position, changes only slots and loop records, and leaves a loop record with the comparison and step that match the direction. |
| IntStatement.FillForState | ts/api/tsint/source/statement.c:366-403 | The loop record is filled with the comparison and step that match the direction (less and add counting up, greater and subtract counting down); the body's frame and statement position are kept, and an exception leaves the state as it was. |
| IntStatement.ProcessLoopStart | ts/api/tsint/source/statement.c:331-420 | Starting a loop either enters the body's block, owned by the loop and at its first statement, or leaves it at once and continues after the loop; a for loop has its record set up in the frame that holds the loop; a plain loop always enters its body. |
| IntStatement.ProcessLoopFinish | ts/api/tsint/source/statement.c:422-511 | The end of a loop body either goes round again from the body's first statement or leaves the body's block for the loop's return statement; no frame's block, owner or return statement changes. |
| IntStatement.ForRound | ts/api/tsint/source/statement.c:444-503 | A for loop's round changes only the variable slots and loop records: the frames keep their shape and nothing else in the state changes. |
| IntStatement.StepForLoop | ts/api/tsint/source/statement.c:444-511 | The end of a for loop's body goes round from the body's first statement or leaves for the loop's return statement, and no frame's block, owner or return statement changes. |
| IntStatement.RoundOrLeave | ts/api/tsint/source/statement.c:505-508 | Going round keeps the frames and restarts the body; leaving pops exactly the body's frame and resumes at its return statement. |
| IntStatement.ForRoundStepsThenTests | ts/api/tsint/source/statement.c:444-503 | A for loop's round writes back the stepped value and tests that new value against the bound; a step that raises ends the round with its exception. |
| IntStatement.UnwindToLoop | ts/api/tsint/source/statement.c:513-535 | Unwinding for continue or break finishes only blocks that belong to an if, stops at the innermost loop body and resumes at the return statement of the last block left; a stack with no loop body on top of unit-owned frames is undefined. |
| IntStatement.ProcessContinue | ts/api/tsint/source/statement.c:513-525 | continue is undefined when no loop body encloses it; otherwise it is the end of the innermost loop's body. |
| IntStatement.ProcessBreak | ts/api/tsint/source/statement.c:527-535 | break leaves the innermost enclosing loop body and every if body inside it, and resumes after the loop statement. |
| IntStatement.UnwindToBase | ts/api/tsint/source/statement.c:537-541 | Unwinding for finish leaves only the unit's own frame, resuming at the return statement of the block just above it. |
| IntStatement.ProcessFinish | ts/api/tsint/source/statement.c:537-547 | finish leaves only the unit's own frame, with no current statement and the FINISH flag set; the mode and unit are unchanged. |
| IntStatement.Settle | ts/api/tsint/source/statement.c:596-612 | Settling stops with a current statement or at the unit's own frame; it never pushes frames and never sets the FINISH flag, and a state that already has a current statement is left as it is. |
| IntStatement.SettleAfterLoop | ts/api/tsint/source/statement.c:604-610 | After a loop's end, settling goes on from the state it produced and never adds frames or sets FINISH; an exception or an unknown outcome is passed on unchanged. |
| IntStatement.ProcessStatement | ts/api/tsint/source/statement.c:550-615 | After a statement has run there is a current statement, unless only the unit's own frame is left. |
| IntStatement.ForCountsUp | ts/api/tsint/source/statement.c:331-511 | A for loop counting from a up to b runs its body b - a times when a < b and never otherwise: the bound is exclusive. |
| IntStatement.ForCountsDown | ts/api/tsint/source/statement.c:331-511 | A for loop counting from a down to b runs its body a - b times when a > b and never otherwise. |
| IntStatement.ForLoopFinishStepsThenTests | ts/api/tsint/source/statement.c:444-509 | The end of a for loop's body first writes the stepped value into the variable, then tests that new value: go round from the first statement or leave the body; a step that raises leaves the state unchanged. |
| IntStatement.WhileRetests | ts/api/tsint/source/statement.c:497-509 | The end of a while loop's body goes round when the condition holds, leaves the body when it fails, and raises the condition's exception with the state unchanged. |
| IntStatement.PlainLoopRepeats | ts/api/tsint/source/statement.c:142-145 | The end of a plain loop's body always goes round again from its first statement. |
| IntStatement.FinishStatementEndsUnit | ts/api/tsint/source/statement.c:537-547 | finish, from any depth, leaves exactly the unit's own frame, no current statement and the FINISH flag set. |
| IntStatement.UnwindToLoopValid | ts/api/tsint/source/statement.c:513-535 | Unwinding for continue or break keeps a well-formed unit state well formed. |
| IntStatement.LoopFinishValid | ts/api/tsint/source/statement.c:422-511 | The end of a loop body keeps a well-formed unit state well formed. |
| IntStatement.SettleValid | ts/api/tsint/source/statement.c:596-612 | Settling after a statement keeps a well-formed unit state well formed. |
| IntStatement.SettleAfterLoopValid | ts/api/tsint/source/statement.c:604-610 | Settling on from a well-formed state after a loop's end keeps it well formed. |
| IntStatement.LoopStartValid | ts/api/tsint/source/statement.c:331-420 | Starting a loop keeps a well-formed unit state well formed. |
| IntStatement.ProcessStatementValid | ts/api/tsint/source/statement.c:550-615 | Every statement keeps the unit state well formed: the current statement and every return statement lie in the right block, and every frame an if or loop owns runs that statement's body. |
| IntAction.Without | ts/api/tsint/source/action.c:49-54 | Unlinking an action from a list removes exactly that action, leaves a list without it unchanged, and keeps a list free of duplicates. |
| IntAction.PushThenUnlink | ts/api/tsint/source/action.c:114-162 | Pushing an action that is not on a list and unlinking it again gives back the list. |
| IntAction.SignalAction | ts/api/tsint/source/action.c:33-68 | A signal from a plugin is ignored for an action already signaled or finished; otherwise the action leaves the pending list, goes to the head of the signaled list and is marked signaled, and nothing else changes. |
| IntAction.AddToPending | ts/api/tsint/source/action.c:114-131 | Arming an action puts it at the head of the pending list and clears its signaled mark; the signaled list is unchanged. |
| IntAction.Unlink | ts/api/tsint/source/action.c:140-150 | Taking an action off its list touches only the list its signaled mark names: the signaled list for a signaled action, the pending list otherwise. |
| IntAction.MoveToPending | ts/api/tsint/source/action.c:133-162 | Moving an action to pending puts it at the head of the pending list with its signaled mark cleared; a live action of well-linked lists ends up off the signaled list with the lists still well linked; no other action changes list. |
| IntAction.RemoveFromAll | ts/api/tsint/source/action.c:164-189 | Removing an action marks it finished and takes it off both lists, keeping them well linked; an action already finished is left alone; no other action changes list. |
| IntAction.SignalKeepsLinked | ts/api/tsint/source/action.c:33-68 | A signal keeps the lists well linked and leaves a live action on the signaled list. |
| IntAction.SignalIdempotent | ts/api/tsint/source/action.c:42-45 | Signalling an action twice has the effect of signalling it once. |
| IntAction.AddToPendingKeepsLinked | ts/api/tsint/source/action.c:114-131 | Arming a live action that is on neither list keeps the lists well linked. |
| IntAction.SignalWhileRunningIsDropped | ts/api/tsint/source/action.c:482-497 | A signal that arrives for a pending action does reach the signaled list, but the move back to pending at the start of an update leaves exactly the lists there would have been without the signal. |
| IntAction.CommandCode | ts/api/tsffi/include/tsffi/function.h:22-26 | The five controller commands have codes 0 to 4. |
| IntAction.CommandCodesDistinct | ts/api/tsffi/include/tsffi/function.h:22-26 | Two controller commands have the same code exactly when they are the same command. |
| IntAction.Calls | ts/api/tsint/source/action.c:297-327 | The controller calls for triggers lo up to hi of one action are one call per trigger, in trigger order, all with the same command. |
| IntAction.TriggerArgs | ts/api/tsint/source/action.c:242-253 | Argument evaluation for a trigger that is not a plugin function is undefined; a successful evaluation gives one plugin value per argument. |
| IntAction.TriggerFault | ts/api/tsint/source/action.c:252-276 | A trigger's command fails exactly when its arguments fail to evaluate or the controller reports an error. |
| IntAction.FirstFault | ts/api/tsint/source/action.c:228-279 | The trigger loop reports no failure exactly when every trigger from t on succeeds; otherwise it reports the first failing trigger, with its failure, and every trigger before it succeeded. |
| IntAction.FirstError | ts/api/tsint/source/action.c:443-474 | A loop of argument-free commands reports no error exactly when every trigger from t on accepts the command; otherwise it reports the first trigger that refused it. |
| IntAction.QueryCounts | ts/api/tsint/source/action.c:360-403 | The query loop succeeds exactly when no trigger reports an error; then neither count exceeds the number of triggers, all triggers count as finished exactly when each reports FINISHED, and some count as triggered exactly when one reports TRIGGERED. |
| IntAction.EvaluateAction | ts/api/tsint/source/action.c:339-427 | Evaluation raises the FFI exception exactly when a trigger's query fails, leaving the active count and marking the action finished; otherwise the action is FINISHED exactly when every trigger is finished, which is exactly when the active count drops by one, TRIGGERED exactly when not finished and some trigger is triggered, and PENDING otherwise, in which two cases it is back on pending. |
| IntAction.EvaluateKeepsLinked | ts/api/tsint/source/action.c:339-427 | Evaluating an action taken off the signaled list keeps the lists well linked and leaves the action on pending exactly when it did not finish or fail. |
| IntAction.PrepActionRun | ts/api/tsint/source/action.c:429-480 | Preparing a run succeeds, with the lists unchanged, exactly when every trigger accepts the RUNNING command; otherwise the action is removed and the FFI exception raised. |
| IntAction.UpdateAction | ts/api/tsint/source/action.c:482-557 | An update succeeds exactly when every trigger's arguments evaluate and its controller accepts UPDATE, and then the action is back on pending; otherwise the action is removed, and an exception other than the FFI one came from evaluating some trigger's arguments. |
| IntAction.RemoveActions | ts/api/tsint/source/action.c:289-332 | Removing actions lo up to hi marks each of them finished, takes each off both lists, keeps the lists well linked, and leaves every other action exactly as it was. |
| IntAction.InitFrom | ts/api/tsint/source/action.c:211-285 | Arming actions from a on either arms all of them, raising the active count by their number and initialising every trigger in order, or stops at the first failing trigger of some action, having initialised exactly the triggers before it; only this unit's actions are added. |
| IntAction.InitActions | ts/api/tsint/source/action.c:192-337 | Arming a unit's actions either succeeds, raising the active count by the number of actions, stopping nothing and registering every action, or names the failing action, in which case every action up to and including it is finished; no other unit's action is added. |
| IntAction.InitFailureStopsWhatItStarted | ts/api/tsint/source/action.c:289-332 | When arming fails, the triggers stopped are exactly the triggers initialised, in the same order: none is stopped that was not started and none that was started is left running. |
| IntAction.AllCallsSameShape | ts/api/tsint/source/action.c:228-279 | The calls over a range of actions visit the same triggers in the same order whatever the command. |
| IntAction.InitFromKeepsLinked | ts/api/tsint/source/action.c:211-285 | Arming keeps the lists well linked, keeps every pending action pending, and leaves every action armed so far on pending. |
| IntAction.InitActionsKeepsLinked | ts/api/tsint/source/action.c:192-337 | After arming, the lists are well linked; on success every action of the unit is pending; on failure none of the actions up to the failing one is on any list. |
| IntAction.ArmFromKeepsLinked | ts/api/tsint/source/action.c:289-332 | The unwinding keeps the lists well linked and takes every action up to the failing one off every list; without a fault every action stays pending. |
| IntAction.PushFromKeepsLinked | ts/api/tsint/source/action.c:211-285 | Pushing fresh actions onto pending keeps the lists well linked, keeps what was pending pending, and leaves each pushed action pending. |
| IntAction.StopActions | ts/api/tsint/source/action.c:559-612 | Stopping a unit's actions sends STOP to every trigger of every action, in order, takes every action off both lists, keeps the lists well linked, and changes no other unit's action. |
| IntAction.OneActionUntouched | ts/api/tsint/source/action.c:339-557 | Evaluating, preparing or updating one action leaves every other action's flags and list membership as they were. |
| IntAction.StopActionsUntouched | ts/api/tsint/source/action.c:559-612 | Stopping one unit's actions leaves every other unit's actions as they were. |
| IntAction.UntouchedTrans | ts/api/tsint/source/action.c:339-612 | An action left untouched by two steps in a row is left untouched by both together. |
| IntUnit.RunBlock | ts/api/tsint/source/unit.c:34-82 | Running a unit's statements from a well-formed state ends, when it ends normally, with no current statement, a well-formed state and at most the unit's own frame; a state with nothing current is returned as it is; the invocation id never changes. |
| IntUnit.ControllerHaltStops | ts/api/tsint/source/unit.c:50-61 | A controller consulted outside run mode that answers HALT stops the unit before the statement, recording its location, with the mode HALT and the halt exception. |
| IntUnit.AbortStops | ts/api/tsint/source/unit.c:65-71 | A set abort signal, when the controller did not already halt the unit, stops it before the statement with the halt exception and the mode HALT. |
| IntUnit.RunBlockKeeps | ts/api/tsint/source/unit.c:34-82 | Running statements keeps the invocation id; without a controller, and with nested units that hand back the mode they were given, it keeps the mode too. |
| IntUnit.ProcessStatementKeeps | ts/api/tsint/source/statement.c:550-615 | A statement keeps the invocation id, and keeps the mode whenever nested units hand back the mode they were given. |
| IntUnit.CallKeeps | ts/api/tsint/source/statement.c:152-259 | A call statement keeps the invocation id, and changes the mode only when the invoked unit hands back a different one. |
| IntUnit.LoopStartKeeps | ts/api/tsint/source/statement.c:331-420 | Starting a loop keeps the invocation id and the mode. |
| IntUnit.SettleKeeps | ts/api/tsint/source/statement.c:596-612 | Leaving blocks and going round loops after a statement keeps the invocation id and the mode. |
| IntUnit.LoopFinishKeeps | ts/api/tsint/source/statement.c:422-511 | The end of a loop body keeps the invocation id and the mode. |
| IntUnit.HaltOnException | ts/api/tsint/source/unit.c:391-399 | On an exception, a unit run under a controller ends in HALT mode and one run without a controller is left as it was; the stack and the invocation id are untouched. |
| IntUnit.FindUnit | ts/api/tsint/source/unit.c:509-530 | Looking up an active unit by invocation id gives a position holding that id, or reports that no active unit has it. |
| IntUnit.StopUnit | ts/api/tsint/source/unit.c:509-530 | Stopping a unit removes exactly that unit from the active list, keeps the next id and the set of registered actions, keeps the lists well linked and takes every action of the unit off both lists. |
| IntUnit.StopUnitValid | ts/api/tsint/source/unit.c:509-530 | Stopping an active unit keeps the module state well formed: lists well linked, active units well formed, running, with distinct ids below the next id and all their actions registered. |
| IntUnit.BindInputs | ts/api/tsint/source/unit.c:275-312 | Binding inputs never raises; it succeeds only when there are at least as many arguments as inputs and every input names an addressable slot, and it changes nothing but slot contents. |
| IntUnit.BindInputsReadsBack | ts/api/tsint/source/unit.c:283-309 | After the inputs are bound to distinct slots, each input reads back the argument at its own position. |
| IntUnit.BindInputsKeepsOthers | ts/api/tsint/source/unit.c:283-309 | Binding inputs leaves every slot that no input names reading what it read before. |
| IntUnit.PrepareUnit | ts/api/tsint/source/unit.c:252-324 | A unit that gets ready to run has a well-formed state with the caller's mode, its new id, one frame for the global block, the FINISH flag clear and the global block's first statement current. |
| IntUnit.GlobalFrame | ts/api/tsint/source/unit.c:271-312 | The global frame with inputs bound never raises and, when defined, is a well-formed single frame for the global block with the caller's mode and the new id, at its first statement. |
| IntUnit.InvokeUnit | ts/api/tsint/source/unit.c:200-419 | Every invocation takes the next id; an exception under a controller ends in HALT and leaves the active units as they were; on success either the active units are unchanged or the unit, having actions and not having finished, is added at the front with the new id; an output is handed back exactly when the caller asked for one and the unit declares one. |
| IntUnit.AfterRun | ts/api/tsint/source/unit.c:330-389 | After the run, a unit with actions that did not finish is added at the front of the active units in the state it ran to, and any other unit leaves the active units unchanged; an output is handed back exactly when asked for and declared. |
| IntUnit.OutputValue | ts/api/tsint/source/unit.c:330-354 | Reading the output never raises; it gives a value exactly when the caller wants one and the unit declares an output, and that value is what the output variable reads. |
| IntUnit.Arm | ts/api/tsint/source/unit.c:358-389 | A unit with actions that did not finish is, when its actions arm, added at the front of the active units with all its actions live; any other unit leaves the module state as it was and hands back the output. |
| IntUnit.ArmWith | ts/api/tsint/source/unit.c:362-377 | The unit joins the front of the active units exactly when its actions arm, with the armed lists and count; a failure to arm keeps the armed lists, adds no unit and raises that exception, halting when a controller is present. |
| IntUnit.Fail | ts/api/tsint/source/unit.c:391-410 | The exception exit leaves the module state, raises the exception and hands back the halted mode. |
| IntUnit.InvokeUnitValid | ts/api/tsint/source/unit.c:200-419 | Invoking a unit keeps the module state well formed. |
| IntUnit.AfterRunValid | ts/api/tsint/source/unit.c:330-389 | Finishing an invocation keeps the module state well formed. |
| IntUnit.ArmValid | ts/api/tsint/source/unit.c:358-389 | Arming a unit's actions keeps the module state well formed. |
| IntUnit.ArmWithValid | ts/api/tsint/source/unit.c:362-377 | Adding the armed unit, or keeping the lists of a failed arming, keeps the module state well formed. |
| IntUnit.ReplaceListsValid | ts/api/tsint/source/action.c:114-189 | New action lists that are well linked, keep every registered action and register only actions of ids already handed out keep the module state well formed. |
| IntUnit.PushUnitValid | ts/api/tsint/source/unit.c:372-377 | A running unit with a fresh id below the next id and all its actions registered can join the active units without breaking the module state. |
| IntUnit.InvocationIdsIncrease | ts/api/tsint/source/unit.c:265-267 | Two invocations in a row take two consecutive ids, and a unit the second one leaves active holds the second id. |
| IntUnit.Store | ts/api/tsint/source/unit.c:421-507 | Replacing an active unit's record changes that record only, not the lists or the next id. |
| IntUnit.Abandon | ts/api/tsint/source/unit.c:487-507 | The exception exit of an action stops the unit, raises the exception and hands back the halted mode. |
| IntUnit.ProcessUnitAction | ts/api/tsint/source/unit.c:421-507 | An action of no active unit is undefined; otherwise the next id is kept, an exception under a controller ends in HALT and always removes the unit from the active units, and success keeps the unit or removes it. |
| IntUnit.Dispatch | ts/api/tsint/source/unit.c:443-483 | A PENDING action changes nothing; a FINISHED action succeeds in the caller's mode and stops the unit exactly when it was the unit's last live action; any exception removes the unit. |
| IntUnit.StopUnitForgets | ts/api/tsint/source/unit.c:509-530 | After a unit is stopped no active unit has its id. |
| IntUnit.RunAction | ts/api/tsint/source/unit.c:448-474 | A triggered action that completes either stops the unit or leaves it active with the same unit, running; an action with an empty block leaves its own frame on the unit's stack above the frames it had, and a non-empty block ends with at most the unit's own frame. |
| IntUnit.CompleteAction | ts/api/tsint/source/unit.c:459-474 | After an action's block, an exception removes the unit; success needs a normal run and, when the unit stays active, it did not finish and its record now holds the state the block ran to. |
| IntUnit.RearmWith | ts/api/tsint/source/unit.c:467-472 | Re-arming succeeds exactly when the update succeeds and keeps the unit; an exception from the update stops the unit and raises it. |
| IntUnit.StoreValid | ts/api/tsint/source/unit.c:421-507 | Replacing an active unit's state by a well-formed running one with the same unit and id keeps the module state well formed. |
| IntUnit.StopUnitAfterStore | ts/api/tsint/source/unit.c:509-530 | Stopping a unit gives the same module state whatever state its record held. |
| IntUnit.ProcessUnitActionValid | ts/api/tsint/source/unit.c:421-507 | Processing an action taken off the signaled list, so on no list and not finished, keeps the module state well formed. |
| IntUnit.DispatchValid | ts/api/tsint/source/unit.c:443-483 | Acting on the evaluated status keeps the module state well formed. |
| IntUnit.EvaluatedValid | ts/api/tsint/source/unit.c:435-441 | After evaluation, with the unit's location, mode and live-action count updated, the module state is well formed, the action is still registered and a TRIGGERED action is not finished. |
| IntUnit.RunActionValid | ts/api/tsint/source/unit.c:448-474 | Running a triggered action keeps the module state well formed. |
| IntUnit.CompleteActionValid | ts/api/tsint/source/unit.c:459-474 | Completing an action after its block ran keeps the module state well formed. |
| IntUnit.UpdateRunValid | ts/api/tsint/source/unit.c:463-471 | Re-arming an action after its block ran keeps the module state well formed, and so does stopping the unit after a failed update. |
| IntUnit.ActiveIds | ts/api/tsint/source/unit.c:509-530 | An id is among the active ids exactly when some active unit has it. |
| IntUnit.StopUnitFrame | ts/api/tsint/source/unit.c:509-530 | Stopping a unit removes exactly its id from the active ids and leaves every action of other units as it was. |
| IntUnit.StoreIds | ts/api/tsint/source/unit.c:421-507 | Replacing a unit's record with one of the same id keeps the active ids. |
| IntUnit.ProcessUnitActionFrame | ts/api/tsint/source/unit.c:421-507 | Processing one action never adds an active unit, and changes no action other than itself of any unit still active afterwards. |
| IntUnit.FramedTrans | ts/api/tsint/source/unit.c:421-507 | Two steps that each touch only the given action, and add no active unit, together do the same. |
| IntUnit.StopUnitFramed | ts/api/tsint/source/unit.c:509-530 | Stopping a unit adds no active unit and changes no action of any unit still active. |
| IntUnit.DispatchFrame | ts/api/tsint/source/unit.c:443-483 | Acting on the evaluated status adds no active unit and changes no other action of a unit still active. |
| IntUnit.RunActionFrame | ts/api/tsint/source/unit.c:448-474 | Running a triggered action adds no active unit and changes no other action of a unit still active. |
| IntUnit.CompleteActionFrame | ts/api/tsint/source/unit.c:459-474 | Completing an action adds no active unit and changes no other action of a unit still active. |
| IntUnit.RearmFramed | ts/api/tsint/source/unit.c:467-472 | Re-arming the action changes no other action of a unit still active. |
| IntUnit.AbandonFramed | ts/api/tsint/source/unit.c:448-451 | A failed run preparation that stops the unit changes no other action of a unit still active. |
| IntModule.BeginGroups | ts/api/tsint/source/module.c:206-233 | Beginning the plugin groups calls only begin callbacks; it fails exactly when some group with a begin callback fails, and then at the first such group; the groups begun are exactly those with a begin callback up to and including the one that failed. |
| IntModule.ChangeState | ts/api/tsint/source/module.c:76-117 | A state change calls only state callbacks, each with the new state; it succeeds exactly when no group's state callback fails, and then every group with a state callback was told; otherwise it stops at a failing group, whose call is the last one made. |
| IntModule.EndGroups | ts/api/tsint/source/module.c:276-296 | Ending the groups from g up to stop calls the end callback of exactly those groups that have one, each with the given code, and makes no other call. |
| IntModule.ApplySignals | ts/api/tsint/source/action.c:33-68 | Signals arriving while the module sleeps keep the registered actions and their finished marks, keep the lists well linked, keep every signaled action signaled, and leave every live signaled action on the signaled list. |
| IntModule.SignalStep | ts/api/tsint/source/action.c:33-68 | One signal keeps well-linked lists well linked, keeps every signaled action signaled, and leaves a live action on the signaled list. |
| IntModule.TakeSignaled | ts/api/tsint/source/module.c:257-263 | Each round takes the whole signaled list as its batch and empties it, leaving pending and the flags alone; from well-linked lists the batch has no repeats and every action in it is registered, live and on neither list. |
| IntModule.Walk | ts/api/tsint/source/module.c:265-273 | Walking a round's batch keeps the module state well formed and the next id, never adds an active unit, ends in HALT after an exception under a controller, and does nothing for an empty batch. |
| IntModule.WalkStep | ts/api/tsint/source/module.c:265-273 | Processing the batch's first action keeps the module state well formed and, when it succeeds, leaves the rest of the batch ready to be walked. |
| IntModule.WalkFrame | ts/api/tsint/source/module.c:265-273 | A step that touches only the batch's first action, and adds no active unit, leaves the rest of the batch ready to be walked. |
| IntModule.EventLoop | ts/api/tsint/source/module.c:240-274 | The event loop keeps the module state well formed and the next id, makes only state-change calls, and ends normally only with no active unit; with no active unit it ends at once without calling anything. |
| IntModule.StopAll | ts/api/tsint/source/module.c:308-309 | Stopping the newest active unit until none is left ends with no active unit, a well-formed module state, the same next id and the same registered actions. |
| IntModule.StartMode | ts/api/tsint/source/module.c:174-177 | The main unit starts in run mode exactly when there is no controller, and in step-into mode otherwise. |
| IntModule.InitialState | ts/api/tsint/source/module.c:183-191 | Before the main unit runs the module state is well formed, ids start at 1, no unit is active and both action lists are empty. |
| IntModule.InterpretModule | ts/api/tsint/source/module.c:158-342 | Interpreting a module ends with no error, the exception error or the begin-group error; it always ends with no active unit, a well-formed module state and the end callbacks as the last calls; with no error every group with an end callback is ended with the no-error code, after an exception with the exception code, and a begin-group failure produces no output and leaves the initial state. |
| IntModule.RunMain | ts/api/tsint/source/module.c:236-238 | After the groups have begun, running the main unit ends with no error or the exception error, keeps the calls already made as a prefix, and ends every group with an end callback with the code that matches the result. |
| IntModule.AfterMain | ts/api/tsint/source/module.c:240-303 | After the main unit returned, the module ends with no error or the exception error and the main unit's output, keeps the calls made so far as a prefix, leaves no active unit and ends every group with an end callback with the matching code. |
| IntModule.Unwind | ts/api/tsint/source/module.c:305-332 | The exception exit stops every active unit and ends every group with an end callback with the exception code; the result is the exception error and the calls made before are kept as a prefix. |
| IntModule.ConcatEnds | ts/api/tsint/source/module.c:305-332 | Calls with no end callback followed by end callbacks only have the end callbacks last, and those are exactly the end callbacks of the second part. |
| IntModule.BeginFailureUnwinds | ts/api/tsint/source/module.c:224-229 | When a group fails to begin, the result is the begin-group error with the initial state; the groups begun are exactly those with a begin callback up to and including the failing one, and the groups ended are exactly those before it that have an end callback, each with the exception code. |
| IntModule.AbortEndsWithException | ts/api/tsint/source/module.c:245-251 | An abort seen while units are active, after every group accepted the sleeping state, ends the event loop with an exception and the module state unchanged, every group with a state callback having been told the module sleeps. |
| IdHash.BucketOf | tscore/ffilib/source/idhash.c:21-24 | The bucket is within the table and congruent to the id modulo the table size. |
| IdHash.Init | tscore/ffilib/source/idhash.c:27-30 | A new table is valid and holds no id. |
| IdHash.Get | tscore/ffilib/source/idhash.c:125-142 | Nothing is found iff no node of the id's bucket carries the id. |
| IdHash.Add | tscore/ffilib/source/idhash.c:55-92 | Fails iff the id is absent and allocation fails (a present id is updated in place without allocating); the table keeps its shape. |
| IdHash.Remove | tscore/ffilib/source/idhash.c:94-123 | The table keeps its shape, and removing an absent id changes nothing. |
| IdHash.AddValid | tscore/ffilib/source/idhash.c:55-92 | Adding keeps every id in its own bucket and at most once per bucket. |
| IdHash.AddUpdates | tscore/ffilib/source/idhash.c:55-92 | After adding, the id maps to the new data and every other id is unchanged; the node count grows by one exactly when the id was absent. |
| IdHash.RemoveUpdates | tscore/ffilib/source/idhash.c:94-123 | After removing, the table is valid, the id is absent and every other id is unchanged; the node count drops by one when the id was present. |
| IdHash.FindUnlink | tscore/ffilib/source/idhash.c:103-122 | Unlinking the first node of an id from a bucket with distinct ids removes that id and no other. |
| IdHash.FindOverwrite | tscore/ffilib/source/idhash.c:64-89 | Overwriting the data of a present id changes that id's data and no other. |
| IdHash.AddThenRemove | tscore/ffilib/source/idhash.c:55-123 | Adding an absent id with enough memory succeeds, and removing it again restores every lookup. |
| Timer.Init | tscore/time/source/timer.c:107-141 | Succeeds iff memory is had and, for a non-negative delay, SetTimer and AddID succeed; the result satisfies the kind's invariant; it signals iff the delay is negative, which finishes the timer unarmed; otherwise the timer is armed and quiet. |
| Timer.Running | tscore/time/source/timer.c:143-148 | RUNNING is set and nothing else changes. |
| Timer.Expire | tscore/time/source/timer.c:43-72 | A timer whose body runs only records TRIGGERED_WAIT without a signal; otherwise it becomes TRIGGERED with a signal; it stays armed iff periodic; the other flags are kept. |
| Timer.UpdateOneShot | tscore/time/source/timer.c:150-178 | RUNNING is toggled; a TRIGGERED timer becomes FINISHED with a signal, a waiting trigger becomes TRIGGERED with a signal, and without either nothing else changes. |
| Timer.UpdatePeriodic | tscore/time/source/timer.c:291-319 | RUNNING is toggled; TRIGGERED afterwards iff a trigger was waiting, no trigger is left waiting, it signals iff a trigger was pending or waiting, and FINISHED is never changed. |
| Timer.UpdateVariable | tscore/time/source/timer.c:432-471 | A negative delay finishes the timer unarmed with a signal; otherwise the flags are cleared without a signal, the new id is kept, and it raises the exception iff SetTimer or AddID fails, being armed exactly otherwise. |
| Timer.Update | tscore/time/source/timer.c:150-178 | Every kind's UPDATE keeps the invariant, and only vtimer can raise the exception. |
| Timer.Query | tscore/time/source/timer.c:180-190 | FINISHED is reported iff the flag is set, else TRIGGERED iff that flag is set, else PENDING. |
| Timer.Stop | tscore/time/source/timer.c:192-203 | A reachable armed timer is always killed, and timer and ptimer kill only armed timers. |
| Timer.ExpireKeepsReachable | tscore/time/source/timer.c:43-72 | An armed reachable timer firing stays reachable. |
| Timer.RunningKeepsReachable | tscore/time/source/timer.c:143-148 | RUNNING keeps the invariant. |
| Timer.UpdateEndsRunning | tscore/time/source/timer.c:150-178 | RUNNING followed by UPDATE leaves RUNNING clear, for every kind. |
| Timer.NegativeDelayFinishes | tscore/time/source/timer.c:107-141 | A negative delay finishes any kind of timer at once with a signal, and QUERY reports FINISHED. |
| Timer.OneShotLifecycle | tscore/time/source/timer.c:43-203 | An armed one-shot timer is PENDING, the expiry signals TRIGGERED and disarms it, RUNNING then UPDATE signal FINISHED, and STOP then kills nothing. |
| Timer.DeferredTrigger | tscore/time/source/timer.c:43-178 | An expiry while the body runs stays PENDING without a signal, and the next UPDATE signals TRIGGERED and clears RUNNING. |
| Timer.PeriodicNeverFinishes | tscore/time/source/timer.c:216-355 | An armed ptimer stays armed through expiry, RUNNING and UPDATE, and QUERY never reports FINISHED. |
| Timer.PeriodicIgnoresArguments | tscore/time/source/timer.c:291-319 | ptimer's UPDATE gives the same result whatever the re-evaluated delay and host. |
| Timer.VariableForgetsState | tscore/time/source/timer.c:432-471 | vtimer's UPDATE flags, signal and exception depend only on the new delay and host, and for a non-negative delay the whole result does. |
| Timer.VariableStopKillsDeadTimer | tscore/time/source/timer.c:455-511 | After an UPDATE whose AddID fails the vtimer is reachable, unarmed and still has its id, so STOP kills an OS timer already killed. |
| PipeLine.SkipBlanks | tscore/notify/source/pipe.c:111-124 | The result is the first index at or after the start that is not a blank, every character stepped over is a blank, and a buffer ending in a non-blank (the NUL) is never run off. |
| PipeLine.Tokenize | tscore/notify/source/pipe.c:93-140 | For a NUL-free line the buffer afterwards is the line with a NUL written over the first blank after each argument, plus the terminator, and the count is the number of blank-separated arguments. |
| PipeLine.ScanCorrect | tscore/notify/source/pipe.c:97-140 | From any point of the scan the rest of the loop counts exactly the arguments of the text from the current argument's start, and rewrites the unscanned part as the tokenizer's marking. |
| PipeLine.SeparatorTokens | tscore/notify/source/pipe.c:107-127 | A run of non-blank characters ended by a blank or the end is exactly one argument more than the text after it. |
| PipeLine.ExtractArgument | tscore/notify/source/pipe.c:173-174 | No line, a negative index or an index at or past the argument count gives the empty string. |
| PipeLine.ExtractFindsToken | tscore/notify/source/pipe.c:179-196 | Stepping over k C strings of a tokenized line and then over blanks lands on the k-th argument. |
| PipeLine.ExtractArgumentCorrect | tscore/notify/source/pipe.c:163-211 | ExtractArgument on a tokenized line returns exactly the requested blank-separated argument of the original line. |
| PipeLine.ReadFrom | tscore/notify/source/pipe.c:56-146 | A returned line lies past the scan position, has at least one argument, is NUL-free and is held in tokenized form with its argument count; without a newline the position does not move back before the start. |
| PipeLine.ReadLine | tscore/notify/source/pipe.c:48-161 | A line read has at least one argument, its count is the number of arguments of its text, and the file position moves past it; without a line the position is not moved back. |
| PipeLine.ReadsFreshLine | tscore/notify/source/pipe.c:65-151 | A line with arguments read from a fresh position is returned whole, less its newline and one carriage return, tokenized, with the position just past its newline. |
| PipeLine.BlankLineUndefined | tscore/notify/source/pipe.c:83-90 | A line holding only a newline, read from a fresh position, makes ReadLine read the byte before its buffer. |
| PipeLine.StaleCarry | tscore/notify/source/pipe.c:89-146 | For the file "  \nab\n" the skipped blank line leaves bytes_read at one, so the next pass re-reads from two characters in and returns the single argument "\nab", newline included. |
| Pipe.ReadInto | tscore/notify/source/pipe.c:227-235 | A completed read keeps the pipe's id and binding, leaves the position within the file, signals iff a line arrived and holds a line only with at least one argument; it never raises. |
| Pipe.ListenInit | tscore/notify/source/pipe.c:226-237 | After INIT the pipe is bound to the action, and the action is signalled iff a line is held. |
| Pipe.ListenUpdate | tscore/notify/source/pipe.c:242-259 | UPDATE signals iff a new line is held, and a held line was read past the old position, so no line is delivered twice. |
| Pipe.ListenQuery | tscore/notify/source/pipe.c:261-267 | QUERY reports TRIGGERED iff a line is held and never reports FINISHED. |
| Pipe.ListenThenQuery | tscore/notify/source/pipe.c:242-267 | After UPDATE, QUERY reports TRIGGERED exactly when UPDATE signalled, and every argument of the held line reads back as the corresponding argument of the text read. |
| Pipe.PollOne | tscore/notify/source/pipe.c:318-343 | A pipe holding a line is left alone; a pipe is signalled only when it was bound and held no line, and exactly when it now holds one. |
| Pipe.Poll | tscore/notify/source/pipe.c:306-347 | A completed poll reports every open pipe, in order, as its own turn of the poll does. |
| Pipe.StartPolling | tscore/notify/source/pipe.c:349-374 | Succeeds iff SetTimer returns a non-zero id and AddID succeeds, and then only the poll timer id changes. |
| Pipe.StopPolling | tscore/notify/source/pipe.c:376-390 | The poll timer id is cleared and the open pipes are kept. |
| Pipe.NotifyStopPolling | tscore/notify/source/pipe.c:403-410 | Succeeds iff a timer can be set and registered, and then leaves a non-zero poll timer with the pipes open. |
| Pipe.StopPollingStarts | tscore/notify/source/pipe.c:403-410 | With a timer available Notify_StopPipePolling succeeds and leaves polling on, where StopPipePolling leaves it off. |
| Pipe.DestroyPipes | tscore/notify/source/pipe.c:412-434 | No pipe stays open, polling is off, and the next pipe id is kept. |
| Pipe.OpenPipe | tscore/notify/source/pipe.c:436-534 | A new pipe gets next_pipe_id, which then goes up by one, and is put unbound at position 0 at the head of the open list; the hashes keep their shape; no failure path reads freed memory. |
| Pipe.OpenPipeLeftover | tscore/notify/source/pipe.c:508-533 | The state a failed second AddID leaves keeps both hashes well-shaped. |
| Pipe.OpenPipeValid | tscore/notify/source/pipe.c:436-534 | A successful open keeps the bookkeeping (distinct ids below next_pipe_id; every hash entry names an open pipe) and the new pipe is found under its invocation id and its own id. |
| Pipe.OpenPipeFailureDangles | tscore/notify/source/pipe.c:508-530 | When the pipe hash cannot take the new pipe, Notify_Pipe raises, yet the unit hash still maps the invocation to the freed pipe, which is not open, so the bookkeeping is broken. |
| Pipe.FindPipe | tscore/notify/source/pipe.c:536-599 | A found pipe is open and has the id; nothing is found iff no open pipe has it. |
| Pipe.ReadVia | tscore/notify/source/pipe.c:536-599 | An absent hash entry raises; a successful read returns the requested argument of the current line of the open pipe the entry names. |
| Pipe.ReadPipe | tscore/notify/source/pipe.c:536-599 | An invocation without a pipe raises. |
| Pipe.HReadPipe | tscore/notify/source/pipe.c:601-664 | An unknown handle raises. |
| Pipe.ReadsAreDefined | tscore/notify/source/pipe.c:536-664 | With the bookkeeping intact neither read touches a freed pipe, and reading by a known handle returns the requested argument of that pipe's current line. |
| Pipe.ListenTarget | tscore/notify/source/pipe.c:698-709 | A bound pipe is an open one, and a missing hash entry raises. |
| Pipe.OpenMany | tscore/notify/source/pipe.c:436-534 | Opening a series of pipes that all succeed advances next_pipe_id by their number. |
| Pipe.OpenSequential | tscore/notify/source/pipe.c:436-534 | Opening n pipes in a row with every resource available succeeds, keeps the bookkeeping, and puts ids next_pipe_id .. next_pipe_id+n-1 newest first in front of the old open list. |
| Graph.Widen | tscore/graph/source/definition.c:213-222 | For ordered bounds, the new bounds contain the value, the minimum is lowered to it when below and the maximum raised to it when above. |
| Graph.AddPoint | tscore/graph/source/definition.c:189-226 | Fails iff allocation fails; otherwise the point is put at the head of the list and the domain and range contain its coordinates (unless the bounds were inverted before). |
| Graph.ClearPoints | tscore/graph/source/definition.c:228-238 | The list is emptied and the bounds reset so that they are tight; the graph's identity is kept. |
| Graph.AddPointTight | tscore/graph/source/definition.c:204-223 | When the bounds are exactly the least and greatest coordinates of the points, they still are after a point is added, both for the first point and for later ones. |
| Graph.TightEncloses | tscore/graph/source/definition.c:189-226 | Tight bounds enclose every point of the definition. |
| Graph.AddAll | tscore/graph/source/definition.c:201-202 | A series of additions leaves the added points in reverse order in front of the old ones, and keeps the graph's identity. |
| Graph.AddAllTight | tscore/graph/source/definition.c:189-226 | Any series of additions to a definition with tight bounds keeps them tight. |
| Graph.AddAllEncloses | tscore/graph/source/definition.c:189-238 | After clearing and any series of additions, every point lies inside the domain and range. |
| Graph.BeginModule | tscore/graph/source/definition.c:42-92 | Ids start at 1 with no active graph, the closed signal is set (consistent with zero graphs) and both hashes are valid and empty. |
| Graph.InitializeDefinition | tscore/graph/source/definition.c:117-166 | A created definition takes the next id with no points, and the count and next id both go up by one; a failure leaves them alone; with no graph active the closed signal is reset, otherwise kept. |
| Graph.DestroyDefinition | tscore/graph/source/definition.c:168-187 | The count drops by one, the closed signal is set when it reaches zero and kept otherwise, and both ids are gone from their hashes. |
| Graph.DefinitionsKeepSignal | tscore/graph/source/definition.c:117-187 | Creating and destroying keep the closed signal set exactly when no graph is active, and a create followed by its destroy restores the count and the signal. |
| Graph.FailedFirstGraphBlocksEnd | tscore/graph/source/definition.c:127-166 | When the first graph of a module fails to register its unit, no graph is active but the closed signal stays reset, breaking the signal/count correspondence that Graph_EndModule waits on. |
| Graph.GraphIdsIncrease | tscore/graph/source/definition.c:117-166 | A later successful create gets a larger graph id than an earlier one. |
| MathBasic.MinBool | tscore/math/source/basic.c:16-35 | The smaller of two bools (false before true) is true iff both are true. |
| MathBasic.MaxBool | tscore/math/source/basic.c:79-98 | The larger of two bools is true iff either is true. |
| MathBasic.MinInt | tscore/math/source/basic.c:37-56 | The result is at most both inputs and is one of them. |
| MathBasic.MaxInt | tscore/math/source/basic.c:100-119 | The result is at least both inputs and is one of them. |
| MathBasic.MinReal | tscore/math/source/basic.c:58-77 | The result is at most both inputs and is one of them. |
| MathBasic.MaxReal | tscore/math/source/basic.c:121-140 | The result is at least both inputs and is one of them. |
| MathBasic.MinMaxSplit | tscore/math/source/basic.c:37-119 | Min is at most max, min plus max is the sum of the inputs, both are symmetric, and min and max absorb each other. |
| MathBasic.MinMaxSplitReal | tscore/math/source/basic.c:58-140 | Min is at most max, min plus max is the sum of the inputs, and both are symmetric, on reals. |
| MathBasic.BoolAsInt | tscore/math/source/basic.c:16-98 | The bool minimum and maximum are the integer ones on 0 and 1. |
| Path.Init | ts/api/tsutil/source/path.c:18-23 | A new collection has no paths and a zero maximum, which bounds every path. |
| Path.Append | ts/api/tsutil/source/path.c:43-75 | Fails only for lack of memory; otherwise the name is added last, the maximum becomes the larger of the old maximum and the name's length, and both the exact and the off-by-one bound are kept. |
| Path.Prepend | ts/api/tsutil/source/path.c:77-114 | Fails for lack of memory, and reads before the string for an empty name; otherwise the name is added first, the caller's copy loses its final '/' exactly when it has one, the maximum covers the shortened name, and the off-by-one bound is kept. |
| Path.PrependUndercounts | ts/api/tsutil/source/path.c:98-107 | Prepending "a/" to a new collection stores a 2-character path under a maximum of 1, so the exact bound fails. |
| Path.Search | ts/api/tsutil/source/path.c:136-150 | Not found iff no directory's candidate exists; a found path is the candidate of some directory that exists, and no earlier directory's candidate exists. |
| Path.FindUnitFile | ts/api/tsutil/source/path.c:116-154 | A memory error iff the buffer cannot be allocated; otherwise the result of searching the directories in order. |
| Path.CandidatesFit | ts/api/tsutil/source/path.c:129-133 | Under the off-by-one bound every candidate path plus its NUL fits the allocated buffer. |
| Path.BuiltCollectionsFit | ts/api/tsutil/source/path.c:43-114 | Every collection built from an empty one by appends and prepends keeps the off-by-one bound, so candidate paths fit the search buffer. |
| Variables.AddVariable | ts/application/tside/win32/source/variables.c:23-56 | Text is rejected iff it has no '='; an accepted variable's name has no '=' and name "=" value gives the text back. |
| Variables.LoadFromCorrect | ts/application/tside/win32/source/variables.c:77-94 | The scanning loop succeeds iff every visited segment (each ';'-separated piece, except an empty one after a final ';') is an assignment; it then adds their variables in reverse order in front of the list; on failure the list is left stale iff something was already added. |
| Variables.InitializeVariablesCorrect | ts/application/tside/win32/source/variables.c:59-105 | Loading succeeds iff every visited segment of the environment value is an assignment, and then yields their variables, last one first. |
| Variables.VisitedJoin | ts/application/tside/win32/source/variables.c:79-94 | The visited segments joined with ';', plus a final ';' when the value had one, are the value again. |
| Variables.LoadedRoundTrip | ts/application/tside/win32/source/variables.c:59-105 | The loaded variables written back as name=value in environment order and joined with ';' give the environment value again, less a final ';'. |
| Variables.PiecesJoin | ts/application/tside/win32/source/variables.c:81-93 | Splitting at every ';' and joining the pieces with ';' gives the value back. |
| Variables.EmptyValueFails | ts/application/tside/win32/source/variables.c:79-87 | An empty ts_variable value fails the whole load, because its one segment has no '='. |
| Variables.EmptySegmentLeavesStaleList | ts/application/tside/win32/source/variables.c:101-122 | "a=1;;b=2" fails the load after one good assignment and leaves the variable list pointing at freed variables, since TSIDE_ShutdownVariables does not reset it. |
| Editor.Empty | ts/application/tside/win32/source/editor.c:132-135 | A new editor has no tabs and no current tab, and is valid. |
| Editor.MakeTabName | ts/application/tside/win32/source/editor.c:300-320 | A name without '\\' is kept whole; otherwise the result has no '\\' and is the text after the last '\\', or a prefix of it that stops exactly at that text's last '.'. |
| Editor.TabNameIsBase | ts/application/tside/win32/source/editor.c:300-320 | For a path dir\base.ext the tab name is base. |
| Editor.TabNameWithoutExtension | ts/application/tside/win32/source/editor.c:300-320 | For a path dir\base with no '.' in base the tab name is base. |
| Editor.BareNameKeepsExtension | ts/application/tside/win32/source/editor.c:305-309 | "unit.ts", having no '\\', is its own tab name: the extension is not cut. |
| Editor.AddFileTab | ts/application/tside/win32/source/editor.c:322-401 | Fails iff the tab cannot be created; otherwise the new tab (unnamed for no name) is put at the head, the current index moves up by one and still designates the same tab, and validity is kept. |
| Editor.RemoveFileTab | ts/application/tside/win32/source/editor.c:403-447 | An index outside the list changes nothing; otherwise exactly that tab is removed, removing the current tab leaves none current, and any remaining current tab is the one that was current. |
| Editor.FindFileTab | ts/application/tside/win32/source/editor.c:449-470 | The result is -1 or the index of the first tab whose name equals the given one ignoring case; -1 means no tab matches, or no name was given. |
| Editor.SwitchFileTab | ts/application/tside/win32/source/editor.c:495-524 | The tabs are kept and the given one becomes current. |
| Editor.HasUserTabs | ts/application/tside/win32/source/editor.c:526-540 | There are no user tabs iff no tab is current, or the only tab is unnamed and unmodified. |
| Editor.CloseLastLeavesNoUserTabs | ts/application/tside/win32/source/editor.c:526-540 | Closing the only tab leaves an editor without user tabs. |
| Editor.OpenedFileIsUserTab | ts/application/tside/win32/source/editor.c:526-540 | After a named file is opened the editor has user tabs. |
| Editor.OpenNewFile | ts/application/tside/win32/source/editor.c:542-553 | Fails iff the tab cannot be created; otherwise an unnamed tab is added at the head and made current. |
| Editor.OpenExistingFile | ts/application/tside/win32/source/editor.c:555-641 | Cancelled iff no file is picked; fails iff a picked file is not open and cannot be read or given a tab; on success the current tab's name matches the file, an already open file keeps the tabs, and a new one is put at the head, replacing a lone blank unmodified tab. |
| Editor.CloseCurrentFile | ts/application/tside/win32/source/editor.c:782-828 | Without a current tab nothing happens; it aborts iff saving is refused or the last tab cannot be replaced; closing the last tab leaves one blank current tab; otherwise the current tab is removed and the one before it (the next one for the first) becomes current. |
| Editor.CloseKeepsCurrent | ts/application/tside/win32/source/editor.c:782-828 | A completed close leaves a current tab, and removes exactly one tab unless it was the last, which is replaced. |
| Editor.AddThenRemove | ts/application/tside/win32/source/editor.c:322-447 | Adding a tab and then removing index 0 gives back the editor exactly, current tab included. |
| Editor.OpenThenFind | ts/application/tside/win32/source/editor.c:449-641 | A file opened successfully is found by its name afterwards. |
| Ide.Init | ts/application/tside/win32/source/ide.c:284-285 | The dialog starts HIDDEN with no document flag and no highlight, a state satisfying the reachability invariant. |
| Ide.UpdateRunState | ts/application/tside/win32/source/ide.c:349-378 | The new state is the target; entering HIDDEN clears the modified-while-run flag and no other target changes it; HIDDEN/SHOWN make the editor writable, COMPILING read-only, EXECUTING/BREAK leave it; the invariant is kept. |
| Ide.MenuState | ts/application/tside/win32/source/ide.c:380-502 | Close items follow whether user tabs exist; start/debug and exit are enabled exactly in HIDDEN or SHOWN, continue/step/step-into/variables exactly in BREAK, stop exactly in EXECUTING or BREAK; start is never enabled together with stop or continue. |
| Ide.MarkDocumentModified | ts/application/tside/win32/source/ide.c:504-510 | The flag is set afterwards iff it was set or the state is not HIDDEN; nothing else changes. |
| Ide.PrepareForRun | ts/application/tside/win32/source/ide.c:512-559 | A run is handed to the run window (with the selection and the mode) iff the state is HIDDEN or SHOWN, the unsaved-files prompt is not cancelled and the selection is non-empty, and then the state is SHOWN; otherwise the dialog is unchanged; files are saved iff the user answered YES to the prompt. |
| Ide.RunBeginning | ts/application/tside/win32/source/ide.c:561-589 | The run is refused iff edits were made while the run window was up, files are unsaved and the user cancels; going ahead clears the flag; only the flag changes. |
| Ide.BreakRun | ts/application/tside/win32/source/ide.c:599-612 | The state becomes BREAK and the location is both remembered and highlighted; the document flag and read-only mode are kept. |
| Ide.ContinueRun | ts/application/tside/win32/source/ide.c:622-636 | The controller gets the mode iff the state is BREAK; then the highlight is removed and the state is EXECUTING; otherwise nothing changes; it never aborts. |
| Ide.StopRun | ts/application/tside/win32/source/ide.c:591-597 | At a break the run is continued in HALT mode; in every other state it is aborted and the dialog is unchanged. |
| Ide.PrintVariables | ts/application/tside/win32/source/ide.c:614-620 | Variables are printed iff the state is BREAK. |
| Ide.TryDialogClose | ts/application/tside/win32/source/ide.c:638-659 | Closing proceeds iff the state is HIDDEN or SHOWN and the files were saved; the running-state refusal happens exactly in COMPILING, EXECUTING and BREAK. |
| Ide.Notify | ts/application/tside/win32/source/ide.c:980-1003 | Compiling/executing/finished/closed notifications move to COMPILING/EXECUTING/SHOWN/HIDDEN (the last clearing the flag); a document edit keeps the state; the invariant is kept. |
| Ide.HandleKeepsInv | ts/application/tside/win32/source/ide.c:591-636 | Every handler (notification, prepare, begin, break, continue, stop) keeps the invariant: HIDDEN carries no edit flag and the highlight is at the remembered location. |
| Ide.ReplayKeepsInv | ts/application/tside/win32/source/ide.c:980-1003 | Any sequence of handled events keeps the invariant. |
| Ide.Reachable | ts/application/tside/win32/source/ide.c:284-285 | Every state reachable from the initial dialog has no edit flag while HIDDEN and highlights only the remembered location. |
| Ide.MenuMatchesHandlers | ts/application/tside/win32/source/ide.c:398-501 | The enabled run items agree with the handlers: start iff PrepareForRun would start, continue iff ContinueRun acts, variables iff PrintVariables prints, exit iff closing is not refused, stop iff executing or StopRun halts at a break. |
| Ide.DebugSession | ts/application/tside/win32/source/ide.c:512-636 | Debug, compiling, executing, break and step in sequence: the run starts in STEP_INTO, the editor stays read-only from compilation on, the break is highlighted and continuing removes the highlight. |
| Ide.ClosedRunForgetsEdits | ts/application/tside/win32/source/ide.c:349-354 | An edit followed by the run window closing leaves no flag, so the next RunBeginning goes ahead without asking. |

## Behaviour kept as written

The model follows the code where the code does something other than
what its names and comments suggest. Each case below is modelled as
written and exhibited by a lemma on a concrete input.
- `IntValue.ConvertToBoolThroughRealIsFalse`, `IntValue.BoolStringRoundTripLosesTrue`:
  - `value.c` stores the bool result of a real-to-bool or string-to-bool
    conversion through the real member of the value union.
  - On a little-endian machine the bool reads the low byte of 0.0 or 1.0,
    which is zero, so the result is always false.
  - So `"true"` converts back to false.
- `ExpEval.StringConstantBoolIsInverted`: a string constant read as bool
  is true exactly when it is *not* `"true"` (`expvalue.c:205`). This is the
  reverse of `value.c`.
- `ExpChain.SkipOverrunCounterexample`: the skip over a false `and` group
  can run onto the last node and drop its `or`, so `false and false or
  true` is false.
- `ExpChain.NotFlagCounterexample`: the NOT flag of the *current* node
  is applied to the next operand (`expeval.c:267`).
- `DefModule.SecondScanAcceptsTypeMismatch`: the second scan of the
  typed-unit list ignores argument types, so a same-named unit of the
  right count is chosen although its types mismatch.
- `Resolve.LastReportFlags`: `resolve.c:102` reads an uninitialised
  `flags` variable. The model passes those flags as a parameter, and a
  report is a warning exactly when they contain WARNING.
- `Resolve.ProcessLoopHead`: a for loop over a type that cannot be
  stepped is reported as the warning TYPE_NOT_STEPPABLE, and the statement
  is still abandoned.
- `IntUnit.RunAction`: an action whose block is empty leaves its frame on
  the unit's stack, because no statement ever finishes that block.
- `IntAction.SignalWhileRunningIsDropped`: a signal that arrives while an
  action's block runs is discarded when the update moves the action back
  to pending.
- `Pipe.StopPollingStarts`: `Notify_StopPipePolling` calls
  `StartPipePolling`.
- `Pipe.OpenPipeFailureDangles`: a failed pipe registration leaves the
  unit hash naming a freed pipe.
- `PipeLine.BlankLineUndefined`: a line holding only a newline makes
  `ReadLine` read before its buffer.
- `PipeLine.StaleCarry`: a skipped blank line leaves a stale byte count
  for the next read.
- `Path.PrependUndercounts`: `Prepend` measures the path after stripping
  its trailing `/`, but stores it unstripped, so the recorded maximum
  length can be too small.
- `Variables.EmptyValueFails`: an empty `ts_variable` value fails the
  load.
- `Variables.EmptySegmentLeavesStaleList`: an empty segment fails the load
  and leaves the list pointing at freed variables.
- `Editor.BareNameKeepsExtension`: a file name without `\` keeps its
  extension as its tab name.
- `Timer.VariableStopKillsDeadTimer`: after a failed re-registration a
  vtimer's STOP kills an OS timer that is already dead.
- `Graph.FailedFirstGraphBlocksEnd`: a first graph that fails to register
  leaves the "all closed" signal reset with no graph active.

## Left out

- **Floating point.**
  - Real arithmetic in `RealPrimaryExpOp` is left out, apart from VALUE and negation.
  - So are `powf` behind int `^`, and every conversion through `%f` or `atof`.
  - Real comparisons (`RealComparisonExpOp`) are modelled on exact reals, with no NaN and no rounding.
  - Math_Ceil, Math_Floor and Math_Round are left out.
  - A model operation that would need any of these yields `Unspecified`.
  - The graph bounds and real min/max use exact reals, with no NaN.
- **32-bit integers.** Ints are unbounded, so overflow in the int operators and in `atoi` is not modelled.
- **Memory.**
  - Allocation failure paths are left out, including TSINT_EXCEPTION_OUT_OF_MEMORY from StartBlock, strdup and realloc.
  - The Clone and Destroy functions are left out: with immutable values, cloning is the identity and releasing is nothing.
- **Concurrency.**
  - The action-state lock and the listen wait are left out.
  - So is the abort signal's synchronisation, and the threads of `tscore/ffilib`.
  - A signal is a step applied between rounds of the event loop.
- **Parser.**
  - The Bison/Flex grammar and lexer are not part of this model.
  - Definition trees are taken as given.
  - The grammar actions that only allocate tree nodes are not modelled separately: the tree is built directly as datatypes. These are Parser_Input, Output, Assignment, ExpList, Exp, LogicalExp, ComparisonExp, PrimaryExp, SetPrimaryExpFlag, ExpValueType, FunctionCallList, FunctionCall, VariableList and ReferenceVariable.
- **Symbol-table plumbing.** TSDef_LookupName, AddUnitModuleObject and SetModuleMain only link records into lists, and they are not modelled.
- **Action back-pointer.** The tsdef `module.c:427-428` back-pointer of a group is set on the hash list rather than the registered list. Back-pointers of linked lists have no counterpart in a sequence model.
- **Win32 and the OS.**
  - Window messages, dialogs, tab and list controls and Scintilla are left out.
  - So are SetTimer/KillTimer, file handles, ReadFile/SetFilePointer and message-box failures.
  - The editor and IDE handlers return what they would ask of the windows, and dialog answers are inputs.
  - `Graph_EndModule` blocks on the "all closed" signal; the model states the signal/count correspondence instead of the wait.
  - The IDE's notification sender handle and the side effects of ValidateFileSaved are left out.
  - `ReadLine`'s buffer allocation and the timer plugin's hash lookup of its own data are left out.
  - MAX_PATH limits on path length are left out.
- **Case folding.** The case-insensitive tab-name comparison is ASCII-only; locale-dependent folding is not modelled.
- ExpEval.EvalCall: a unit called inside an expression may hand back a new control mode, which the C adopts (expvalue.c:77-88); the model drops it, so the call's result is its only effect.
- IntBlock.PerformAssignment: the mode is stated unchanged, but a unit called inside an expression may hand back a new control mode, which the C adopts (expvalue.c:77-88); the model drops it.
- IntStatement.ProcessIf: a guard's evaluation leaves the mode as it was, but a unit called inside an expression may hand back a new control mode, which the C adopts (expvalue.c:77-88); the model drops it.
- IntUnit.RunBlockKeeps: the kept mode holds for the model only; a unit called inside an expression may hand back a new control mode, which the C adopts (expvalue.c:77-88); the model drops it.
- IntUnit.ProcessStatementKeeps: the kept mode holds for the model only; a unit called inside an expression may hand back a new control mode, which the C adopts (expvalue.c:77-88); the model drops it.
- IntUnit.CallKeeps: only the invoked unit's own mode is adopted; for calls among the arguments, a unit called inside an expression may hand back a new control mode, which the C adopts (expvalue.c:77-88); the model drops it.
- IntUnit.LoopStartKeeps: the kept mode holds for the model only; in a loop's condition or bounds, a unit called inside an expression may hand back a new control mode, which the C adopts (expvalue.c:77-88); the model drops it.
- IntUnit.SettleKeeps: the kept mode holds for the model only; in a loop's condition or step, a unit called inside an expression may hand back a new control mode, which the C adopts (expvalue.c:77-88); the model drops it.
- IntUnit.LoopFinishKeeps: the kept mode holds for the model only; in a loop's condition or step, a unit called inside an expression may hand back a new control mode, which the C adopts (expvalue.c:77-88); the model drops it.
- IntUnit.InvokeUnit: the next id goes up by exactly one and no unit is added except the invoked one only because units invoked from inside a unit's run are a pure oracle, so the ids they take (unit.c:265-267) and the units they arm (unit.c:358-389) are not in the module state.
- IntUnit.InvocationIdsIncrease: the ids are consecutive only because units invoked from inside a unit's run are a pure oracle, so the ids they take (unit.c:265-267) and the units they arm (unit.c:358-389) are not in the module state.
- IntUnit.ProcessUnitAction: the next id is kept and no unit is added only because units invoked from inside a unit's run are a pure oracle, so the ids they take (unit.c:265-267) and the units they arm (unit.c:358-389) are not in the module state.
- IntUnit.Dispatch: the next id is kept and no unit is added only because units invoked from inside a unit's run are a pure oracle, so the ids they take (unit.c:265-267) and the units they arm (unit.c:358-389) are not in the module state.
- IntUnit.RunAction: the next id is kept and no unit is added only because units invoked from inside a unit's run are a pure oracle, so the ids they take (unit.c:265-267) and the units they arm (unit.c:358-389) are not in the module state.
- IntUnit.CompleteAction: the next id is kept and no unit is added only because units invoked from inside a unit's run are a pure oracle, so the ids they take (unit.c:265-267) and the units they arm (unit.c:358-389) are not in the module state.
- IntUnit.ProcessUnitActionFrame: "no active unit added" holds only because units invoked from inside a unit's run are a pure oracle, so the ids they take (unit.c:265-267) and the units they arm (unit.c:358-389) are not in the module state.
- IntUnit.DispatchFrame: "no active unit added" holds only because units invoked from inside a unit's run are a pure oracle, so the ids they take (unit.c:265-267) and the units they arm (unit.c:358-389) are not in the module state.
- IntUnit.RunActionFrame: "no active unit added" holds only because units invoked from inside a unit's run are a pure oracle, so the ids they take (unit.c:265-267) and the units they arm (unit.c:358-389) are not in the module state.
- IntUnit.CompleteActionFrame: "no active unit added" holds only because units invoked from inside a unit's run are a pure oracle, so the ids they take (unit.c:265-267) and the units they arm (unit.c:358-389) are not in the module state.
- IntModule.Walk: the kept next id and the bound on active units hold only because units invoked from inside a unit's run are a pure oracle, so the ids they take (unit.c:265-267) and the units they arm (unit.c:358-389) are not in the module state.
- IntModule.EventLoop: the kept next id holds only because units invoked from inside a unit's run are a pure oracle, so the ids they take (unit.c:265-267) and the units they arm (unit.c:358-389) are not in the module state.
- Pipe.ListenInit: there is no STOP counterpart, because a listen action's STOP and RUNNING requests do nothing in the C (pipe.c:239-240, 269-270); `bound` therefore stays set after the action has stopped, as the C's action pointer does.
- IntStatement.Settle: takes fuel. A loop with an empty body goes round forever in the C, and the model stops at the fuel bound with an undetermined result.
- IntStatement.ProcessStatement: its contract states only the shape of the state it leaves. What each kind of statement does is stated on the per-kind members and on IntStatement.ProcessStatementValid.
- IntUnit.RunBlock: a run that outlasts its tick script is undetermined rather than unbounded.
- IntModule.EventLoop: a module still running after the given number of rounds gives no result. The C would keep looping.
- IntModule.Walk: when one action of a batch stops its unit, later actions of that unit in the same batch refer to freed memory, and their processing is undetermined.
