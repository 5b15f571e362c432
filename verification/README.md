# Holy Rust, modelled and proved

Holy Rust is a bare-metal console whose lines are compiled in one pass and run
either as native code, made by a two-register generator, or on a threaded stack
interpreter. A registry of claimed peripherals decides which addresses a line
may touch. This project models that chain in Dafny, from the characters of a
line to the memory accesses on the bus, and proves what each part keeps and
where the two engines, the two access checks and the two targets part ways.

How the parts fit together:

- `Machine`, `Arithmetic`, `Target`: 32-bit words and the numbers they stand for, memory as the ordered trace of volatile
  accesses, registers. A read returns any function of the whole history, so
  every theorem holds for plain RAM and for devices alike, and equal traces mean
  equal final memory.
- `Exec`: the threaded engine, as a class over a fixed stack and as the function
  `Threaded`, with a strict variant that refuses to overflow or underflow.
- `Thumb`, `RiscV`: encoders, bounded emitters, and a decoder with step
  semantics for the instructions they emit. The decoders follow section A7.7 of
  the ARMv7-M Architecture Reference Manual, and chapter 2 and the M extension
  of the RISC-V Unprivileged ISA.
- `Native`, `Generator`, `Backend`, `RiscVBackend`, `Simulation`, `Program`: instruction
  selection, the generator loop over either target's emitter, the emitted code
  against its meaning, the two engines against each other. `Safety` settles when
  a function body does natively what it means.
- `Lexing`, `Grammar`, `Compiler`, `Symbols`, `Numerals`, `Spelling`, `Expressions`, `Values`, `Lines`,
  `Readings`, `Functions`: the
  front end. `Grammar` says what a line means over its tokens; the classes of
  `Compiler`, `Lexing` and `Symbols` do it step by step and are proved equal to it;
  `Expressions` and `Lines` give a meaning without tokens and prove that parsing
  the written-out text, in any of its spellings, arrives at it; `Readings` proves
  that nothing else is accepted.
- `Registry`, `Enforced`, `Audit`, `Tokens`: the capability layer.
- `Session`, `Accesses`, `Effects`, `Repl`, `Editor`, `Terminals`: whole sessions, from keys to
  memory.
- `Uart`: the number printers. `Ring`: the receive ring as interleaved accesses.

Where the code departs from its own comments and documents, the model follows
the code:

- A store leaves `acc_loaded` set (src/compiler/native.rs:131-135), so a poke
  that follows any peek, literal or poke to another address is stored through
  the wrong register. `Safety.RightIff` says exactly which function bodies are
  spared, and `Accesses.NativeStoresAdmittedIff` which ones still store only where
  the access check let them.
- Every program the parser builds is accepted by the generator, so the fallback
  to the threaded engine is never taken (`Program.RunIsNative`).
- The emitted SDIV is no instruction (`Thumb.EmittedDivideIsUndefined`).
- The access check does not protect the registry it consults, which lies in RAM
  that anyone may store to (`Accesses.RegistryIsInReach`).
- The emitted LUI carries its field eight bits too high, so on RISC-V only
  immediates of a signed 12-bit field load correctly (`RiscV.MovImmIsExactIff`),
  and a checked poke can land elsewhere (`Accesses.RiscVCallEscapes`).
- The parser's access check and the enforced operations differ on addresses
  outside every peripheral and outside RAM and flash
  (`Enforced.LayersAgree`); `MemError::PermissionDenied` is never returned.
- `cap_drop` on the console releases a bit whose token is still alive;
  `Tokens.OwnershipIsExclusiveIff` says exactly when two tokens result.
- A `peek` inside an expression reads memory while the line is parsed, unchecked
  (src/compiler/parser.rs:507-509); whatever follows the first `;` of a line is
  ignored.

## Model

| member | source | states |
|---|---|---|
| Simulation.EnginesAgreeIff | src/compiler/native.rs:76-143 | For every program of pokes, peeks, a leading literal and `ADD`/`SUB`/`MUL` steps, the generated code and the stack machine produce the same ordered accesses if and only if each poke after the first item finds its own address in the accumulator; when they agree, the accumulator ends as the top of the VM stack. |
| Simulation.EmittedCodeMeaning | src/compiler/native.rs:76-143 | Executing the emitted halfwords, from any registers and with any leftovers behind them, returns to the caller, makes the accesses of the accumulator machine, leaves its value in r0 and every register but r0 and r1 untouched. |
| Simulation.ThreadedMeaning | src/kernel/exec.rs:107-124 | A program of at most 128 words runs on the 64-slot threaded engine to its meaning: accesses in order, results on the stack. |
| Simulation.StrictMeaning | src/kernel/exec.rs:52-79 | With a stack of the program's own deepest point, no push is dropped and no pop finds the stack empty. |
| Simulation.SelectItems | src/compiler/native.rs:88-110 | The one-word lookahead sends each literal of a whole statement to the register that statement needs, given whether the accumulator is taken. |
| Simulation.MissDiffers | src/compiler/native.rs:131-135 | The first poke that misses its address makes the traces differ for good; nothing later hides it. |
| Backend.CodeRunsOps | src/compiler/emitter.rs:210-292 | The halfwords of any list of emitter requests without a divide do exactly those requests, then return. |
| Backend.OpExecutes | src/compiler/emitter.rs:230-272 | Each emitter request, encoded and decoded again, has the effect that was asked for. |
| Backend.OthersPreserved | src/compiler/native.rs:26-31 | Generated code writes no register but r0 and r1. |
| Thumb.MovImmIsExact | src/compiler/emitter.rs:210-228 | For all 2^32 immediates and every register except SP and PC, the emitted MOVS, MOVW or MOVW+MOVT leaves exactly the immediate in that register and changes nothing else. |
| Thumb.EmittedDivideIsUndefined | src/compiler/emitter.rs:152-157 | Whatever the registers, the emitted divide decodes to no instruction of the subset, SDIV included. |
| Thumb.KnownEncodings | src/compiler/emitter.rs:54-95 | Ten instructions are encoded to the halfwords an assembler writes. |
| Thumb.Thumb2Emitter.Push16 | src/compiler/emitter.rs:194-206 | A halfword is appended, or the buffer is full and nothing is written. |
| Thumb.Thumb2Emitter.EmitMovImm | src/compiler/emitter.rs:210-228 | The code of the immediate is appended, or the buffer ran full, or the register is refused. |
| RiscV.HiLoSplit | src/compiler/emitter.rs:341-348 | The upper twenty bits, put in place, and the sign-extended low twelve bits add up to the immediate modulo 2^32, the low part within [-2048, 2047]. |
| RiscV.AddiDecodes | src/compiler/emitter.rs:103-105 | The one-instruction path decodes back to the very immediate. |
| RiscV.KnownEncodings | src/compiler/emitter.rs:97-170 | Eight instructions are encoded to the words an assembler writes; the emitted LUI is not. |
| RiscV.MovImmIsExactIff | src/compiler/emitter.rs:340-354 | Executing the emitted code leaves the immediate in the register if and only if it fits a signed 12-bit field. |
| RiscV.CodeFits | src/compiler/emitter.rs:325-336 | At most 129 words for 128 stream words, within the 1024-byte buffer. |
| RiscV.Riscv32Emitter.EmitMovImm | src/compiler/emitter.rs:340-354 | The code of the immediate is appended, or the buffer ran full. |
| RiscV.Riscv32Emitter.EmitOp | src/compiler/emitter.rs:356-396 | The code of one generator request is appended, or the buffer ran full. |
| RiscVBackend.EmittedCodeMeaning | src/compiler/native.rs:76-143 | On RISC-V a program of the fragment returns, having done what the accumulator machine does on the immediates as they are really loaded. |
| RiscVBackend.ValuePrintsRightIff | src/compiler/parser.rs:553-557 | A bare expression yields its value on RISC-V if and only if the value fits a signed 12-bit field. |
| Safety.BodyRightIff | src/compiler/native.rs:76-143 | A function body makes the accesses its source asks for on RISC-V, for every device behaviour, if and only if all its addresses and values fit a signed 12-bit field and its pokes come first and go to one address. |
| Native.IsCompilable | src/compiler/native.rs:158-189 | The scanning loop, index past the end included, computes the acceptance predicate. |
| Native.SelectionFailsOnlyOnBareLit | src/compiler/native.rs:88-93 | An accepted stream defeats the generator if and only if it ends on a `LIT` without an argument. |
| Native.CodeFits | src/kernel/exec.rs:20-22 | The code of any selection from at most 128 words is at most 257 halfwords and fits the buffer. |
| Generator.EmitAll | src/compiler/native.rs:76-140 | The generator loop, over the emitter of either target, fails only where selection does, never for lack of room, and leaves the code of the selected requests in the buffer. |
| Generator.Compile | src/compiler/native.rs:53-143 | On either target code generation succeeds if and only if the stream is accepted and does not end on a bare `LIT`; the buffer then starts with its code and a return. |
| Program.Run | src/compiler/parser.rs:95-116 | Native first, then the threaded engine over the zero-filled array when the generator declines: on either target result and accesses are those of `RunProgram` with whatever the buffer held behind the code. |
| Program.RunIsNative | src/compiler/parser.rs:95-116 | On either target every program of the fragment runs natively, makes the accesses of the accumulator machine on the immediates as the target loads them, and yields its accumulator. |
| Program.RunAgreesIff | src/compiler/parser.rs:95-116 | On ARM, running a program does what the threaded engine would have done if and only if its pokes hit, and then the result is the top of the VM stack. |
| Safety.SafeIff | src/compiler/native.rs:102-110 | A body's pokes hit for every device behaviour if and only if they all come first and all go to one address. |
| Safety.PokeAfterPeekGoesAstray | src/compiler/native.rs:131-135 | On ARM `peek p; poke a v;` stores natively to whatever the peek read, and to `a` on the threaded engine. |
| Safety.RightIff | src/compiler/native.rs:76-143 | On either target the generated code of a body makes the accesses the body means, for every device behaviour, if and only if its pokes come first and go to one address and, on RISC-V, all its immediates fit a signed 12-bit field. |
| Safety.RiscVRunAgreesIff | src/compiler/parser.rs:95-116 | On RISC-V and one given bus, calling a body does what the threaded engine would have done if and only if its pokes hit and every immediate that shows up in an access fits a signed 12-bit field. |
| Safety.EarlyPokesStay | src/compiler/native.rs:102-110 | If no poke comes after a peek, every native store of a body goes to the first poke's address. |
| Safety.LatePokeStrays | src/compiler/native.rs:131-135 | A poke that a peek precedes is stored, where the devices always answer `c`, to `c`. |
| Program.ValueProgramRuns | src/compiler/parser.rs:553-557 | A value program touches no memory; on ARM it yields exactly the value it was built from, on RISC-V what the code for that value loads. |
| Program.BodyNeverStrainsStack | src/kernel/exec.rs:52-79 | Any function body of at most 32 words runs on eleven slots without a dropped push or an empty pop, and to its meaning. |
| Program.ElevenSlotsAreNeeded | src/compiler/parser.rs:21-29 | Nine peeks and a poke fill 32 words and get stuck on ten slots, so eleven is the least bound. |
| Accesses.BuiltNeverStrainsStack | src/compiler/parser.rs:553-581 | Every program the parser builds, the value programs and the call of any defined function, runs on eleven slots without a dropped push or an empty pop. |
| Accesses.CallsNeverOverflow | src/compiler/parser.rs:570-581 | A call succeeds if and only if a function of that name is defined, and never answers that the stream is full. |
| Exec.StrictIsThreaded | src/kernel/exec.rs:107-124 | A run that never strains a stack of at most 64 words is the run of the real engine. |
| Exec.Engine.RunThreadedStream | src/kernel/exec.rs:107-124 | The dispatch loop over the shared stack ends in the state of `Threaded`, and says when dispatch would leave the stream or call a word that is no primitive. |
| Exec.Engine.VmPush | src/kernel/exec.rs:52-64 | A push on a full stack is dropped and reported. |
| Exec.Engine.VmPop | src/kernel/exec.rs:71-79 | A pop of the empty stack yields 0 and leaves it empty. |
| Exec.Engine.DivPrim | src/compiler/primitives.rs:98-104 | Unsigned division of the second by the top, 0 when the top is 0. |
| Exec.Engine.WriteRegPrim | src/compiler/primitives.rs:49-55 | Stores the top to the address below it, in that order of popping. |
| Lexing.Lexer.NextToken | src/compiler/lexer.rs:63-110 | The streaming lexer returns the first token of the text ahead, advances past it exactly, and counts the line feeds it skipped. |
| Lexing.Lexer.ParseLiteral | src/compiler/lexer.rs:130-207 | A run of digits yields its underscore-stripped value when below 2^32 and an overflow error otherwise, consuming the same span in both cases; `0x` without digits is malformed. |
| Lexing.Lexer.Accumulate | src/compiler/lexer.rs:140-204 | The checked multiply-and-add loop overflows if and only if the whole run's value does, and always consumes the whole run. |
| Lexing.LexProgress | src/compiler/lexer.rs:63-110 | Every token but the end of input consumes a character, and the end of input comes exactly when only blanks are left. |
| Lexing.NumberMonotone | src/compiler/lexer.rs:153-168 | A run's value is at least that of any of its prefixes, which is why stopping at the first overflow is right. |
| Numerals.HexLiteral | src/compiler/lexer.rs:133-176 | `0x` or `0X` and any hexadecimal numeral of a number, with each digit from either of two tables by case, leading zeros and underscores anywhere, is the literal of that number, or an overflow error of the same length from 2^32 on. |
| Numerals.DecLiteral | src/compiler/lexer.rs:178-206 | The same for decimal numerals that start with a digit. |
| Numerals.BarePrefixIsMalformed | src/compiler/lexer.rs:172-174 | `0x` with no digit behind it is malformed and two characters long. |
| Numerals.LiteralIsNumeral | src/compiler/lexer.rs:130-207 | The converse: whatever is read as a literal is such a numeral of its value. |
| Spelling.MarkCharacters | src/compiler/lexer.rs:63-110 | What each character that starts neither a name nor a number is read as, by its code. |
| Compiler.Cur.Next | src/compiler/parser.rs:674-692 | The one-token cursor yields the next token of the line, peeked at or not. |
| Compiler.Compiler.ParseLine | src/compiler/parser.rs:212-232 | Parsing a line, with all its state changes, compile-time reads and errors, is the grammar's `Parse` of the tables, the registry and the line. |
| Compiler.Compiler.EvalExpr | src/compiler/parser.rs:444-500 | The expression loop over the cursor is the grammar's left-to-right fold, errors and accesses included. |
| Compiler.Compiler.ResolveTerm | src/compiler/parser.rs:503-517 | A literal, a bound name or a compile-time `peek`, as in the grammar. |
| Compiler.Compiler.CompileBody | src/compiler/parser.rs:263-269 | Body statements are compiled into the stream as they are read, up to the brace, and fail at the same token with the same error as the grammar. |
| Compiler.Compiler.SpliceCall | src/compiler/parser.rs:583-591 | A call appends the callee's stored words; it fails only on an unknown name or when they do not all fit the stream. |
| Compiler.Compiler.ParseFnLine | src/compiler/parser.rs:252-292 | A definition, from its header to the slot it is filed in, does to the tables and the bus what the grammar says of the tokens ahead, errors included. |
| Compiler.Compiler.ParseAccessLine | src/compiler/parser.rs:344-390 | `peek`, `poke`, `reg_set_bit` and `reg_clr_bit` parse their operands as the grammar says and become outcomes only past the access check. |
| Expressions.TextEvaluates | src/compiler/parser.rs:426-517 | Lexing and folding any text of any expression tree, however its literals are spelled and with blanks only where neighbouring words would run together, gives the tree's left-associative wrapping value, or its fault, and leaves exactly the tokens behind it. |
| Values.TextIsNumeric | src/compiler/parser.rs:444-500 | The text of an expression without `peek` evaluates to the number that integer arithmetic modulo 2^32 gives from left to right, or fails with `DivByZero` or `UnknownSymbol` exactly where that arithmetic meets a zero divisor or an unbound name first. |
| Values.OperatorsAreNumeric | src/compiler/parser.rs:471-493 | Each operator, by its character, computes on words what it computes on their numbers; no result exactly on a zero divisor. |
| Values.PrimitivesAreNumeric | src/compiler/primitives.rs:61-104 | So do the arithmetic primitives, where division by zero yields zero. |
| Arithmetic.MulIsModular | src/compiler/primitives.rs:85-90 | The product of two words is the product of their numbers modulo 2^32. |
| Arithmetic.AddIsModular | src/compiler/primitives.rs:61-66 | The same for sums. |
| Arithmetic.SubIsModular | src/compiler/primitives.rs:73-78 | The same for differences. |
| Arithmetic.DivIsInteger | src/compiler/primitives.rs:98-104 | The quotient is that of the numbers, and zero on a zero divisor. |
| Arithmetic.ModIsInteger | src/compiler/parser.rs:487-492 | The remainder is that of the numbers. |
| Expressions.StopsAfterTree | src/compiler/parser.rs:444-500 | Whatever follows the tree and is no arithmetic operator stays unread. |
| Expressions.TreeParses | src/compiler/parser.rs:444-500 | On tokens: the parser computes the tree's meaning and carries on with what follows. |
| Spelling.SpellLexes | src/compiler/lexer.rs:63-207 | Lexing undoes writing tokens out, in any spelling, with blanks only where needed, and whatever text follows. |
| Spelling.WordReads | src/compiler/lexer.rs:112-207 | A word is still read as its token with more text behind it if and only if that text cannot continue it: no name character behind a name, no digit behind a number, no `x` behind a lone `0`. |
| Spelling.PrintsAreWords | src/drivers/uart.rs:124-149 | Both prints of a number are spellings of its literal. |
| Expressions.ExpressionLine | src/compiler/parser.rs:212-232 | A line with an expression that starts with a number, a parenthesis or a name that is no command, closed by `;` or by its end, becomes a program printing the tree's value, or the tree's error, and leaves the tables alone. |
| Lines.LineRoundTrip | src/compiler/parser.rs:212-421 | A line of any kind, written out from its parts in any spelling and spacing, closed by its end or by `;` with any text behind it, is parsed to what the parts mean without tokens: the same outcome or error, the same tables, the same compile-time accesses. |
| Lines.EveryLineHasText | src/compiler/parser.rs:212-421 | Every line of parts can be written. |
| Readings.AcceptedLineIsWritten | src/compiler/parser.rs:212-421 | The converse: the tokens of any accepted line are those of one of these lines, with something behind it that may follow, and the line was parsed to what its parts mean. |
| Effects.CallLineRuns | src/compiler/parser.rs:570-581 | A line `NAME()` yields no value and changes nothing but the traffic: on the threaded engine by the accesses of the function's statements with calls run as calls, natively by those of the generated code on the immediates as the target loads them. |
| Effects.UnknownCallFails | src/compiler/parser.rs:570-572 | A call of a name nobody defined fails and changes nothing. |
| Effects.ShowLineYields | src/compiler/parser.rs:553-558 | An expression line yields its value, as far as the target can load it, and changes nothing but the traffic of its own compile-time reads. |
| Effects.LetLineBinds | src/compiler/parser.rs:236-250 | `let` is accepted exactly if the name has at most 16 characters, the expression has a value, and the name is bound or fewer than 32 are; it then binds that name to that value and changes nothing else. |
| Effects.DefineLineDefines | src/compiler/parser.rs:252-292 | `fn` is accepted exactly if the name has at most 16 characters, all statements compile to at most 32 words, one of the two slots is free and no taken one has that name; it then fills the first free slot and changes nothing else. |
| Effects.PokeLineStores | src/drivers/repl.rs:195-201 | `poke` is accepted exactly if the address is in memory or opened by a claim; its last access is then the store, logged exactly while SUPERUSER is claimed. |
| Effects.PeekLineReads | src/drivers/repl.rs:202-211 | `peek` is accepted on the same condition, and its last access is then the read. |
| Effects.BitLineChanges | src/drivers/repl.rs:212-232 | `reg_set_bit` and `reg_clr_bit` are accepted on the same condition; they read the address and store back a word that differs in the named bit at most, counted modulo 32. |
| Lines.LineCloses | src/compiler/parser.rs:659-672 | The end of the text, or a `;` with anything at all behind it, may follow a line of any kind, and any word may stand directly before it. |
| Lines.CompileTimePeekIsUnchecked | src/compiler/parser.rs:503-517 | `let NAME = peek ADDR` reads the address while the line is parsed, whatever the registry says of it. |
| Lines.BodyParses | src/compiler/parser.rs:295-342 | The statements of a body are folded, checked and compiled one after the other, and the first fault among them stops the definition with its error. |
| Lines.DefinedTextRuns | src/compiler/parser.rs:252-292 | A definition accepted from its text leaves in the first free slot a function that, whenever it runs on the threaded engine, makes exactly the accesses of its folded statements with calls run as calls. |
| Symbols.SymbolTable.InsertSymbol | src/compiler/parser.rs:620-637 | Linear probing stores the binding into the finite map, and fails if and only if 32 other names are bound. |
| Symbols.SymbolTable.LookupSymbol | src/compiler/parser.rs:605-618 | Linear probing finds what the finite map holds. |
| Symbols.ProbeMissed | src/compiler/parser.rs:605-618 | A probe sequence that met no match and ended on a free slot or went all the way round missed nothing. |
| Symbols.StoreKeepsTable | src/compiler/parser.rs:620-637 | Storing where a probe ends keeps names unique and every slot between a name's hash and its place in use, and updates the map at that name only. |
| Symbols.BindingsCount | src/compiler/parser.rs:620-637 | The map holds at most as many names as there are slots, and exactly as many when every slot is used. |
| Functions.StoredBodyMeansSource | src/compiler/parser.rs:570-591 | Running a stored body with `HALT` on the threaded engine makes exactly the accesses of an interpreter over its source statements, nested calls run as calls. |
| Functions.InlineKeepsMeaning | src/compiler/parser.rs:583-591 | Replacing calls by the callee's accesses changes no access. |
| Functions.InlineStable | src/compiler/parser.rs:583-591 | What a function means depends on the slots before it only. |
| Functions.EmittedFaithful | src/compiler/parser.rs:295-342 | Compiling one more statement leaves the stream equal to the code of the inlined statements read so far. |
| Functions.DefineKeepsInv | src/compiler/parser.rs:639-648 | Filing a body keeps taken slots a prefix, names distinct, bodies at most 32 words of whole poke and peek blocks, and all earlier functions as they were. |
| Session.SessionKeepsInv | src/compiler/parser.rs:270-291 | After any sequence of lines that invariant holds, and no function defined earlier has changed. |
| Session.FeedKeepsInv | src/drivers/repl.rs:142-150 | One line keeps the invariant and every earlier function. |
| Session.ParseChangesLittle | src/compiler/parser.rs:212-292 | A failed line changes no table; a successful one changes one symbol, or one free function slot, or nothing. |
| Session.TokensNamed | src/compiler/lexer.rs:112-128 | No identifier is empty, so the empty name can mark a free slot. |
| Accesses.ParseReads | src/compiler/parser.rs:503-517 | Parsing a line writes nothing, whatever the line holds. |
| Accesses.ParseAdmitted | src/compiler/parser.rs:344-390 | What a parsed line asks for is admitted by the current registry, or is the program of one value or of the very function the line names. |
| Accesses.CallTouchesAdmitted | src/compiler/parser.rs:298-317 | On the threaded engine a function touches only addresses admitted on its own line or on the line of a function spliced into it, directly or through others. |
| Accesses.FeedAccesses | src/drivers/repl.rs:171-235 | Each access a line adds is a compile-time read, or is justified by what the line asked for: for a top-level statement its own address, admitted at that moment, on both engines; for a call an address admitted on the called function's or a spliced callee's line. Exempt is only an access of a called function's native code of a kind, read or store, that the function does not keep to the check. |
| Accesses.SessionAccesses | src/drivers/repl.rs:142-235 | Every access of a session was made by one of its lines, between the traffic before and after that line, and that line was entitled to it in the sense above, judged by the registry and the functions at that line, or is exempt in the sense above. |
| Accesses.DisciplinedSessionAccesses | src/drivers/repl.rs:142-235 | On the threaded engine no access of a session is exempt; nor is any with native code, on either target, if every function the session defined meets the conditions of `Accesses.NativeStoresAdmittedIff` and `Accesses.NativeReadsAdmittedIff`. |
| Accesses.RegistryIsInReach | src/capabilities/registry.rs:1-10 | With nothing claimed, both checks let a store through to each of the eight words of the registry itself. |
| Accesses.CallAgreesIff | src/compiler/parser.rs:95-116 | For a function of a session, on either target, the engines agree for every device behaviour if and only if its inlined body is right for the target. |
| Accesses.RightSessionAgrees | src/compiler/parser.rs:95-116 | A whole session whose functions are all right for the target does with native code, state by state and access by access, what it does on the threaded engine, on either target. |
| Accesses.NativeStoresAdmittedIff | src/compiler/native.rs:102-135 | For a defined function: every native store of a call is, for every device behaviour, at an address its line or a spliced callee's line admitted, if and only if its inlined pokes all precede its peeks (and on RISC-V the first poke's address loads to an admitted one), or one of those lines was parsed under the superuser capability. |
| Accesses.NativeReadsAdmittedIff | src/compiler/native.rs:98-130 | For a defined function on either target, whatever the devices answer: every native read of a call is at an address its line or a spliced callee's line admitted, if and only if the addresses of its peeks, as the target loads them, were all admitted. |
| Accesses.ArmPeeksAdmitted | src/compiler/parser.rs:318-333 | On ARM that condition holds of every defined function. |
| Accesses.NativeCallEscapes | src/compiler/native.rs:131-135 | On ARM a defined function that peeks and then pokes stores natively to whatever the peek returned, checked or not. |
| Accesses.RiscVCallEscapes | src/compiler/emitter.rs:97-99 | On RISC-V a function with the single statement `poke 0x80000000 1;` passes the check with nothing claimed and stores to address 0, which the check refuses. |
| Accesses.EnforcedStoreHappens | src/kernel/memory.rs:86-104 | An enforced store that parsed always goes through, as the last access of its line, and is logged if and only if the superuser capability is held. |
| Accesses.AuditIsPrivilegedStores | src/capabilities/audit.rs:44-53 | Over any session the audit history is exactly the list of enforced stores made under the superuser capability. |
| Registry.StepFrame | src/capabilities/registry.rs:141-184 | An acquire or release decides its own bit and leaves the other 255 alone. |
| Registry.CapabilityRegistry.Acquire | src/capabilities/registry.rs:163-174 | One atomic or adds the id to the set of claims and is won if and only if it was not there. |
| Registry.CapabilityRegistry.Release | src/capabilities/registry.rs:178-184 | One atomic and removes the id from the set of claims. |
| Registry.CapabilityRegistry.Check | src/capabilities/registry.rs:94-116 | The access decision read from the bitfield is the one stated over the set of claims. |
| Effects.AccessByName | src/capabilities/registry.rs:60-116 | An address is allowed if and only if it is in memory or some claimed resource opens it: SUPERUSER any address, a peripheral its own block, with names, numbers and blocks given in tables. |
| Effects.ClaimThenPoke | src/drivers/repl.rs:244-263 | With nothing claimed, `cap_claim NAME` makes a `poke` acceptable exactly in the block of that name and in memory; for SUPERUSER anywhere. |
| Effects.OwnRegistersInBlocks | src/capabilities/tokens.rs:139-144 | The registers that the kernel's own drivers use lie in the blocks of their names. |
| Effects.ResolvedByTable | src/capabilities/tokens.rs:236-248 | Names and resource numbers are those of the table. |
| Effects.ClaimsFollowLines | src/drivers/repl.rs:244-282 | Over any session a resource is claimed exactly if the last line that names it in a claim or drop, as the text of the line shows, is a claim. |
| Effects.OtherLinesClaimNothing | src/drivers/repl.rs:171-235 | Every line that is not such a claim or drop leaves all claims as they were. |
| Tokens.BitfieldIsSet | src/capabilities/registry.rs:163-184 | After any interleaving of atomic claims and releases the bitfield is the set of claimed ids. |
| Tokens.OwnershipIsExclusive | src/capabilities/tokens.rs:48-63 | While only `claim` and `drop_cap` are used, a resource has one live token if its bit is set and none otherwise. |
| Tokens.TokensAloneAreExclusive | src/capabilities/tokens.rs:48-63 | So from power-on: as long as the console keeps out of it, a bit is set exactly while one token is alive. |
| Tokens.OwnershipIsExclusiveIff | src/capabilities/tokens.rs:48-63 | From power-on, with console commands mixed in, no resource ever has two live tokens if and only if no console drop of a resource whose token is alive is followed by a claim of it before the token is dropped or the console claims it back. |
| Tokens.OnConsoleIff | src/capabilities/tokens.rs:236-248 | The console has names for exactly the resources 0 to 6 and 31. |
| Tokens.ConsoleDropBreaksOwnership | src/drivers/repl.rs:265-282 | For each resource the console can name, a console drop between two claims leaves two live tokens. |
| Enforced.LayersAgree | src/capabilities/registry.rs:94-122 | Whatever the parser's check grants, the enforced operation performs; the converse fails exactly on unmapped addresses outside RAM and flash without the superuser capability. |
| Enforced.LayersDifferAtZero | src/kernel/memory.rs:86-104 | The difference is not empty: address 0. |
| Enforced.EnforcedPokeU32 | src/kernel/memory.rs:86-104 | Stores and logs, or refuses and changes nothing, by the claims on the address. |
| Enforced.EnforcedPeekU32 | src/kernel/memory.rs:109-120 | Reads, or refuses and changes nothing, by the claims on the address. |
| Machine.BitFrame | src/kernel/memory.rs:64-73 | Setting or clearing a bit decides that bit and leaves the other 31 as they were. |
| Machine.BitsByShift | src/kernel/memory.rs:64-73 | In terms of shifts: after setting or clearing bit `b`, shifting down by `b` shows 1 or 0, and every other bit is as it was. |
| Machine.Memory.RegSetBit | src/kernel/memory.rs:64-67 | One read, then one write of the word read with the bit set. |
| Machine.Memory.RegClrBit | src/kernel/memory.rs:70-73 | One read, then one write of the word read with the bit cleared. |
| Audit.AuditLog.RecordEvent | src/capabilities/audit.rs:44-53 | The event joins the history and the ring holds what the history says. |
| Audit.RingHoldsRecent | src/capabilities/audit.rs:44-53 | Each of the last sixteen events is in the ring at its index modulo sixteen. |
| Audit.RingBlankAhead | src/capabilities/audit.rs:31-42 | Slots not yet reached are still blank. |
| Audit.AuditLog.TotalAudits | src/capabilities/audit.rs:56-58 | The total is the number of events, saturating at the largest word. |
| Uart.Transmitter.WriteDecU32 | src/drivers/uart.rs:134-149 | Sends the decimal digits of the value; the ten-byte scratch is never overrun. |
| Uart.Transmitter.WriteHexU32 | src/drivers/uart.rs:124-131 | Sends `0x` and the eight hexadecimal digits of the value. |
| Uart.DecimalLexes | src/compiler/lexer.rs:178-206 | Lexing the decimal print of any 32-bit value, before any break, gives that literal and consumes exactly the print. |
| Uart.HexadecimalLexes | src/compiler/lexer.rs:133-176 | The same for the hexadecimal print. |
| Uart.PrintedNumbersLexBack | src/drivers/uart.rs:124-149 | Either print on its own lexes to the single literal, all input consumed. |
| Numerals.PrintsAreUpperCase | src/drivers/uart.rs:126-130 | The hexadecimal print uses the upper-case digits. |
| Ring.StepRefinesFifo | src/drivers/uart.rs:165-194 | Each single access of producer or consumer keeps the ring invariant and is a step of a FIFO queue of capacity 255. |
| Ring.RingIsFifo | src/drivers/uart.rs:165-194 | After any interleaving the delivered bytes are a prefix of the arrived bytes without the lost ones, in order, none duplicated, at most 255 waiting. |
| Ring.LostOnlyWhenFull | src/drivers/uart.rs:165-179 | A byte is lost only at an access that found 255 bytes waiting. |
| Ring.EmptyReportsAreTrue | src/drivers/uart.rs:182-188 | Along any run the reader reports an empty ring if and only if no byte was waiting as it compared. |
| Ring.RxRing.IrqHandler | src/drivers/uart.rs:165-179 | Run to completion: the byte joins the queue unless 255 are waiting. |
| Ring.RxRing.RingPop | src/drivers/uart.rs:182-194 | Run to completion: the oldest byte leaves the queue, or there is none. |
| Repl.Console.EvalLine | src/drivers/repl.rs:142-150 | On either target the running console, its compiler, registry, log, engine and buffer updated in place, goes through exactly the states of `Session.Feed` and keeps the session invariant. |
| Repl.Console.ExecuteOutcome | src/drivers/repl.rs:171-235 | Each outcome changes claims, log and memory as stated for it, and nothing else; programs run as the target's code. |
| Repl.BuiltProgramsReturn | src/compiler/parser.rs:95-116 | A program the parser built always comes back, on either target: no undefined instruction, no running off the end. |
| Editor.LineEditor.Feed | src/drivers/repl.rs:78-122 | One key changes the 128-character buffer, the echo and the console's phase as stated for it. |
| Editor.ScreenShowsLine | src/drivers/repl.rs:78-122 | Whatever is typed, a terminal fed with the output shows the prompt and the line being edited left of the cursor, and nothing right of it. |
| Editor.TypedLinesArrive | src/drivers/repl.rs:78-139 | Printable lines of at most 128 characters are handed in exactly as typed. |
| Editor.TypingFills | src/drivers/repl.rs:110-119 | Of a longer run the first 128 characters are kept. |
| Editor.BackspacesUndo | src/drivers/repl.rs:85-93 | As many backspaces as characters undo any typing that fitted. |
| Editor.KillKeysEmptyLine | src/drivers/repl.rs:94-109 | Ctrl-U and Ctrl-C throw the line away and hand nothing in. |
| Editor.EndKeysHandIn | src/drivers/repl.rs:81-84 | Carriage return and line feed both hand the line in. |
| Editor.TabTypesBlank | src/drivers/repl.rs:79 | A tab does what a blank does. |
| Editor.OtherKeysAreIgnored | src/drivers/repl.rs:120 | Any other control or non-ASCII key changes nothing. |
| Editor.LinesAreWellTyped | src/drivers/repl.rs:78-122 | Whatever is pressed, only printable lines of at most 128 characters are handed in. |
| Terminals.Terminal.Serve | src/drivers/repl.rs:39-71 | The polling loop feeds the session the lines that the keys spell, one by one, and sends exactly echoes, reports and prompts. |
| Terminals.Terminal.Start | src/drivers/repl.rs:35-71 | From start-up on: what the receiver holds up to its first empty poll is discarded, with no prompt before that, and then the loop takes over. |

## Left out

- Boot, linker scripts, `build.rs`, vector relocation, barriers, the panic handler and `init_data_bss`.
- UART register access: received bytes are an input sequence and sent bytes an output string, so the transmitter's own bus traffic is not part of the memory trace.
- The cycle counter and the registers at the jump into the buffer: arbitrary inputs of each line.
- What the console prints about a line (`print_help`, `error_text`, `handle_audit`, `write_value`): an arbitrary report text per line; `Editor.ScreenShowsLine` asks that it is empty or ends its row, as all texts of the source do.
- The carrying out of an outcome happens, in the loop model, with its compilation instead of one phase later; nothing can come in between.
- Native division: the parser emits none; the Thumb-2 one is shown undefined, and the RISC-V model stops at a DIV.
- SW and LW with a non-zero offset: only offset 0 is emitted.
- `emit_mov_ret`, `execute_sram_buffer`, `vm_depth` and `bytes_written`: not used on the modelled paths.
- Processor flags: no emitted instruction reads them.
- A store, by a program or by a top-level statement, that lands on the kernel's own storage: the words of the registry, the audit log, the VM stack, the stream, the code buffer or the compiler's tables. Memory on the bus and that storage are apart in the model, so only `cap_claim` and `cap_drop` change the claims. The check does not forbid such stores (`Accesses.RegistryIsInReach`); in the source one to the registry's words changes the claims, and what a session does after that the session results do not describe.
- Division of words is defined by counting how often the divisor fits; the source divides in one instruction.
- Opcodes are fixed distinct non-zero words instead of function addresses; a `usize` is 32 bits.
- Names are strings with the 16-character limit checked, not 16-byte arrays; text is characters, not bytes.
- A function slot holds its body as a sequence; the source has a 32-word array with a length.
- `reg_set_bit` and `reg_clr_bit` with a bit number of 32 or more: counted modulo 32, as a release build shifts; a debug build would panic. `Memory.RegSetBit` and `Memory.RegClrBit` ask for a bit below 32.
- `ParseError::UnsupportedOperator` and `Outcome::Empty`: never produced by the source.
- `steal`, `grant_superuser` and its counter, `PinGuard` and the embedded-hal implementations, `crates/hros-hal`: thin wrappers or signatures without a body.
- The depth of the parser's recursion: unbounded here, bounded by the machine stack there.
