# A verified model of the VCSC assembler's back end

This project models the back end of the 6502 assembler and the archiver that belongs to it, and proves what they
promise: how statements get addresses, how long branches and absolute operands shrink, how bytes come out, how a
relocatable component chooses the residue at which it must be linked, how object files record relocations, and how
the Intel HEX and archive printers can be read back. `dafny verify dfyconfig.toml` checks everything.

## How the model is laid out

The assembler's passes update one context in place: statements, segments, symbols, errors. `Assembler.dfy` has that
context as a class whose methods loop and assign as the program does. Each method is proved equal to a function of
the context before it; those functions are the specifications the theorems are about.

| part | files |
|---|---|
| numbers, bits, bytes | `Support.dfy` |
| expressions, symbol keys, evaluation; what each operator computes | `Expressions.dfy`, `Operators.dfy` |
| names: visibility, families, mnemonics | `Names.dfy` |
| opcode table and branch inversion | `Opcodes.dfy` |
| statements, segments, alignment, displacements | `Program.dfy` |
| pass 1: layout, symbols, conditionals, equates; what directives do | `Layout.dfy`, `Directives.dfy` |
| pass 2: bytes and image; what bytes mean | `Emission.dfy`, `Encoding.dfy` |
| the passes as they run | `Assembler.dfy` |
| the two walks agree; where bytes end up; labels | `Agreement.dfy`, `Tiling.dfy`, `Labels.dfy` |
| equates; conditional blocks; repeat blocks | `Equates.dfy`, `Conditionals.dfy`, `Nesting.dfy`, `Repeat.dfy` |
| relaxation: definition, safety, whole runs, least fixpoint | `Relaxation.dfy`, `NonInterference.dfy`, `RelaxSafety.dfy`, `RelaxRun.dfy`, `RelaxFixpoint.dfy` |
| the relaxer's stopping test; addresses of shortened operands; page checks of flat assemblies | `RelaxSignature.dfy`, `Addressing.dfy`, `PageSpecs.dfy` |
| running the emitted bytes | `Machine.dfy` |
| final-link residues | `PhaseScore.dfy`, `PhaseChoice.dfy`, `PhaseSound.dfy`, `PhaseExact.dfy` |
| zero-page classification | `ZpClass.dfy`, `ZpRule.dfy` |
| object files: packing, relocation, relocation table | `Packing.dfy`, `Relocation.dfy`, `RelocTypes.dfy`, `RelocStream.dfy` |
| Intel HEX | `HexFormat.dfy`, `IntelHex.dfy` |
| archives | `Archive.dfy` |
| programs that meet the premises | `Tiny.dfy`, `TinyPhase.dfy` |
| programs that show why they are needed | `TinyReads.dfy`, `TinyOrigin.dfy`, `TinyOverlap.dfy`, `TinySignature.dfy` |

## What the theorems assume, and why

- Relaxation: any number of segments with fixed bases, in flat and object mode; no `.rorg`, no `.align` in object mode, and
  control directives, origins, alignments and reserved sizes that do not look at the layout (`Packed`; the parameter `d` names
  the entries they may read). Branches name labels of their own segment at most 0xFF7E bytes away, with no `.org` or `.align`
  in between (`NearBranch`); both limits are those of the code. Operands are bare labels: `*` in a branch means a different
  address in the range test and in the long form's `JMP`.
- Runs are free of errors (`Quiet`): an error count that does not move over the passes considered.
- Bytes and layout: an error-free assembly whose layout has settled, in which the names in `.res`, `.align`, `.set` and
  equates denote the same entries when pass 1 meets them as at its end, and no equate reads a `.set` variable (`Clean`);
  statements without such operands need none of this. Where places are claimed segments lie apart and no `.org` steps back
  (`GoodFlat`); what the image holds is described without either (`Tiling.ImageIsLastWritten`). Decoded text fits the emitter's 256-byte buffer; longer text is outside what C defines and counts as an error in the model.
- The simulation treats everything but branches and `JMP` as an uninterpreted effect on the processor state. It assumes the
  opcode table has the standard branch and `JMP` bytes (`Describes`) and bytes with one form each. `BRK`, `JSR`, `RTI`, `RTS` and indirect `JMP` end it.
  It needs an error-free flat assembly in which no statement overwrites another's bytes with different ones (`Runnable`).
  The instructions of the segments a run visits lie below 64 KiB, and those segments set no logical origin (`Plain`); a run
  passes no data and no origin of its segment except by a jump.
- Residues: relocatable segments start at zero, hold no `.org` or `.rorg`, and align by plain numbers. The scorer finds a
  branch target by spelling; the page theorems ask that no earlier active statement of the segment carries that spelling
  (`FoundBySpelling`), and the selection theorem that no residue in question makes the next pass fail (`QuietResidues`).
- Relocation: `<` or `>` only outermost over a relocatable operand, and `*` only added and subtracted. Where the code accepts
  more, the exact condition under which it is right is proved. Equates are stored as absolute, so an equate over a label is not moved.
- Segment bases and capacities are the same in every pass. `gather_segment_defs` evaluates `.segmentdef` again in each flat pass
  (assembler/asm_pass.c:1381, asm_state.c:844-905), so a base written as `CODE_END`, as in assembler/tests/segment.s26:3, can move
  between passes; such programs are covered only from the pass on from which their bases repeat.
- Repeat blocks: counts that no body can influence, and no name assigned by `.set` and by `=` or `?=` alike.
- Machine integers in expressions are mathematical, except where the source masks; shifts are limited to 64 bits.

## Findings

- The relaxer never makes a branch long again (assembler/asm_pass.c:2086-2099). With `.org` between a branch and its target,
  code that shrinks in front of the branch pulls it out of range after it was shortened, and pass 2 refuses the program
  (`TinyOrigin.OriginBreaksRange`); without an origin or alignment in between that cannot happen (`RelaxRun.ShrinkingIsSafe`).
- Shortening an indexed operand is not always neutral (assembler/asm_pass.c:1720-1757): `tbl,X` with `tbl` in page zero uses
  another address once operand plus register reaches 256, and exactly then (`Addressing.ShorteningKeepsAddress`).
- Displacements wrap modulo 2^16 (assembler/asm_pass.c:265-272), so shrinking can also break a branch that fits by wrapping:
  in spans of at most 0xFF7E bytes never, in longer ones it can (`RelaxSafety.SpanExact`).
- The relaxer's stopping test (assembler/asm_pass.c:2060-2084) sees every change of one segment's size and can miss changes of
  two (`RelaxSignature.SignatureExact`); a relocatable program with two segments of one byte makes it stop after its first
  pass although the next one changes a size (`TinySignature.ChangeMissed`). Where no size looks at the layout the miss is
  harmless (`RelaxFixpoint.ConvergedIsSettled`).
- `.res CODE_BASE` followed by `CODE_BASE = 5` in one file, or `.res n` with `n = v` over a `.set` variable that changes later,
  is sized differently in pass 1 (assembler/asm_pass.c:1670-1690) and pass 2 (assembler/asm_pass.c:2456-2480), without an error
  (`TinyReads.HiddenNameDiffers`, `TinyReads.VariableDiffers`); the exact condition is `Agreement.ResExact`.
- `.org` may step back over bytes already placed; pass 2 then overwrites them without an error (assembler/asm_pass.c:1555-1580,
  assembler/ihex.c:25-45, `TinyOverlap.OverlapExact`); when nothing is lost is `Tiling.IntactExact`.
- `.word >x` (assembler/o26.c:1005-1047) and `>x + n` (assembler/o26.c:921-935) over relocatable `x` are accepted and can come
  out one off (`Relocation.HighWordExact`, `Relocation.InnerPartExact`).
- `*` in a relocatable operand is recorded as the number it is at assembly time (assembler/o26.c:816-818), so it does not move
  with the code (`Relocation.PcStaysBehind`).
- A stored archive name that starts with NUL reads as empty; appending and replacing copy it with length zero
  (archiver/vcsc_ar.c:398-411), and the result can no longer be read (`Archive.NulNameLost`, `Archive.AppendExact`,
  `Archive.ReplaceExact`).
- A relocation table with offsets out of order, or equal, does not read back (assembler/o26.c:2072-2094, `RelocStream.RoundTripExact`).
- Page contracts under a modulus that is no multiple of 256 need not hold at another base with the same residue
  (assembler/asm_pass.c:1900-1909, `PhaseChoice.PageModulus`).
- `<label + 1` counts as absolute for zero-page shortening (assembler/asm_pass.c:437-450) and can leave page zero
  (`ZpClass.PartPlusConstantExact`).
- A count inside a block repeated zero times must evaluate although it is never used (assembler/ir.c:582-646,
  `Repeat.ExpansionIsUnrolling`).

## Model

| member | source | states |
|---|---|---|
| `Assembler.AsmContext.Pass1` | assembler/asm_pass.c:1387-1710 | The in-place walk (reset, publish, every statement, equates) leaves exactly the context the specification of a layout pass gives, for segments whose definitions keep their values; all layout theorems stand on it. |
| `Assembler.AsmContext.ProcessStatement` | assembler/asm_pass.c:1387-1692 | One turn of the walk: addresses, activity, label and procedure names, constants and program-counter motion, statement fields and context fields together. |
| `Assembler.AsmContext.ProcessConditional` | assembler/asm_pass.c:879-1000 | The frame stack and the error count after any conditional directive, malformed ones included. |
| `Assembler.AsmContext.ProcessConst` | assembler/asm_pass.c:1245-1303 | `=`, `?=` and `.set` at their statement: which entry is declared, valued or refused, and the `applied` mark. |
| `Assembler.AsmContext.DeclareName` | assembler/asm_state.c:921-945 | A label is entered once at the current address; a second declaration only counts an error. |
| `Assembler.AsmContext.DeclareNames` | assembler/asm_pass.c:1412-1439 | Label first, procedure name second, both at the address in front of the statement. |
| `Assembler.AsmContext.PublishSegments` | assembler/asm_state.c:823-841 | `_BASE`, `_SIZE`, `_END` and `_CAPACITY` of every listed segment, later segments winning. |
| `Assembler.AsmContext.ResolveConstants` | assembler/asm_pass.c:1306-1354 | At most 64 in-place sweeps with early exit give the table of the sweep specification; unresolved equates are counted, late ones land in the statement's address. |
| `Assembler.AsmContext.SweepOnce` | assembler/asm_pass.c:1312-1338 | One sweep in source order; a sweep that reports no change made none. |
| `Assembler.AsmContext.RelaxInstructions` | assembler/asm_pass.c:2086-2128 | The shrinking loop: every instruction gets the form the rule gives it, and the flag tells exactly whether some form changed. |
| `Assembler.AsmContext.RelaxForms` | assembler/asm_pass.c:2043-2143 | The relaxation loop with its cap of 50 and its two-part stopping test, and the page check behind it, compute their specifications and say whether the loop stopped by itself. |
| `Assembler.AsmContext.ValidatePageSpecs` | assembler/asm_pass.c:1997-2041 | One error for every statement whose page annotation fails, in place, and nothing else. |
| `Assembler.AsmContext.SearchPhases` | assembler/asm_pass.c:1964-1977 | The residue loop of one segment returns the complete and optimal answer of `PhaseChoice.BestPhase`. |
| `Assembler.AsmContext.SelectRelocPhases` | assembler/asm_pass.c:1918-1994 | All segments in order, the first failure stopping with one error and no new pass; otherwise a new pass, and a positive result exactly when a residue changed. |
| `Assembler.AsmContext.WriteBytes` | assembler/asm_pass.c:2146-2165 | Bytes go to consecutive addresses up to the first one outside the image. |
| `Assembler.AsmContext.EmitSet` | assembler/asm_pass.c:2182-2204 | A `.set` replayed during emission. |
| `Assembler.AsmContext.Pass2` | assembler/asm_pass.c:2793-2830 | The emission walk over a fresh image object leaves exactly the specified image, table and error count. |
| `Assembler.AsmContext.AssembleFlat` | assembler/vcsc_as.c:871-924 | A dump is written exactly when relaxation, page check, last layout and emission are free of errors, and loading it gives back the emitted image. |
| `Assembler.IterationExact` | assembler/asm_pass.c:2052-2139 | What the stopping test of the relaxer sees: size signature or some changed form, and nothing else. |
| `Assembler.SweepsStep` | assembler/asm_pass.c:1312-1342 | Sweeping on after a sweep without effect is harmless, so early exit and full 64 sweeps agree. |
| `Expressions.ReadingMoves` | assembler/expr.c:331-355 | New entries change what an identifier denotes exactly when one of them is a private entry of its own name and file. |
| `Expressions.TruncationExact` | assembler/expr.c:383-573 | Division and remainder as C has them: they make up the dividend, the remainder is smaller than the divisor and signed like the dividend. |
| `Expressions.EvalAgrees` | assembler/expr.c:383-573 | Evaluation depends on no entry the expression cannot mention. |
| `Expressions.EvalKept` | assembler/expr.c:383-573 | A value once computed stays while the entries it was read from are still the ones its names denote and keep their values. |
| `Expressions.UnshadowedReads` | assembler/expr.c:331-355 | An expression none of whose names is both file-private and global reads the same entries whatever is added. |
| `Expressions.EvalMentions` | assembler/expr.c:383-573 | Only the values of the mentioned entries matter. |
| `Opcodes.LoadedLineIsFound` | assembler/opcode.c:187-210 | An accepted table line is what a lookup finds from then on, no other lookup changes, and no byte gets two forms. |
| `Opcodes.ConflictExact` | assembler/opcode.c:170-200 | The conflict test refuses exactly the lines that would give a byte a second form. |
| `Opcodes.NotedExact` | assembler/opcode.c:143-167 | The rebuilt reverse map names a form exactly for the bytes all of whose entries use it. |
| `Opcodes.LookupForm` | assembler/opcode.c:528-547 | A byte found by mnemonic has the form it was found under, and no other. |
| `Opcodes.Registry.RebuildReverseMap` | assembler/opcode.c:136-167 | The two 256-entry arrays hold the reverse map of the current table. |
| `Opcodes.Registry.LoadLine` | assembler/opcode.c:171-210 | A line is refused exactly when its byte already has another form; otherwise the table and the arrays follow. |
| `Program.SegmentKindExact` | assembler/asm_state.c:379-390 | Which segment names go to data, bss, zero page and text: the families exclude one another. |
| `Program.BestContract` | assembler/asm_state.c:150-168 | The longest matching contract is chosen, and none only when none matches. |
| `Program.AlignPadding` | assembler/asm_pass.c:672-684 | The padding is below the boundary and reaches the offset modulo the boundary. |
| `Program.Disp16` | assembler/asm_pass.c:265-272 | The displacement reaches the target modulo 2^16 and lies in the signed 16-bit range. |
| `Agreement.StepGrows` | assembler/asm_pass.c:1390-1692 | A step of the walk never changes a settled entry and never moves a segment's base or capacity. |
| `Agreement.EquateStable` | assembler/asm_pass.c:1245-1303 | An equate that had a value when the walk passed it evaluates to that value in every later table. |
| `Agreement.FinalKeeps` | assembler/asm_pass.c:1306-1354 | The sweeps keep every value the walk had settled. |
| `Agreement.EmissionSees` | assembler/asm_pass.c:2168-2204 | At every statement the emitter sees the values the layout walk saw there, `.set` variables included. |
| `Agreement.BytesAsReserved` | assembler/asm_pass.c:2208-2664 | In an error-free assembly each statement's bytes are exactly as many as pass 1 reserved, across two independently written walks, if what sizes depend on reads the same entries in both. |
| `Agreement.ReservedAnyway` | assembler/asm_pass.c:2208-2664 | Instructions, data, text and everything else but `.res` and `.align` need no such condition. |
| `Agreement.ResExact` | assembler/asm_pass.c:1670-1690 | `.res` writes what pass 1 reserved if and only if both passes read the same count. |
| `Agreement.AlignReserved` | assembler/asm_pass.c:1586-1668 | `.align` pads as it reserved when boundary and offset read the same both times; the fill value plays no part. |
| `TinyReads.HiddenNameDiffers` | assembler/asm_pass.c:1670-1690 | The condition is needed: `.res CODE_BASE` before `CODE_BASE = 5` reserves the published base, writes five bytes, and no pass reports an error. |
| `TinyReads.VariableDiffers` | assembler/asm_pass.c:1306-1354 | And for equates: `.res n` with `n = v` over a `.set` variable reserves by its value at the equate and writes by its last one. |
| `Agreement.EmissionQuiet` | assembler/asm_pass.c:2793-2830 | An emission without errors had none at any statement and lost no byte. |
| `Emission.DataReadsBack` | assembler/asm_pass.c:2344-2386 | `.byte`, `.word` and `.banktarget` bytes read back as their operands, low byte first, each evaluated at the address it lands on, the bank byte zero. |
| `Operators.LeavesExact` | assembler/expr.c:394-420 | Numbers, characters, `*` and names evaluate to what they say; a name has a value exactly if its entry is defined. |
| `Operators.ArithmeticExact` | assembler/expr.c:459-520 | Sum, difference and product of integers; a product is its left operand added up as often as its right one says, sign included. |
| `Operators.DivisionExact` | assembler/expr.c:459-530 | `/` and `%` fail exactly for a zero divisor; otherwise they make up the dividend, with a remainder below the divisor and of the dividend's sign. |
| `Operators.ShiftsExact` | assembler/expr.c:459-560 | `<<` doubles so many times, `>>` is the floor, and counts outside 0 to 63 are refused. |
| `Operators.ComparisonsExact` | assembler/expr.c:459-573 | Comparisons are 1 or 0 as the sign of the difference says. |
| `Operators.BitsExact` | assembler/expr.c:459-573 | `&`, `|`, `^` and `~` work on every bit by itself, negative numbers included. |
| `Operators.LogicExact` | assembler/expr.c:459-490 | `&&` and `||` by truth, the right operand untouched when the left one decides. |
| `Operators.FaultsPass` | assembler/expr.c:422-495 | An operand without a value passes its fault on, the left one first. |
| `Operators.UnaryExact` | assembler/expr.c:422-456 | Signs, `!`, and `<`, `>`, `^`, which make up the low 24 bits. |
| `Support.BitsDetermine` | assembler/expr.c:459-573 | A number is determined by its bits, so the bit laws fix the operators. |
| `Directives.RorgExact` | assembler/asm_pass.c:1456-1471 | `.rorg` is refused exactly without one value; behind it addresses count from that value while bytes go where they would have gone. |
| `Directives.RendExact` | assembler/asm_pass.c:1473-1487 | `.rend` is refused exactly with arguments or outside `.rorg`; behind it addresses are physical. |
| `Directives.OrgExact` | assembler/asm_pass.c:1555-1585 | `.org` is refused exactly inside `.rorg`, without one value, or below the base; the next byte goes to its value. |
| `Directives.AlignExact` | assembler/asm_pass.c:1589-1621 | When `.align` is refused, in flat and object mode, and that it takes the fewest bytes to its boundary and offset. |
| `Directives.RoomExact` | assembler/asm_pass.c:1624-1690 | Every other directive moves both addresses by what its operands or its text ask for, or is refused. |
| `Directives.LabelExact` | assembler/asm_state.c:921-945 | A label's final entry: value, segment, absolute exactly inside a logical origin. |
| `Directives.NamesEntered` | assembler/asm_pass.c:1412-1439 | An active statement without an error enters its label and its procedure name, each new, at its own address. |
| `Directives.CheckExact` | assembler/asm_pass.c:1343-1353 | The closing check is silent exactly when every applied equate has a value or can be given one. |
| `Names.VisibilityExact` | assembler/asm_state.c:601-640 | A statement finds what another stores under a name exactly if it is local to their scope, public, or private to their file. |
| `Names.SharedExact` | assembler/asm_state.c:601-640 | Two statements store a name in one entry under exactly these conditions. |
| `Names.FamilyExact` | assembler/o26.c:180-230 | A segment name belongs to a family if it is its name or that, a dot and more, in any case. |
| `Names.ContractExact` | assembler/asm_state.c:171-195 | The longest matching contract decides, the earliest among equals. |
| `Names.BranchNamesExact` | assembler/opcode.c:550-570 | Exactly the eight configured mnemonics are branches, each with the meaning of its configured byte. |
| `Names.RawByteExact` | assembler/opcode.c:448-475 | `opXX` stands for the byte its two hexadecimal digits spell. |
| `Names.RawLookupExact` | assembler/opcode.c:528-547 | It is refused in a form exactly if the table uses the byte, always in one other form. |
| `Names.LookupExact` | assembler/opcode.c:528-547 | Any other mnemonic has the byte of its newest entry for the form. |
| `Encoding.QuotedReadsBack` | assembler/asm_pass.c:23-79 | Any bytes can be spelled in quotes, with and without escapes, and read back. |
| `Encoding.PlainTextExact` | assembler/asm_pass.c:23-79 | Text without a backslash stands for its characters. |
| `Encoding.TextEmitted` | assembler/asm_pass.c:2387-2455 | `.text` writes its text, `.asciiz` a zero behind it. |
| `Encoding.ResEmitted` | assembler/asm_pass.c:2456-2480 | `.res n` writes n zeros and is refused exactly for anything but one number that is not negative. |
| `Encoding.AlignEmitted` | assembler/asm_pass.c:2284-2340 | `.align` writes its fill byte just as often as the boundary takes from where it stands. |
| `Encoding.AlignAccepted` | assembler/asm_pass.c:2284-2340 | When the emitter accepts `.align`. |
| `Encoding.DataExact` | assembler/asm_pass.c:2344-2386 | Data directives are accepted exactly when every operand has a value where it lands. |
| `Encoding.SilentExact` | assembler/asm_pass.c:2240-2283 | Which of the other directives are errors; none of them writes a byte. |
| `Encoding.EmissionStarts` | assembler/asm_pass.c:2168-2180 | The emission starts with all labels and equates and with no `.set` variable. |
| `Encoding.WrittenIsStored` | assembler/o26.c:296-313 | What a statement writes belongs to the stored image unless it only reserves room. |
| `Encoding.OperandExact` | assembler/asm_pass.c:2492-2664 | An operand is refused exactly when its place cannot hold it: no byte reads as it, no displacement leads to it, or an indirect pointer crosses a page; accepted bytes say its value. |
| `Encoding.HeadExact` | assembler/asm_pass.c:2492-2560 | The head of an instruction and when the table refuses it. |
| `Encoding.BranchFitsExact` | assembler/asm_pass.c:265-272 | A branch fits exactly when some displacement byte leads to its target. |
| `Addressing.ShortFormExact` | assembler/asm_pass.c:1720-1757 | An instruction has a short form exactly when it takes a word operand, has no suffix, and the table has the page-zero form with the same register. |
| `Addressing.ShorteningKeepsAddress` | assembler/asm_pass.c:2100-2128 | For every operand in page zero and all registers a shortened instruction uses the address it used before, except exactly where operand plus register reaches 256. |
| `Addressing.RunKeepsAddress` | assembler/asm_pass.c:2043-2143 | So does a whole run. |
| `Tiling.ImageIsLastWritten` | assembler/asm_pass.c:2793-2830 | Whatever origins a program sets, an error-free emission fills exactly the addresses its statements occupy, each with the byte of the last one there. |
| `Tiling.IntactExact` | assembler/ihex.c:25-45 | Every statement's bytes survive in the image if and only if statements that share an address agree on its byte. |
| `Tiling.BytesPlaced` | assembler/asm_pass.c:1003-1020 | While no `.org` steps back, each statement's bytes start at its segment's base plus offset and end by the next offset, exactly there unless it is an origin. |
| `Tiling.NoOverlap` | assembler/asm_pass.c:2146-2165 | Then no two statements' bytes share an address. |
| `Tiling.ImageExact` | assembler/asm_pass.c:2793-2830 | Then every address a statement occupies lies in its segment and holds its byte, and the image holds nothing else. |
| `Tiling.OccupantUnique` | assembler/asm_pass.c:2793-2830 | The occupying statement is unique: no overlap. |
| `Tiling.SegmentsFilled` | assembler/asm_pass.c:2793-2830 | Without `.org` there is no gap either: the image is exactly the union of the segments' ranges. |
| `TinyOverlap.OverlapExact` | assembler/asm_pass.c:1555-1580 | `.byte 1`, `.org n`, `.byte 2` assembles without an error for every n inside the image, and the first byte survives exactly when the origin steps forward. |
| `TinyOverlap.ForwardIsGood` | assembler/asm_pass.c:1555-1580 | With a forward origin it meets the premises of the theorems about places. |
| `Tiling.LogicalOffsetConstant` | assembler/asm_pass.c:719-725 | Between `.rorg` and `.rend` logical minus physical address never changes, across origins too. |
| `Labels.LabelFinal` | assembler/asm_pass.c:1413-1440 | A label's final value is its statement's address, whatever the sweeps do. |
| `NonInterference.AtAgrees` | assembler/asm_pass.c:1357-1692 | Two passes over programs that differ only in instruction forms take the same branches and agree on every layout-free entry. |
| `NonInterference.SweepsAgree` | assembler/asm_pass.c:1306-1354 | Sweeps over the same equates agree on layout-free entries, however many sweeps each run needs. |
| `NonInterference.FinalAgrees` | assembler/asm_pass.c:1357-1710 | So do the final tables of the two passes. |
| `NonInterference.RoomAgrees` | assembler/asm_pass.c:1475-1690 | Everything but instructions and alignments reserves the same room in both passes. |
| `RelaxSafety.Closer` | assembler/asm_pass.c:2043-2143 | When instructions shrink, the distance of two statements of a segment between which no origin or alignment stands never grows, whatever the other segments do. |
| `RelaxSafety.Below` | assembler/asm_pass.c:2043-2143 | And no statement ever moves away from its segment's start, origins and alignments included. |
| `RelaxSafety.FitsCloser` | assembler/asm_pass.c:265-272 | Within 0xFF7E bytes a displacement that fits still fits after both ends moved closer, although displacements wrap modulo 2^16. |
| `RelaxSafety.LabelValue` | assembler/asm_pass.c:281-296 | A bare label operand denotes an entry that holds the labelled statement's base plus offset and its segment, in programs of any number of segments. |
| `RelaxSafety.SpanExact` | assembler/asm_pass.c:265-272 | That bound is exact: displacements keep fitting in every program of a given span if and only if the span is at most 0xFF7E. |
| `RelaxRun.RelaxPassKeeps` | assembler/asm_pass.c:2052-2139 | An iteration keeps the program and its class and only shortens. |
| `RelaxRun.RunKeeps` | assembler/asm_pass.c:2043-2143 | So does any number of iterations. |
| `RelaxRun.ShrinkingIsSafe` | assembler/asm_pass.c:2043-2143 | Over the whole run a near label branch once in range stays in range, and a label operand once in page zero stays there, in any segment and wherever the run stops. |
| `RelaxRun.ChosenFormEncodes` | assembler/asm_pass.c:2492-2664 | Every form the relaxer chose is accepted by pass 2 on the layout of the last iteration: no branch out of range, no operand outside page zero. |
| `RelaxRun.BranchAccepted` | assembler/asm_pass.c:2492-2664 | Pass 2 accepts a short label branch if and only if its byte is configured and its target in range in the last layout. |
| `RelaxRun.OperandAccepted` | assembler/asm_pass.c:2492-2664 | And a page-zero form with a label operand if and only if its byte is configured and the label in page zero. |
| `TinyOrigin.OriginBreaksRange` | assembler/asm_pass.c:2086-2099 | Why nothing fixed may stand between: with `.org` between branch and target the relaxer shortens a branch that pass 2 refuses. |
| `RelaxFixpoint.ChangeExactly` | assembler/asm_pass.c:2086-2128 | An iteration changes exactly the instructions that are ready for their short form. |
| `RelaxFixpoint.LabelReady` | assembler/asm_pass.c:404-478 | A bare label passes the page-zero test if and only if its segment is of a class that may and its address lies in page zero. |
| `RelaxFixpoint.LeastClosedSet` | assembler/asm_pass.c:2043-2143 | What any pass has shortened, in all segments together, lies inside every set of shortened instructions closed under the relaxation rule. |
| `RelaxFixpoint.RunStops` | assembler/asm_pass.c:2052-2139 | Ignoring the cap, one of the first (shrinkable instructions + 2) passes changes nothing. |
| `RelaxFixpoint.LoopIterates` | assembler/asm_pass.c:2052-2139 | The capped loop is an iteration, stops exactly at the first pass without change, or uses up its cap. |
| `RelaxSignature.SignatureExact` | assembler/asm_pass.c:2060-2084 | For any bases, capacities, sizes and number of segments: the signature determines the sizes if and only if at most one segment's size can differ. |
| `RelaxSignature.GrowAlike` | assembler/asm_pass.c:2060-2084 | Two segments of equal size that change alike leave the signature as it was. |
| `TinySignature.ChangeMissed` | assembler/asm_pass.c:2043-2143 | A relocatable program of two segments whose sizes change in the first pass while the test sees nothing: the loop ends, and the next pass changes a size again. |
| `RelaxFixpoint.NothingLeft` | assembler/asm_pass.c:2052-2139 | When nothing changed, no instruction is ready: no remaining long branch is in range and no remaining operand passes the page-zero test. |
| `RelaxFixpoint.ConvergedIsSettled` | assembler/asm_pass.c:2134-2139 | A converged result is a fixed layout: a further pass gives every segment its size again, for any number of segments and in spite of the test, and still nothing is ready. |
| `PageSpecs.SilentExact` | assembler/asm_pass.c:1997-2041 | The page check is silent if and only if no statement fails it. |
| `PageSpecs.PageErrorExact` | assembler/asm_pass.c:2019-2039 | A resolved `.same` or `.cross` branch passes if and only if it is short and its target lies on the page asked for. |
| `PageSpecs.BranchRepeats` | assembler/asm_pass.c:2134-2139 | After a loop that stopped by itself the next layout gives every label branch its address and target again. |
| `PageSpecs.FlatPagesHold` | assembler/asm_pass.c:1997-2041 | So the page contracts the check accepted hold in the layout pass 2 writes. |
| `Machine.InversionExact` | assembler/opcode.c:559-570 | The inverted branch is taken exactly when the branch is not, for all eight branches and all flags. |
| `Machine.BranchBytes` | assembler/asm_pass.c:2492-2664 | Bytes of a short branch: opcode and displacement; of a long one: inverted opcode, 3, `JMP`, target low and high. |
| `Machine.StraightBytes` | assembler/asm_pass.c:2492-2664 | Every other instruction: looked-up opcode, then the operand's low and high byte. |
| `Machine.ProcessorDescribed` | assembler/opcode.c:332-342 | Any table with the standard branch and `JMP` bytes describes a processor the simulation applies to. |
| `Machine.FlatRuns` | assembler/asm_pass.c:2793-2830 | The simulation's premise on overwritten bytes holds for every program whose segments lie apart and whose origins step forward. |
| `Machine.StepSimulated` | assembler/asm_pass.c:2492-2664 | One source step, inside a segment or into another, branch taken or not, long or short, is matched by at most two machine instructions on the emitted image. |
| `Machine.RunSimulated` | assembler/asm_pass.c:2492-2664 | Every source run, through whatever segments and origins, is matched by a run of the emitted bytes from address to address, whichever branches were left long. |
| `PhaseScore.NextEmitIsOff` | assembler/asm_pass.c:1765-1803 | The spans the scorer reads off statement addresses are the walk's own offsets. |
| `PhaseScore.ScoreIsLayout` | assembler/asm_pass.c:1806-1849 | The fast re-layout gives, in front of every statement and at the end, the offset pass 1 assigns once the residue is locked. |
| `PhaseChoice.FirstLabelled` | assembler/asm_pass.c:1873-1881 | The scorer's label search returns the first collected statement with that spelling. |
| `PhaseChoice.LastAt` | assembler/asm_pass.c:1882-1889 | The fallback returns the last collected statement at the old address. |
| `PhaseChoice.CrossesExact` | assembler/asm_pass.c:1900-1904 | The masked exclusive or compares page numbers after 16-bit wrap. |
| `PhaseChoice.PageModulus` | assembler/asm_pass.c:1900-1909 | Page verdicts are the same at all bases with one residue if and only if the modulus is a multiple of 256. |
| `PhaseChoice.BestPhase` | assembler/asm_pass.c:1964-1977 | The search returns the smallest, then lowest, admissible residue, and none only if there is none. |
| `PhaseChoice.SelectionExact` | assembler/asm_pass.c:1918-1991 | A residue is refused exactly when the alignments are no powers of two up to 32768 or no residue is admissible; otherwise the best one is locked. |
| `PhaseExact.ScoreExact` | assembler/asm_pass.c:1806-1915 | The scorer admits a residue if and only if every page contract is kept in the layout pass 1 makes there, and scores it with the segment's size. |
| `PhaseExact.SelectionByLayout` | assembler/asm_pass.c:1918-1994 | In terms of layouts alone: when a segment is refused a residue, and that it otherwise gets the smallest admissible layout at the lowest residue. |
| `PhaseExact.ModulusExact` | assembler/asm_pass.c:694-716 | The modulus a pass collects is the largest of the one it starts with and the boundaries it meets. |
| `PhaseExact.SearchedModulus` | assembler/asm_pass.c:1930-1950 | Residues are searched under that modulus; a locked segment keeps its own. |
| `PhaseExact.FallbackExact` | assembler/asm_pass.c:1880-1899 | A target that is no bare label is the last statement at the address it had. |
| `PhaseSound.ChosenIsLocked` | assembler/asm_pass.c:1984-1991 | The context after selection is the one pass 1 then lays out at the chosen residue. |
| `PhaseSound.PageContractsHold` | assembler/asm_pass.c:1851-1909 | At every final base with the chosen residue a `.same` branch stays on its page and a `.cross` branch leaves it, in range, across 16-bit wrap. |
| `PhaseSound.ModulusCovers` | assembler/asm_pass.c:694-704 | The collected modulus is at least every alignment the walk met. |
| `PhaseSound.FirstSelection` | assembler/asm_pass.c:1936-1945 | At the first selection the modulus covers every alignment by construction. |
| `PhaseSound.CoverKept` | assembler/vcsc_as.c:881-900 | After a selection the class and the cover hold for every later context with the lock kept, whatever forms its instructions have. |
| `PhaseSound.ResetResumes` | assembler/asm_pass.c:1205-1227 | Resetting every instruction to some form leaves such a context. |
| `PhaseSound.RepeatedSelection` | assembler/vcsc_as.c:881-900 | So the selection after any number of relaxation passes meets the premises of the residue theorems again. |
| `PhaseSound.AlignmentAbsolute` | assembler/asm_pass.c:672-716 | At every final base with the chosen residue each interior `.align B, off` ends at `off` modulo B, and the base respects the segment's own alignment. |
| `Support.PageTestExact` | assembler/asm_pass.c:1902-1904 | `((x ^ y) & 0xff00) != 0` on 16-bit numbers compares pages. |
| `Support.PowerOfTwoTestExact` | assembler/asm_pass.c:1948-1955 | `x & (x - 1)` is zero exactly for powers of two. |
| `Support.AndLowMask` | assembler/asm_pass.c:1970-1971 | Masking with a power of two less one is reduction modulo it. |
| `ZpClass.AbsoluteFixed` | assembler/asm_pass.c:404-478 | In object mode an expression classified absolute, the operands of its `<` and `>` too, has its assembly-time value in every outcome of linking. |
| `ZpClass.MovesWithAnchor` | assembler/asm_pass.c:404-478 | One classified zero-page relocatable stays a constant away from one symbol promised to page zero. |
| `ZpRule.ClassifierExact` | assembler/asm_pass.c:404-478 | The classifier calls absolute and zero-page relocatable exactly what the rule does, in flat and object mode. |
| `ZpRule.ShorteningExact` | assembler/asm_pass.c:2100-2128 | An operand is shortened exactly if it follows the rule and is in page zero, or has no value yet and stands on one zero-page import. |
| `ZpRule.StandsBy` | assembler/asm_pass.c:300-360 | An operand that stands on a name differs from it by a constant. |
| `ZpClass.ShorteningJustified` | assembler/asm_pass.c:2100-2128 | The relaxer shortens an operand only to a fixed number in page zero, to a low or high byte, or on a promised symbol, never on an uncontracted one. |
| `ZpClass.PartPlusConstantExact` | assembler/asm_pass.c:437-450 | Why `<` and `>` inside sums must be over absolute operands: `<label + n` counts as absolute and stays in page zero wherever the label goes if and only if n is 0. |
| `Equates.SweepsSolve` | assembler/asm_pass.c:1306-1342 | For any acyclic system of depth at most 64 the sweeps end at the solution, whatever the source order. |
| `Equates.SolutionUnique` | assembler/asm_pass.c:1306-1342 | There is only one solution. |
| `Equates.PassOwnEntries` | assembler/asm_pass.c:1245-1303 | In an error-free pass no two applied equates share an entry. |
| `Equates.SolvableExact` | assembler/asm_pass.c:1306-1342 | An acyclic system has a solution if and only if working it out by rank meets no fault. |
| `Equates.PassSolvesEquates` | assembler/asm_pass.c:1306-1354 | So in the final table of an error-free pass every equate of a fault-free acyclic system has the value of its own expression, which is the unique solution. |
| `Conditionals.WalkIsRun` | assembler/asm_pass.c:879-1000 | On well-nested source the flat frame stack computes the recursive tree semantics: first true arm wins, nothing under an inactive parent or behind a true arm is evaluated. |
| `Conditionals.JudgedByMeaning` | assembler/asm_pass.c:820-876 | `.if` and `.elif` hold exactly for a number other than zero, the name tests exactly when the name is defined, or is not. |
| `Nesting.QuietIsNested` | assembler/asm_pass.c:879-1000 | A pass that reports nothing has met well-nested source. |
| `Nesting.QuietSelects` | assembler/asm_pass.c:1357-1700 | So every program that assembles assembles exactly the statements the meaning of its blocks selects, in its order and with its effect. |
| `Conditionals.SkipRegion` | assembler/asm_pass.c:879-1000 | A skipped region changes nothing but is walked with the stack restored. |
| `Conditionals.PassSelects` | assembler/asm_pass.c:1357-1700 | The whole pass marks exactly the statements the nesting selects and leaves no block open. |
| `Packing.FindLayout` | assembler/o26.c:363-406 | Lookup by name returns the first layout with it. |
| `Packing.RegisterTight` | assembler/o26.c:409-485 | A registration keeps every layout starting where the earlier ones of its output segment, and of the stored data, end, all within 64 KiB. |
| `Packing.BuildTight` | assembler/o26.c:488-510 | So does any sequence of registrations. |
| `Packing.RefusedExact` | assembler/o26.c:433-455 | A registration is refused exactly if its output segment or the stored data would exceed 65535 bytes. |
| `Packing.BuildImages` | assembler/o26.c:296-350 | A zero-page segment is stored with the data exactly if it has bytes to load. |
| `Packing.BuildComplete` | assembler/o26.c:488-510 | Every registered segment has a layout with its base and its size. |
| `Packing.Disjoint` | assembler/o26.c:433-466 | Layouts of one output segment, and stored images of one buffer, are disjoint and in order. |
| `Packing.StoredOnce` | assembler/o26.c:513-536 | Different bytes of stored layouts never map to the same place of a buffer; data and zero-page load images share theirs without overlap. |
| `Packing.LayoutTable.RegisterLayout` | assembler/o26.c:409-485 | The table's lengths and list after a registration, or an unchanged table after a refusal. |
| `Packing.LayoutTable.BuildLayouts` | assembler/o26.c:488-510 | Segments of active statements first, the other nonempty segments after them. |
| `Relocation.Intern` | assembler/o26.c:743-775 | A known import keeps its first index and the list, a new one goes to the end. |
| `Relocation.FixedAnywhere` | assembler/o26.c:789-988 | What the analysis calls not relocatable has its recorded value at assembly time and in every placement. |
| `Relocation.MovesWithTarget` | assembler/o26.c:789-988 | A relocatable word is its addend plus the shift of the one layout or import it names, in every placement; final addresses are given by where segments start. |
| `RelocTypes.AnalysisExact` | assembler/o26.c:789-988 | Which operands the writer accepts, and which of them it calls relocatable, in both directions. |
| `RelocTypes.PackedInside` | assembler/o26.c:539-551 | A symbol inside its segment is recorded inside its layout's packed bytes, at its distance from the layout's other symbols. |
| `RelocTypes.PackedApart` | assembler/o26.c:409-551 | Symbols of different segments of one output segment never get one recorded address. |
| `RelocTypes.ShiftExact` | linker/vcsc_ld.c:6443 | The linker's shift takes a recorded address to the symbol's place behind its segment's start. |
| `Relocation.AnalysisShape` | assembler/o26.c:789-988 | The analysis yields a part, indices that fit their 16-bit fields, and import indices only for imports. |
| `Relocation.KindBits` | assembler/o26.c:1001-1034 | The type byte announces exactly the optional fields of the record and the part to patch, whatever control bits are added. |
| `Relocation.RecordNamesTarget` | assembler/o26.c:991-1050 | The fields of a record name the target the analysis found. |
| `Relocation.FinalOperand` | assembler/o26.c:789-988 | The final value of a word, or of `<` or `>` over one, in terms of addend and shift. |
| `Relocation.ByteSound` | linker/vcsc_ld.c:10928-10973 | Placeholder and auxiliary byte rebuild the addend, and patching stores the low byte of the operand's final value, for every placement. |
| `Relocation.WordSound` | linker/vcsc_ld.c:10928-10979 | A patched word is the operand's final value modulo 2^16, for every placement. |
| `Relocation.LowWordSound` | linker/vcsc_ld.c:10928-10979 | `.word <x`: the place gets the low byte of the final value and zero behind it, with no auxiliary byte recorded. |
| `Relocation.HighWordExact` | assembler/o26.c:1005-1047 | `.word >x` comes out right exactly when the low bytes of addend and shift do not carry. |
| `Relocation.InnerPartExact` | assembler/o26.c:921-935 | `>x + n` comes out right exactly when adding n to the low byte does not change the carry. |
| `Relocation.PcStaysBehind` | assembler/o26.c:816-818 | A relocatable word that contains `*` is stored with `*` at its assembly-time address, and is right if and only if the net distance its `*`s should have moved is a multiple of 2^16. |
| `Relocation.PassSegmentsKnown` | assembler/asm_pass.c:1245-1440 | Pass 1 gives every defined symbol an output segment. |
| `RelocStream.RoundTrip` | assembler/o26.c:2072-2094 | Reading a table back gives its records and stops where the table ends. |
| `RelocStream.DecodedIncrease` | linker/vcsc_ld_input.c:112-149 | Whatever the bytes, the reader only produces strictly increasing offsets. |
| `RelocStream.RoundTripExact` | assembler/o26.c:2072-2094 | A table reads back as written if and only if its offsets strictly increase from zero on. |
| `RelocStream.RecordsWellFormed` | assembler/o26.c:991-1050 | Every record the writer makes carries exactly the fields its type byte and segment announce. |
| `RelocStream.WriteReloc` | assembler/o26.c:2072-2094 | One record with its skip bytes of 254. |
| `RelocStream.WriteRelocTable` | assembler/o26.c:2072-2094 | The writer's loops produce the encoding, which the linker's reader takes back. |
| `HexFormat.LineRead` | assembler/ihex.c:58-82 | A record line reads back field for field, its bytes and checksum summing to zero modulo 256. |
| `HexFormat.TextRead` | assembler/ihex.c:58-82 | So does any sequence of lines. |
| `HexFormat.ChecksumZero` | assembler/ihex.c:66-81 | Record bytes and checksum sum to zero modulo 256. |
| `IntelHex.RecordsWellMade` | assembler/ihex.c:85-132 | Every record fits the format, carries at most 16 data bytes, at least one, and never crosses a 64 KiB boundary. |
| `IntelHex.LoadRecords` | assembler/ihex.c:85-132 | Loading the records gives exactly the used addresses and bytes. |
| `IntelHex.DumpReadsBack` | assembler/ihex.c:85-132 | Parsing and loading the dump of any image gives the image back. |
| `IntelHex.LinesExact` | assembler/ihex.c:58-82 | An end line, an address line and a data line, character by character. |
| `IntelHex.ImageBuffer.WriteByte` | assembler/ihex.c:25-45 | An address in range gets the byte and nothing else changes; minimum and maximum stay the extreme used addresses. |
| `IntelHex.ImageBuffer.WriteWord` | assembler/ihex.c:48-55 | Low byte first; a word at the edge keeps its low byte only. |
| `IntelHex.ImageBuffer.GatherRun` | assembler/ihex.c:117-126 | The inner loop takes the longest run of used bytes within block, maximum and 16 bytes. |
| `IntelHex.ImageBuffer.Dump` | assembler/ihex.c:85-132 | The dump of the object loads to its contents. |
| `Archive.FieldsRead` | archiver/vcsc_ar.c:90-138 | Little-endian fields of 16 and 32 bits read back. |
| `Archive.RoundTripExact` | archiver/vcsc_ar.c:349-411 | Members read back as written if and only if names are nonempty, NUL-free and at most 65535 bytes and sizes are below 2^32. |
| `Archive.ParsedReadable` | archiver/vcsc_ar.c:349-395 | What the reader accepts: NUL-free names below 64 KiB and sizes below 2^32. |
| `Archive.BaseNameExact` | archiver/vcsc_ar.c:55-72 | The base name is what follows the last separator of either kind. |
| `Archive.NameIndex` | archiver/vcsc_ar.c:430-440 | The first input whose base name matches, or none. |
| `Archive.KeptSound` | archiver/vcsc_ar.c:611-640 | Kept are exactly the members no input names. |
| `Archive.ReplaceExact` | archiver/vcsc_ar.c:553-685 | After a replacement the archive reads as the old members no input names, in order, followed by the inputs, if and only if no kept name reads as empty. |
| `Archive.ReplaceTwice` | archiver/vcsc_ar.c:553-685 | Replacing again with the same inputs changes nothing. |
| `Archive.InStream.Read` | archiver/vcsc_ar.c:126-138 | Reading yields as many bytes as asked for or are left. |
| `Archive.InStream.Skip` | archiver/vcsc_ar.c:170-191 | Skipping buffer by buffer consumes exactly the size, and fails exactly when too little is left. |
| `Archive.InStream.ReadMemberHeader` | archiver/vcsc_ar.c:349-395 | End of archive, a malformed header or a member header, with the stream behind it. |
| `Archive.OutStream.CopyFrom` | archiver/vcsc_ar.c:141-167 | Chunked copying is exact, for any size, and fails exactly on short input. |
| `Archive.OutStream.WriteMemberRecord` | archiver/vcsc_ar.c:398-411 | A member record is header, name and payload. |
| `Archive.OutStream.AppendMember` | archiver/vcsc_ar.c:251-309 | An input becomes a member exactly when its base name and size fit and it can be read. |
| `Archive.AppendArchive` | archiver/vcsc_ar.c:443-550 | Copying member by member and adding the inputs computes the appended archive, or fails as a whole on a malformed archive or a bad input. |
| `Archive.AppendExact` | archiver/vcsc_ar.c:443-550 | After appending the archive reads as the old members followed by the inputs if and only if no old name reads as empty. |
| `Archive.AppendSplit` | archiver/vcsc_ar.c:443-550 | Appending in two goes is appending everything at once. |
| `Archive.NulNameLost` | archiver/vcsc_ar.c:398-411 | An archive with a stored name of one NUL reads, but no longer after appending or replacing nothing. |
| `Archive.ReplaceArchive` | archiver/vcsc_ar.c:553-685 | The member-by-member rewrite computes the replacement, and the flags tell which inputs replaced a member. |
| `Repeat.FlatIsTree` | assembler/ir.c:582-646 | The flat expander treats the lines of a nesting tree as the tree says and goes on behind them. |
| `Repeat.SuccessBalanced` | assembler/ir.c:582-646 | A list that expands is the flattening of some tree. |
| `Repeat.ExpansionExact` | assembler/ir.c:649-677 | Accepted are exactly the balanced lists whose tree expands, and they expand as the tree does. |
| `Repeat.ExpansionIsUnrolling` | assembler/ir.c:582-646 | For counts no repeat body can influence, the list expands if and only if its nesting unrolls and the counts inside blocks repeated zero times evaluate too, and then to what going through the body again and again gives. |
| `Repeat.CountExact` | assembler/ir.c:487-526 | A body is repeated as often as its count expression says, or the line is refused. |
| `Repeat.NoteExact` | assembler/ir.c:529-568 | What recording a constant changes, and when it is refused. |
| `Repeat.OccursProduct` | assembler/ir.c:582-646 | Every statement occurs as often as the product of its enclosing counts. |
| `Repeat.NoteKinds` | assembler/ir.c:529-568 | Without names assigned both ways, recording constants never fails. |
| `Repeat.ExpandBlock` | assembler/ir.c:582-646 | Cursor, output and symbol table after the loop over one block, nested blocks included. |
| `Repeat.AppendCopies` | assembler/ir.c:573-579 | The body once per count. |
| `Tiny.PremisesMet` | assembler/asm_pass.c:2043-2143 | A program placed by a segment definition beside the default segment meets the premises of the relaxation theorems for any number of passes. |
| `Tiny.BranchShortened` | assembler/asm_pass.c:2094-2099 | The relaxer makes its long branch short in one pass. |
| `Tiny.TinySettles` | assembler/asm_pass.c:2043-2143 | Two iterations settle it. |
| `Tiny.TinyProcessor` | assembler/opcode.c:559-570 | Its opcode table describes a processor. |
| `TinyPhase.SelectionPremisesMet` | assembler/asm_pass.c:1918-1994 | It also meets the premises of the selection theorem at every residue. |
| `TinyPhase.PhasePremisesMet` | assembler/asm_pass.c:1918-1994 | For a component of the default segment with an alignment and a `.same` branch the selection succeeds and the premises of the residue theorems hold. |
| `Tiny.TinyBytes` | assembler/asm_pass.c:2492-2664 | Its settled branch assembles to `D0 FE`. |
| `Tiny.TinyRuns` | assembler/asm_pass.c:2793-2830 | It meets the premises of the theorems about the image and the simulation. |

## Left out

- Assembler.AsmContext.Pass1: `.segmentdef` evaluation, `validate_segment_defs` and their errors are not part of the pass; segments are given.
- Assembler.AsmContext.ProcessStatement: `.pagecontain` and `.indexrange` set object-file flags only; their state and errors are not modelled.
- Assembler.AsmContext.AssembleFlat: starts from given segments and first forms, and stops at the text of the dump.
- Tiling.ImageExact: assumes that no `.org` steps back; `Tiling.ImageIsLastWritten` covers those that do.
- RelaxFixpoint.LeastClosedSet: near branches only; beyond an origin, an alignment or 0xFF7E bytes readiness can be lost again.
- RelaxFixpoint.RunStops: counts passes without the cap of 50; at the cap only `RelaxRun.ShrinkingIsSafe` and `RelaxRun.ChosenFormEncodes` remain.
- Machine.RunSimulated: control flow only; other instructions are uninterpreted effects, and subroutine and indirect jumps end the run.
- PhaseSound.PageContractsHold: bare label targets; arithmetic branch targets are found by old address (`PhaseExact.FallbackExact`), which the scorer itself calls a fallback.
- Relocation.ByteSound: bank parts, swap memory, replicas and bank-switch rewriting in the linker are not modelled.
- Packing.LayoutTable.RegisterLayout: page-containment and index-range flags, and the refusal of an index range outside the layout, are not modelled.
- Packing.LayoutTable.BuildLayouts: says nothing of the table after a failure, because the object file is then abandoned; no index-range refusals.
- Archive.ReplaceArchive: temporary file, rename and messages are not modelled; a failure leaves the archive as it was.
- Choice of the first addressing form of an instruction (`choose_initial_emit_mode`) and operand-shape checks: forms are given.
- Imports, exports and segment contracts: given as part of the configuration.
- Overflow warnings, listings, map files, tracing and the wording of messages: errors are a count.
- Symbol keys are pairs of scope or file and name; the 4096-byte name buffers of the source are not modelled.
- Bank operators in object files, branch metadata, exports, listing and layout tables of the object format.
- Extraction and listing of archives, option parsing, file opening.
- The object writer's walk over statements (`write_segment_stmt`): relocations are proved per operand and per table, not per statement.
- The lexer, the parser, macros and text inclusion.
