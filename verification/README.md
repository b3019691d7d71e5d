# MalbolgeSharp, modelled in Dafny

MalbolgeSharp is an interpreter for Malbolge, an esoteric language whose
machine works on ten-trit words (values 0 to 59048) and a memory of 59049
such words. This project models the interpreter's core and proves
properties about it:

- **Ternary** (`ternary.dfy`): the word arithmetic of `Word.cs`. Ten trits are read
  most significant first into an integer (`ReadInt`) and written back (`WriteInt`).
  Words are added trit by trit with a carry (`Add`) and compared (`Equals`).
  The tritwise "crazy" operation `crz` works on one trit, a trit span or two
  integers. A word is rotated one trit to the right either arithmetically or as
  a span (`Rotr`).
- **Seed** (`seed.dfy`): how `VirtualMachine.Execute` fills the memory after
  the program. The last two program words start a sequence in which each word
  is `crz` of the two before it. The interpreter collects words of that
  sequence until its stop test holds and tiles them over the rest of memory.
  The stop test as written can stop before a full period (see Findings), so
  the module also defines the corrected cycle, one true period, and proves
  that tiling it continues the sequence.
- **Machine** (`machine.dfy`): the fetch-decode-execute cycle as pure
  functions.
  - `Step` is one pass of the run loop; `Run` repeats it until an exit
    reason is set.
  - The state holds registers a, c and d, memory, the iteration, input and
    memory-access counters, the output, and the exit reason.
  - The opcode is `([c] + c) mod 94`. Its meaning depends on the flavor:
    `Specification` or `Implementation` swap the meanings of 5 and 23.
- **VirtualMachine** (`virtual_machine.dfy`): `Execute` itself, in three phases.
  - Stripping white space and the short-program rejection.
  - Loading and seeding memory.
  - The run loop over a mutable memory array.

  The imperative methods are proved equal to the functional model, and the
  promises of the report are proved about that model.
- **Utility** (`utility.dfy`): the two linear searches of `Utility.cs`, and
  `ToRentedArray`, which collects items into a pooled array and doubles it
  when full.

An unbounded run is modelled with a `fuel` bound on the number of cycles:
`Outcome` is `Finished(report)` or `OutOfFuel`. Lemmas show that fuel never
changes a finished report, and that with an iteration cap, fuel equal to the
cap is always enough.

## Model

| member | source | states |
|---|---|---|
| Ternary.ReadInt | Malbolge/Word.cs:17-27 | the value read is the base-3 number the ten trits spell, most significant first, and lies in 0..59048 |
| Ternary.Pow3IsPower | Malbolge/Word.cs:29-43 | the table of powers with its recursive fallback for exponents above 9 is 3 to the given power, for every exponent |
| Ternary.ToIntBound | Malbolge/Word.cs:17-27 | n trits never spell a value of 3^n or more |
| Ternary.WriteInt | Malbolge/Word.cs:46-55 | the span receives the low ten base-3 digits of the value, so reading it back gives the value modulo 59049 |
| Ternary.ToIntToTrits | Malbolge/Word.cs:46-55 | writing n digits and reading them back yields the value modulo 3^n |
| Ternary.ToTritsToInt | Malbolge/Word.cs:17-27 | reading trits and writing the value back yields the same trits |
| Ternary.WordRoundTrip | Malbolge/Word.cs:46-55 | every word survives a write followed by a read |
| Ternary.Add | Malbolge/Word.cs:57-67 | the sum written is the sum of the two addends modulo 59049: the carry out of the top trit is dropped |
| Ternary.AddStep | Malbolge/Word.cs:62-65 | one digit of the ripple-carry loop keeps digits-plus-carry equal to the sum of the addends' lower digits |
| Ternary.AddDropsCarry | Malbolge/Word.cs:59-66 | after the tenth digit, the digits written are the sum modulo 59049 |
| Ternary.Equals | Malbolge/Word.cs:69-76 | true exactly when all ten trits agree |
| Ternary.SameValueSameTrits | Malbolge/Word.cs:69-76 | two trit spans of one length are equal exactly when they spell the same value, so Equals is value equality |
| Ternary.CrazyTritIsTable | Malbolge/Word.cs:78-105 | crz of trits a and d is row d, column a of the table [[1,0,0],[1,0,2],[2,2,1]], and the operation is not symmetric |
| Ternary.CrazyTrits | Malbolge/Word.cs:106-112 | the destination holds crz of a and d, trit by trit, and nothing else changes |
| Ternary.Crazy | Malbolge/Word.cs:113-122 | crz of two integers equals the word whose trits are crz of their ten-trit writings |
| Ternary.CrazyWordTrits | Malbolge/Word.cs:113-122 | the trits of crz(a, d) are the tritwise crz of the trits of a and d |
| Ternary.Rotr | Malbolge/Word.cs:123-132 | rotating a word yields a word |
| Ternary.RotrWeighs | Malbolge/Word.cs:123-132 | the three cases of the arithmetic rotation are one formula: 19683 times the lowest trit plus the value divided by 3 |
| Ternary.RotrRotatesTrits | Malbolge/Word.cs:123-139 | the arithmetic rotation of a word is the value of its trits rotated right by one |
| Ternary.RotrTritsOfWord | Malbolge/Word.cs:123-139 | the trits of the rotated word are the word's trits rotated right by one |
| Ternary.RotrTrits | Malbolge/Word.cs:134-139 | the span is rotated right by one trit in place: the last trit moves to the front |
| Ternary.RotrTimesTrits | Malbolge/Word.cs:123-132 | k arithmetic rotations move the last k trits to the front |
| Ternary.RotrTenTimes | Malbolge/Word.cs:123-132 | ten rotations give back the original word |
| Seed.GeneratedTrits | Malbolge/VirtualMachine.cs:26-37 | each trit of a generated word depends only on the same trit of the two seed words |
| Seed.TritCycle | Malbolge/Word.cs:78-105 | from any two starting trits, the crz sequence returns to its second trit at step 13 and then repeats from step 2 |
| Seed.GeneratedCycle | Malbolge/VirtualMachine.cs:26-37 | every seed sequence has 12 as a period from its third word on, so the seeding loop always stops |
| Seed.StopLength | Malbolge/VirtualMachine.cs:30-33 | the loop's stop test first holds at the returned length, which is at most 12 |
| Seed.SeedPeriodShape | Malbolge/VirtualMachine.cs:24-38 | the sequence as written starts with crz(first, second), each later word is crz of the two before, and no word but the last two matches the stop test |
| Seed.Seed | Malbolge/VirtualMachine.cs:24-38 | the seeding loop as written builds exactly SeedPeriod |
| Seed.SameSeedFourth | Malbolge/VirtualMachine.cs:26-37 | when both seed words are w, element 4 of the sequence is w again |
| Seed.LowTrits33 | Malbolge/VirtualMachine.cs:26-37 | for the seed words 33 and 33, elements 2, 3 and 5 of the sequence have lowest trits 1, 1 and 0, so element 5 differs from element 2 |
| Seed.SeedPeriodMisses | Malbolge/VirtualMachine.cs:30-33 | for the seed words 33, 33 the loop as written stops after 3 words, and those 3 words tiled do not continue the sequence |
| Seed.CycleLength | Malbolge/VirtualMachine.cs:30-33 | the corrected stop test, "the last two words recur", first holds at the returned length |
| Seed.GeneratedPeriodic | Malbolge/VirtualMachine.cs:30-38 | when the pair at offset p repeats the pair at offset 0, the sequence has period p from its third word on |
| Seed.PeriodicReduce | Malbolge/VirtualMachine.cs:41-45 | under such a period, any position may be reduced modulo p |
| Seed.CycleTilesGenerator | Malbolge/VirtualMachine.cs:24-45 | the corrected cycle, tiled without end, reproduces the generated sequence word for word |
| Seed.SeedCycle | Malbolge/VirtualMachine.cs:24-38 | the corrected seeding loop builds exactly Cycle |
| Machine.Opcode | Malbolge/VirtualMachine.cs:60 | the opcode lies in 0..93 |
| Machine.FlavorDuality | Malbolge/VirtualMachine.cs:62-91 | the two flavors decode every opcode alike except 5 and 23, whose output and input meanings swap |
| Machine.StepValid | Malbolge/VirtualMachine.cs:58-98 | a cycle keeps memory full and the input position within the input |
| Machine.StepAdvancesPointers | Malbolge/VirtualMachine.cs:64-95 | c and d advance by one modulo 59049, after jmp and mov have reloaded them from [d]; the iteration count grows by one |
| Machine.StepMemory | Malbolge/VirtualMachine.cs:64-91 | only crz writes memory, storing crz(a, [d]) in both a and [d]; jmp, rotr, mov and crz each count one read |
| Machine.StepInputOutput | Malbolge/VirtualMachine.cs:66-85 | output appends a modulo 256 as a character; input takes the next character into a, reading carriage return and line feed as 10 and any other character as its code, or 59048 once the input is used up |
| Machine.StepExit | Malbolge/VirtualMachine.cs:90-98 | the cap sets MaxIteration over any other reason; end sets ProgramComplete; an unknown opcode sets InvalidProgram on the first cycle only |
| Machine.StepCounted | Malbolge/VirtualMachine.cs:64-95 | writes never exceed reads, and reads never exceed iterations |
| Machine.RunUnfolds | Malbolge/VirtualMachine.cs:58-99 | a running state with fuel left takes one cycle and goes on |
| Machine.RunEnds | Malbolge/VirtualMachine.cs:58-99 | a finished run has an exit reason other than Unknown, with consistent counters |
| Machine.RunCapped | Malbolge/VirtualMachine.cs:95-98 | with a cap, the iteration count never passes it (at least one cycle runs), and MaxIteration is set only at exactly the cap |
| Machine.RunCappedFinishes | Malbolge/VirtualMachine.cs:95-98 | with a cap, fuel covering the remaining cycles is always enough for the run to end |
| Machine.RunMoreFuel | Malbolge/VirtualMachine.cs:58-99 | more fuel never changes the final state of a finished run |
| VirtualMachine.StripKeeps | Malbolge/VirtualMachine.cs:20 | stripping keeps exactly the non-white-space characters and never lengthens the program |
| VirtualMachine.StripConcat | Malbolge/VirtualMachine.cs:20 | stripping distributes over concatenation, so the characters kept stay in their order |
| VirtualMachine.StripOne | Malbolge/VirtualMachine.cs:20 | a single character is kept exactly when it is not white space |
| VirtualMachine.Tiled | Malbolge/VirtualMachine.cs:41-45 | the tiled memory has 59049 cells |
| VirtualMachine.TiledLayout | Malbolge/VirtualMachine.cs:41-45 | memory is the program followed by the seed sequence repeated, the last copy cut off at the end of memory |
| VirtualMachine.InitialMemoryMisses | Malbolge/VirtualMachine.cs:24-45 | for a program ending in two characters of code 33, the memory seeded as written differs from the corrected seeding at the fourth cell after the program, where it breaks the crz recurrence |
| VirtualMachine.ThreeWordPeriodMisses | Malbolge/VirtualMachine.cs:24-45 | whenever the loop as written stops after three words that do not continue the sequence, the seeded memory breaks the recurrence at the fourth cell after the program |
| VirtualMachine.SeededIsGenerated | Malbolge/VirtualMachine.cs:24-45 | under corrected seeding, each cell after the program holds the matching element of the generated sequence |
| VirtualMachine.SeedCellsAreGenerated | Malbolge/VirtualMachine.cs:24-25 | under corrected seeding, the program's last two cells are the seed words, elements 0 and 1 of the sequence |
| VirtualMachine.CellIsGenerated | Malbolge/VirtualMachine.cs:24-45 | under corrected seeding, memory from two cells before the end of the program on is the generated sequence |
| VirtualMachine.CorrectedMemoryIsGenerated | Malbolge/VirtualMachine.cs:24-45 | under corrected seeding, every such cell at once is its element of the generated sequence |
| VirtualMachine.GeneratedCellsRecur | Malbolge/VirtualMachine.cs:30-37 | any memory holding the generated sequence from two cells before position n on obeys the crz recurrence from n on |
| VirtualMachine.CorrectedMemoryRecurrence | Malbolge/VirtualMachine.cs:24-45 | under corrected seeding, every cell after the program is crz of the two cells before it |
| VirtualMachine.Tile | Malbolge/VirtualMachine.cs:41-45 | the copy loop leaves the program alone and puts seed word (i - progLen) mod length in every cell i after it |
| VirtualMachine.TiledFromLayout | Malbolge/VirtualMachine.cs:41-45 | a memory with that layout is the tiled memory |
| VirtualMachine.CopyProgram | Malbolge/VirtualMachine.cs:21 | the program words are copied to the start of memory, and the cells after them are left as they were |
| VirtualMachine.FillMemory | Malbolge/VirtualMachine.cs:39-45 | after the program is copied in, filling leaves the tiled memory |
| VirtualMachine.Start | Malbolge/VirtualMachine.cs:18-56 | the initial state has a full memory |
| VirtualMachine.StartLayout | Malbolge/VirtualMachine.cs:18-56 | the initial state holds the codes of the non-white-space characters, then the words the seeding loop as written collects, repeated to the end of memory; registers, counters and output start empty and no exit reason is set |
| VirtualMachine.Load | Malbolge/VirtualMachine.cs:18-45 | the constructed memory is the program followed by the words the seeding loop as written collects, tiled |
| VirtualMachine.Execute | Malbolge/VirtualMachine.cs:14-122 | the report is what the functional model computes: a short program is rejected as InvalidProgram, and otherwise the machine, loaded and seeded as the source does it, runs until it stops |
| VirtualMachine.RunLoop | Malbolge/VirtualMachine.cs:47-99 | the exit reason, iteration count, output and read and write counts of the loop are those of the functional run from the zeroed registers |
| VirtualMachine.RunCycle | Malbolge/VirtualMachine.cs:60-98 | one pass of the loop body is one Step of the functional model |
| VirtualMachine.Perform | Malbolge/VirtualMachine.cs:62-92 | the switch has the effect of the decoded instruction on registers, memory and counters |
| VirtualMachine.StartsWithProgram | Malbolge/VirtualMachine.cs:20-21 | the first memory cell holds the first non-white-space character |
| VirtualMachine.ReportSound | Malbolge/VirtualMachine.cs:113-121 | a finished report never says Unknown, returns the program given, and counts at most one read per cycle and a write only with a read |
| VirtualMachine.ConcludeSound | Malbolge/VirtualMachine.cs:113-121 | the same holds for a run from any valid state with consistent counters |
| VirtualMachine.CappedRunFinishes | Malbolge/VirtualMachine.cs:97-98 | with a cap of zero or more, every run finishes, counts at most the cap (at least one cycle), and reports MaxIteration only at exactly the cap |
| VirtualMachine.FuelOnlyBounds | Malbolge/VirtualMachine.cs:58-99 | once a run has finished, more fuel gives the same report |
| VirtualMachine.EndFirst | Malbolge/VirtualMachine.cs:90 | a program whose first character is end (code 81 modulo 94) completes after one cycle, with no output and no memory access |
| VirtualMachine.InvalidFirst | Malbolge/VirtualMachine.cs:91 | a program whose first character decodes to no operation is reported invalid after one cycle |
| VirtualMachine.FirstCycle | Malbolge/VirtualMachine.cs:58-98 | a first instruction that is end or no operation decides the run in its first cycle |
| VirtualMachine.FirstCycleFrom | Malbolge/VirtualMachine.cs:58-98 | the same for any full memory: the run stops after one cycle with c and d at 1 and nothing else changed |
| Utility.ToRentedArray | Malbolge/Utility.cs:8-34 | the count returned is the number of items, and the first count cells of the array are the items in order |
| Utility.Rent | Malbolge/Utility.cs:14 | the pool hands out an array at least as long as requested |
| Utility.IndexOfChar | Malbolge/Utility.cs:36-43 | -1 exactly when the character does not occur; otherwise the index of its first occurrence |
| Utility.IndexOf | Malbolge/Utility.cs:44-52 | -1 for a null array or when no element matches; otherwise the first index whose non-null element equals the item |

## Left out

- `Program.cs`, the console front end, is not part of this model. The file I/O it does and the timing it prints are not modelled either.
- The `Word` struct is not part of this model. Its integer constructor, `+`, `TritwiseOp`, `Value`, `Data` and `Rotr()` are modelled by their evident meaning:
  - a word is an integer 0..59048;
  - `+` is addition modulo 59049;
  - `TritwiseOp` is `CrazyWord`;
  - `Rotr()` returns the rotated value.
- VirtualMachine.Perform: `memory[d].Rotr()` is modelled as returning the rotated word without writing it back to memory. Whether the unseen struct method mutates the cell is not visible.
- VirtualMachine.Execute, VirtualMachine.Execution:
  - A run with no iteration cap need not end. The model bounds the number of cycles with `fuel` and reports `OutOfFuel` when the bound is reached.
  - A program shorter than two characters gets an empty result, where the source leaves `Result` null.
  - `Execute` seeds memory as the source does. No variant of `Execute` runs with the corrected seeding; that seeding is stated and proved about memory only (`CorrectedMemory`).
- VirtualMachine.Loadable: the following cases are preconditions of `Execute`, not modelled error paths. The source crashes or relies on pool internals in each of them.
  - A program of two or more characters with fewer than two non-white-space characters: the source indexes `memory[-1]` or `memory[-2]`.
  - More than 59049 non-white-space characters: these depend on the length of the pooled array.
  - A character whose code exceeds 59048.
- VirtualMachine.Start: its own contract states only that memory is full. The full layout of the initial state is stated by `StartLayout`.
- Machine.WordChars: an input character whose code exceeds 59048 is excluded by precondition. Its conversion by the unseen `Word` constructor is not known.
- Machine.ExecutionReport: counters are unbounded naturals. The source's 32-bit `int` counters could overflow on runs of more than 2^31 cycles.
- Ternary.WriteInt, Ternary.Crazy: negative values are excluded by precondition. The source's truncating `%` would produce invalid trits for them, and its callers only pass words.
- Ternary: spans are modelled as arrays of exactly ten trits, where the source's `Span<Trit>` may be longer. The source only reads and writes the first ten.
- VirtualMachine.IsWhiteSpace: this lists the characters .NET's `char.IsWhiteSpace` accepts. Surrogate pairs and culture data are not modelled.
- Utility.Rent: `ArrayPool.Shared` is modelled as handing out a fresh array of at least the requested length. Returning arrays to the pool, their reuse and their stale contents are not modelled. `Execute` allocates its memory the same way.
- Utility.IndexOf: C# `null` elements are modelled as `None`, and `Equals` as Dafny equality.
- Execute's single body is split into `Load`, `CopyProgram`, `FillMemory`, `RunLoop`, `RunCycle` and `Perform`, which follow its phases. The commented-out progress printing and `ExecutionReport.ToString` are not modelled.

## Findings

| source | as written | input that shows it | evidently intended | confidence | as-written member | corrected member |
|---|---|---|---|---|---|---|
| Malbolge/VirtualMachine.cs:30-33 | the seeding loop stops as soon as the second-to-last word collected equals `first` OR the last word equals `second` (`!=` joined by `&&`), so the words collected need not be a period of the sequence, and tiling them does not continue the crz recurrence | a program ending in two characters of code 33, e.g. `"!!"`: the loop stops after collecting 3 words, because the third word collected equals `second`; the fourth seeded cell then repeats the first word collected, where the crz recurrence gives a different word | stop when the first two generated words recur, so the tile is one period of the sequence from its third word and every seeded cell is crz of the two before it | medium: derived by proof, not executed | Seed.SeedPeriodMisses, Seed.Seed, VirtualMachine.InitialMemoryMisses | Seed.SeedCycle, Seed.CycleTilesGenerator, VirtualMachine.CorrectedMemoryRecurrence |
