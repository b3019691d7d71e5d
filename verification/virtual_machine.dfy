/**
  VirtualMachine.Execute: load the program's non-whitespace characters into
  memory, seed the rest of memory from the last two program words, and run
  the machine until it stops. The method is proved equal to Execution, which
  is built from the Machine module's Run, and the facts the interpreter
  promises are proved about Execution.
 */
module VirtualMachine {
  import opened Wrappers
  import opened Ternary
  import opened Seed
  import opened Machine

  /** The result of a run: a report, or OutOfFuel when the fuel bound ran out first. */
  datatype Outcome = Finished(report: ExecutionReport) | OutOfFuel

  // ---------------------------------------------------------------------------
  // Loading
  // ---------------------------------------------------------------------------

  /** The characters .NET counts as white space. */
  predicate IsWhiteSpace(ch: char)
  {
    ('\t' <= ch <= '\r') || ch == ' ' || ch == '\U{85}' || ch == '\U{A0}' || ch == '\U{1680}'
    || ('\U{2000}' <= ch <= '\U{200A}') || ch == '\U{2028}' || ch == '\U{2029}'
    || ch == '\U{202F}' || ch == '\U{205F}' || ch == '\U{3000}'
  }

  /** The program with its white space removed. */
  function Strip(program: string): string
  {
    if program == [] then []
    else (if IsWhiteSpace(program[0]) then [] else [program[0]]) + Strip(program[1..])
  }

  /** Strip keeps exactly the non-white-space characters, in their order, and never lengthens. */
  lemma {:induction false} StripKeeps(program: string)
    ensures |Strip(program)| <= |program|
    ensures forall ch :: ch in Strip(program) <==> ch in program && !IsWhiteSpace(ch)
  {
    if program != [] {
      StripKeeps(program[1..]);
      assert program == [program[0]] + program[1..];
    }
  }

  /** Stripping works character by character: it distributes over concatenation. */
  lemma {:induction false} StripConcat(a: string, b: string)
    ensures Strip(a + b) == Strip(a) + Strip(b)
  {
    if a == [] {
      assert a + b == b;
    } else {
      assert (a + b)[0] == a[0];
      assert (a + b)[1..] == a[1..] + b;
      StripConcat(a[1..], b);
    }
  }

  /** A single character is kept exactly when it is not white space. */
  lemma StripOne(ch: char)
    ensures Strip([ch]) == if IsWhiteSpace(ch) then [] else [ch]
  {
    assert [ch][1..] == [];
  }

  /** Each character becomes the word holding its code. */
  function LoadWords(chars: string): (words: seq<Word>)
    requires WordChars(chars)
  {
    seq(|chars|, i requires 0 <= i < |chars| => chars[i] as int)
  }

  /**
    What Execute needs of a program of two or more characters: two to 59049
    non-white-space characters, each of which fits in a word.
   */
  predicate Loadable(program: string)
  {
    |program| >= 2 ==> 2 <= |Strip(program)| <= WordCount && WordChars(Strip(program))
  }

  /** prog, then cycle repeated up to the end of memory. */
  function Tiled(prog: seq<Word>, cycle: seq<Word>): (memory: seq<Word>)
    requires |prog| <= WordCount && |cycle| >= 1
    ensures |memory| == WordCount
  {
    prog + seq(WordCount - |prog|, k requires 0 <= k => cycle[k % |cycle|])
  }

  /** The program words come first; each later cell repeats the cycle, starting over every |cycle| cells. */
  lemma TiledLayout(prog: seq<Word>, cycle: seq<Word>)
    requires |prog| <= WordCount && |cycle| >= 1
    ensures var memory := Tiled(prog, cycle);
      && memory[..|prog|] == prog
      && (forall i :: |prog| <= i < WordCount ==> memory[i] == cycle[(i - |prog|) % |cycle|])
  {
    var memory := Tiled(prog, cycle);
    assert memory[..|prog|] == prog;
  }

  /**
    Memory after loading and seeding as the interpreter does it: the program,
    then the words its seeding loop collects, repeated to the end.
   */
  function InitialMemory(prog: seq<Word>): (memory: seq<Word>)
    requires 2 <= |prog| <= WordCount
    ensures |memory| == WordCount
  {
    Tiled(prog, SeedPeriod(prog[|prog| - 2], prog[|prog| - 1]))
  }

  /**
    Memory seeded with the corrected cycle: the program, then one period of
    the generated sequence repeated to the end.
   */
  function CorrectedMemory(prog: seq<Word>): (memory: seq<Word>)
    requires 2 <= |prog| <= WordCount
    ensures |memory| == WordCount
  {
    Tiled(prog, Cycle(prog[|prog| - 2], prog[|prog| - 1]))
  }

  /**
    For a program ending in "!!" (seed words 33 and 33) the memory the
    interpreter builds and the corrected memory differ at the fourth cell
    after the program: seeding as written breaks the crazy recurrence there.
   */
  lemma InitialMemoryMisses(prog: seq<Word>)
    requires 2 <= |prog| <= WordCount - 4
    requires prog[|prog| - 2] == 33 && prog[|prog| - 1] == 33
    ensures var n := |prog|;
      InitialMemory(prog)[n + 3] != CorrectedMemory(prog)[n + 3]
    ensures var n, memory := |prog|, InitialMemory(prog);
      memory[n + 3] != CrazyWord(memory[n + 1], memory[n + 2])
  {
    SeedPeriodMisses();
    ThreeWordPeriodMisses(prog, 33, 33);
  }

  /** When the loop stops after three words that do not continue the sequence, the seeded memory shows it. */
  lemma ThreeWordPeriodMisses(prog: seq<Word>, first: Word, second: Word)
    requires 2 <= |prog| <= WordCount - 4 && prog[|prog| - 2] == first && prog[|prog| - 1] == second
    requires |SeedPeriod(first, second)| == 3 && SeedPeriod(first, second)[3 % 3] != Generated(first, second, 3 + 2)
    ensures var n := |prog|;
      InitialMemory(prog)[n + 3] != CorrectedMemory(prog)[n + 3]
    ensures var n, memory := |prog|, InitialMemory(prog);
      memory[n + 3] != CrazyWord(memory[n + 1], memory[n + 2])
  {
    var n := |prog|;
    var memory := InitialMemory(prog);
    var period := SeedPeriod(first, second);
    TiledLayout(prog, period);
    assert memory[n + 3] == period[0];
    assert memory[n + 1] == period[1] == Generated(first, second, 3);
    assert memory[n + 2] == period[2] == Generated(first, second, 4);
    CellIsGenerated(prog, n + 3);
  }

  /** The seeded cells of the corrected memory hold elements 2 onwards of the generated sequence. */
  lemma SeededIsGenerated(prog: seq<Word>, j: int)
    requires 2 <= |prog| <= WordCount && |prog| <= j < WordCount
    ensures CorrectedMemory(prog)[j] == Generated(prog[|prog| - 2], prog[|prog| - 1], j - |prog| + 2)
  {
    var first, second := prog[|prog| - 2], prog[|prog| - 1];
    TiledLayout(prog, Cycle(first, second));
    CycleTilesGenerator(first, second, j - |prog|);
  }

  /** The last two program cells hold elements 0 and 1, the seed words. */
  lemma SeedCellsAreGenerated(prog: seq<Word>, j: int)
    requires 2 <= |prog| <= WordCount && |prog| - 2 <= j < |prog|
    ensures CorrectedMemory(prog)[j] == Generated(prog[|prog| - 2], prog[|prog| - 1], j - |prog| + 2)
  {
    TiledLayout(prog, Cycle(prog[|prog| - 2], prog[|prog| - 1]));
    assert CorrectedMemory(prog)[j] == CorrectedMemory(prog)[..|prog|][j];
  }

  /** In the corrected memory, each cell from two before the end of the program on is an element of the generated sequence. */
  lemma CellIsGenerated(prog: seq<Word>, j: int)
    requires 2 <= |prog| <= WordCount && |prog| - 2 <= j < WordCount
    ensures CorrectedMemory(prog)[j] == Generated(prog[|prog| - 2], prog[|prog| - 1], j - |prog| + 2)
  {
    if j >= |prog| {
      SeededIsGenerated(prog, j);
    } else {
      SeedCellsAreGenerated(prog, j);
    }
  }

  /**
    Corrected seeding continues the crazy recurrence: every cell after the
    program is crz of the two cells before it, the first two from the
    program's last two words.
   */
  lemma CorrectedMemoryRecurrence(prog: seq<Word>, i: int)
    requires 2 <= |prog| <= WordCount && |prog| <= i < WordCount
    ensures var memory := CorrectedMemory(prog);
      memory[i] == CrazyWord(memory[i - 2], memory[i - 1])
  {
    CorrectedMemoryIsGenerated(prog);
    GeneratedCellsRecur(CorrectedMemory(prog), |prog|, prog[|prog| - 2], prog[|prog| - 1], i);
  }

  /** CellIsGenerated for every cell at once. */
  lemma CorrectedMemoryIsGenerated(prog: seq<Word>)
    requires 2 <= |prog| <= WordCount
    ensures forall j :: |prog| - 2 <= j < |CorrectedMemory(prog)| ==>
      CorrectedMemory(prog)[j] == Generated(prog[|prog| - 2], prog[|prog| - 1], j - |prog| + 2)
  {
    forall j | |prog| - 2 <= j < WordCount
      ensures CorrectedMemory(prog)[j] == Generated(prog[|prog| - 2], prog[|prog| - 1], j - |prog| + 2)
    {
      CellIsGenerated(prog, j);
    }
  }

  /**
    A memory whose cells from n - 2 on are the generated sequence from its
    start obeys the crazy recurrence at every cell from n on.
   */
  lemma GeneratedCellsRecur(memory: seq<Word>, n: int, first: Word, second: Word, i: int)
    requires 2 <= n <= i < |memory|
    requires forall j :: n - 2 <= j < |memory| ==> memory[j] == Generated(first, second, j - n + 2)
    ensures memory[i] == CrazyWord(memory[i - 2], memory[i - 1])
  {
    var k := i - n;
    assert memory[i - 2] == Generated(first, second, k);
    assert memory[i - 1] == Generated(first, second, k + 1);
    assert memory[i] == Generated(first, second, k + 2);
  }

  /** Writes the seed words over memory from progLen on, one copy of them at a time. */
  method Tile(memory: array<Word>, progLen: nat, wordSeq: seq<Word>)
    requires memory.Length == WordCount && progLen <= WordCount && |wordSeq| >= 1
    modifies memory
    ensures memory[..progLen] == old(memory[..progLen])
    ensures forall i :: progLen <= i < WordCount ==> memory[i] == wordSeq[(i - progLen) % |wordSeq|]
  {
    var len := |wordSeq|;
    var i := progLen;
    ghost var copies := 0;
    while i < WordCount
      invariant progLen <= i && i == progLen + len * copies
      invariant memory[..progLen] == old(memory[..progLen])
      invariant forall j :: progLen <= j < i && j < WordCount ==> memory[j] == wordSeq[(j - progLen) % len]
      decreases WordCount - i
    {
      var copySize := if len < WordCount - i then len else WordCount - i;
      forall k | 0 <= k < copySize {
        memory[i + k] := wordSeq[k];
      }
      forall j | i <= j < i + copySize
        ensures memory[j] == wordSeq[(j - progLen) % len]
      {
        DivModUnique(j - progLen, len, copies, j - i);
      }
      i := i + len;
      copies := copies + 1;
    }
  }

  /** A memory laid out as TiledLayout says is the tiled memory. */
  lemma TiledFromLayout(memory: seq<Word>, prog: seq<Word>, cycle: seq<Word>)
    requires |prog| <= WordCount && |cycle| >= 1 && |memory| == WordCount
    requires memory[..|prog|] == prog
    requires forall i :: |prog| <= i < WordCount ==> memory[i] == cycle[(i - |prog|) % |cycle|]
    ensures memory == Tiled(prog, cycle)
  {
    var initial := Tiled(prog, cycle);
    TiledLayout(prog, cycle);
    forall i | 0 <= i < WordCount
      ensures memory[i] == initial[i]
    {
      if i < |prog| {
        assert memory[i] == memory[..|prog|][i];
        assert initial[i] == initial[..|prog|][i];
      }
    }
  }

  /** Copies the program's words to the start of memory. */
  method CopyProgram(memory: array<Word>, programAsMemory: seq<Word>)
    requires |programAsMemory| <= memory.Length
    modifies memory
    ensures memory[..|programAsMemory|] == programAsMemory
    ensures memory[|programAsMemory|..] == old(memory[|programAsMemory|..])
  {
    forall i | 0 <= i < |programAsMemory| {
      memory[i] := programAsMemory[i];
    }
  }

  /** Fills memory after the program with copies of the seed words. */
  method FillMemory(memory: array<Word>, prog: seq<Word>, wordSeq: seq<Word>)
    requires memory.Length == WordCount && |prog| <= WordCount && |wordSeq| >= 1
    requires memory[..|prog|] == prog
    modifies memory
    ensures memory[..] == Tiled(prog, wordSeq)
  {
    Tile(memory, |prog|, wordSeq);
    TiledFromLayout(memory[..], prog, wordSeq);
  }

  // ---------------------------------------------------------------------------
  // Execution
  // ---------------------------------------------------------------------------

  /** The state the run loop starts in: registers, counters and output all zero or empty. */
  function Initial(memory: seq<Word>): MachineState
  {
    MachineState(memory, 0, 0, 0, 0, 0, "", 0, 0, None)
  }

  /** The initial state for a program: its words loaded and the rest of memory seeded. */
  function Start(program: string): (s: MachineState)
    requires |program| >= 2 && Loadable(program)
    ensures |s.memory| == WordCount
  {
    Initial(InitialMemory(LoadWords(Strip(program))))
  }

  /**
    The initial state for a program: the codes of its non-white-space
    characters first, then the words the seeding loop collects, repeated to the end of
    memory; registers, counters and output zero or empty, and no exit reason.
   */
  lemma StartLayout(program: string)
    requires |program| >= 2 && Loadable(program)
    ensures var prog := LoadWords(Strip(program));
      var period := SeedPeriod(prog[|prog| - 2], prog[|prog| - 1]);
      var s := Start(program);
      && s.memory[..|prog|] == prog
      && (forall i :: |prog| <= i < WordCount ==> s.memory[i] == period[(i - |prog|) % |period|])
      && s.a == 0 && s.c == 0 && s.d == 0 && s.iteration == 0 && s.inputIndex == 0
      && s.output == "" && s.memoryReads == 0 && s.memoryWrites == 0 && s.exitReason == None
  {
    var prog := LoadWords(Strip(program));
    TiledLayout(prog, SeedPeriod(prog[|prog| - 2], prog[|prog| - 1]));
  }

  /** The report for a finished run; a run that stopped without a reason reports Unknown. */
  function ReportOf(s: MachineState, program: string): ExecutionReport
  {
    var reason := match s.exitReason case Some(r) => r case None => Unknown;
    ExecutionReport(reason, s.iteration, s.output, program, s.memoryReads, s.memoryWrites)
  }

  /** A program shorter than two characters is rejected before memory is touched. */
  function ShortProgramReport(program: string): ExecutionReport
  {
    ExecutionReport(InvalidProgram, 0, "", program, 0, 0)
  }

  /** What Execute returns, given the fuel bound on the number of cycles. */
  function Execution(flavor: MalbolgeFlavor, program: string, input: string, maxIterations: int, fuel: nat): Outcome
    requires Loadable(program) && WordChars(input)
  {
    if |program| < 2 then Finished(ShortProgramReport(program))
    else Conclude(Run(Start(program), flavor, input, maxIterations, fuel), program)
  }

  /** The outcome of a run: a report once it has stopped, OutOfFuel if it had not. */
  function Conclude(r: Option<MachineState>, program: string): Outcome
  {
    match r
    case None => OutOfFuel
    case Some(s) => Finished(ReportOf(s, program))
  }

  /**
    Runs a Malbolge program: loads it, seeds memory, and cycles until the
    program ends, fails, reaches the iteration cap, or runs out of fuel.
   */
  method Execute(flavor: MalbolgeFlavor, program: string, input: string, maxIterations: int, fuel: nat)
    returns (outcome: Outcome)
    requires Loadable(program) && WordChars(input)
    ensures outcome == Execution(flavor, program, input, maxIterations, fuel)
  {
    if |program| < 2 {
      return Finished(ShortProgramReport(program));
    }

    var memory := Load(LoadWords(Strip(program)));
    ghost var start := Initial(memory[..]);
    assert start == Start(program);
    var exitReason, iteration, output, memoryReads, memoryWrites := RunLoop(memory, flavor, input, maxIterations, fuel);
    ghost var r := Run(start, flavor, input, maxIterations, fuel);

    // Deconstruct
    if exitReason.Some? {
      outcome := Finished(ExecutionReport(exitReason.value, iteration, output, program, memoryReads, memoryWrites));
      assert outcome == Conclude(r, program);
    } else {
      outcome := OutOfFuel;
      RunEnds(start, flavor, input, maxIterations, fuel);
    }
  }

  /**
    The Construct phase of Execute: a fresh memory holding the program's
    words, the rest seeded from its last two.
   */
  method Load(programAsMemory: seq<Word>) returns (memory: array<Word>)
    requires 2 <= |programAsMemory| <= WordCount
    ensures fresh(memory)
    ensures memory[..] == InitialMemory(programAsMemory)
  {
    memory := new Word[WordCount];
    var progLen := |programAsMemory|;
    CopyProgram(memory, programAsMemory);
    var first := memory[progLen - 2];
    var second := memory[progLen - 1];
    var wordSeq := Seed.Seed(first, second);
    FillMemory(memory, programAsMemory, wordSeq);
  }

  /**
    The run loop of Execute, on memory already loaded and seeded: registers
    and counters start at zero, and each pass is one Step, until an exit
    reason is set or the fuel is used up.
   */
  method RunLoop(memory: array<Word>, flavor: MalbolgeFlavor, input: string, maxIterations: int, fuel: nat)
    returns (exitReason: Option<ExitReason>, iteration: nat, output: string, memoryReads: nat, memoryWrites: nat)
    requires memory.Length == WordCount && WordChars(input)
    modifies memory
    ensures match Run(Initial(old(memory[..])), flavor, input, maxIterations, fuel)
      case None => exitReason == None
      case Some(s) =>
        && exitReason == s.exitReason && iteration == s.iteration && output == s.output
        && memoryReads == s.memoryReads && memoryWrites == s.memoryWrites
  {
    ghost var start := Initial(memory[..]);
    exitReason := None;
    iteration, output, memoryReads, memoryWrites := 0, "", 0, 0;
    var inputIndex: nat := 0;
    var a: Word, c: Word, d: Word := 0, 0, 0;
    var fuelLeft := fuel;
    while exitReason.None? && fuelLeft > 0
      invariant memory.Length == WordCount && inputIndex <= |input|
      invariant Run(MachineState(memory[..], a, c, d, iteration, inputIndex, output,
                                 memoryReads, memoryWrites, exitReason), flavor, input, maxIterations, fuelLeft)
             == Run(start, flavor, input, maxIterations, fuel)
      decreases fuelLeft
    {
      ghost var before := MachineState(memory[..], a, c, d, iteration, inputIndex, output,
                                       memoryReads, memoryWrites, exitReason);
      RunUnfolds(before, flavor, input, maxIterations, fuelLeft);
      a, c, d, iteration, inputIndex, output, memoryReads, memoryWrites, exitReason :=
        RunCycle(memory, flavor, input, maxIterations,
                 a, c, d, iteration, inputIndex, output, memoryReads, memoryWrites, before);
      fuelLeft := fuelLeft - 1;
    }
  }

  /**
    One pass of the run loop: the instruction at c, then c and d advance,
    the iteration is counted, and the cap is checked.
   */
  method RunCycle(memory: array<Word>, flavor: MalbolgeFlavor, input: string, maxIterations: int,
                  a: Word, c: Word, d: Word, iteration: nat, inputIndex: nat,
                  output: string, memoryReads: nat, memoryWrites: nat, ghost before: MachineState)
    returns (a': Word, c': Word, d': Word, iteration': nat, inputIndex': nat, output': string,
             memoryReads': nat, memoryWrites': nat, exitReason: Option<ExitReason>)
    requires memory.Length == WordCount && inputIndex <= |input| && WordChars(input)
    requires before == MachineState(memory[..], a, c, d, iteration, inputIndex, output, memoryReads, memoryWrites, None)
    modifies memory
    ensures MachineState(memory[..], a', c', d', iteration', inputIndex', output', memoryReads', memoryWrites', exitReason)
         == Step(before, flavor, input, maxIterations)
    ensures inputIndex' <= |input|
  {
    var instructionValue := Opcode(memory[c], c);
    a', c', d', inputIndex', output', memoryReads', memoryWrites', exitReason :=
      Perform(memory, Decode(instructionValue, flavor), input,
              a, c, d, iteration, inputIndex, output, memoryReads, memoryWrites);
    c' := (c' + 1) % WordCount;
    d' := (d' + 1) % WordCount;
    iteration' := iteration + 1;
    if maxIterations >= 0 && iteration' >= maxIterations {
      exitReason := Some(MaxIteration);
    }
  }

  /**
    The instruction switch of the run loop: carries out one instruction on
    memory and the registers, before the pointers advance.
   */
  method Perform(memory: array<Word>, op: Instruction, input: string,
                 a: Word, c: Word, d: Word, iteration: nat, inputIndex: nat,
                 output: string, memoryReads: nat, memoryWrites: nat)
    returns (a': Word, c': Word, d': Word, inputIndex': nat, output': string,
             memoryReads': nat, memoryWrites': nat, exitReason: Option<ExitReason>)
    requires memory.Length == WordCount && inputIndex <= |input| && WordChars(input)
    modifies memory
    ensures MachineState(memory[..], a', c', d', iteration, inputIndex', output', memoryReads', memoryWrites', exitReason)
         == Effect(MachineState(old(memory[..]), a, c, d, iteration, inputIndex, output,
                                  memoryReads, memoryWrites, None), op, input)
  {
    a', c', d', inputIndex', output', memoryReads', memoryWrites' := a, c, d, inputIndex, output, memoryReads, memoryWrites;
    exitReason := None;
    match op {
      case Jump =>
        c' := memory[d];
        memoryReads' := memoryReads + 1;
      case Output =>
        output' := output + [(a % 256) as char];
      case Input =>
        if inputIndex < |input| {
          var rawInput := input[inputIndex];
          inputIndex' := inputIndex + 1;
          a' := if rawInput == '\r' || rawInput == '\n' then 10 else rawInput as int;
        } else {
          a' := MaxValue;
        }
      case Rotate =>
        a' := Rotr(memory[d]);
        memoryReads' := memoryReads + 1;
      case Move =>
        d' := memory[d];
        memoryReads' := memoryReads + 1;
      case CrazyOp =>
        var w := Crazy(a, memory[d]);
        memory[d] := w;
        a' := w;
        memoryReads' := memoryReads + 1;
        memoryWrites' := memoryWrites + 1;
      case Nop =>
      case End =>
        exitReason := Some(ProgramComplete);
      case Other =>
        if iteration == 0 {
          exitReason := Some(InvalidProgram);
        }
    }
  }

  // ---------------------------------------------------------------------------
  // What Execute promises
  // ---------------------------------------------------------------------------

  /** The first program word is the first non-white-space character's code. */
  lemma StartsWithProgram(program: string)
    requires |program| >= 2 && Loadable(program)
    ensures Start(program).memory[0] == Strip(program)[0] as int
  {
    var prog := LoadWords(Strip(program));
    var memory := InitialMemory(prog);
    TiledLayout(prog, SeedPeriod(prog[|prog| - 2], prog[|prog| - 1]));
    assert memory[0] == memory[..|prog|][0];
  }

  /**
    A finished run never reports Unknown, reports the program it was given,
    and counts at most one read per cycle and a write only with a read.
   */
  lemma ReportSound(flavor: MalbolgeFlavor, program: string, input: string, maxIterations: int, fuel: nat)
    requires Loadable(program) && WordChars(input)
    ensures var outcome := Execution(flavor, program, input, maxIterations, fuel);
      outcome.Finished? ==>
        && outcome.report.exitReason != Unknown
        && outcome.report.program == program
        && outcome.report.memoryWrites <= outcome.report.memoryReads <= outcome.report.iterations
  {
    if |program| >= 2 {
      ConcludeSound(Start(program), flavor, input, maxIterations, fuel, program);
    }
  }

  /** ReportSound for a run from any valid state with consistent counters. */
  lemma ConcludeSound(s: MachineState, flavor: MalbolgeFlavor, input: string, maxIterations: int, fuel: nat, program: string)
    requires Valid(s, input) && Counted(s) && s.exitReason != Some(Unknown)
    ensures var outcome := Conclude(Run(s, flavor, input, maxIterations, fuel), program);
      outcome.Finished? ==>
        && outcome.report.exitReason != Unknown
        && outcome.report.program == program
        && outcome.report.memoryWrites <= outcome.report.memoryReads <= outcome.report.iterations
  {
    RunEnds(s, flavor, input, maxIterations, fuel);
  }

  /**
    With a cap of zero or more, a run always finishes within enough fuel; it
    counts no more than the cap (at least one cycle), and MaxIteration is
    reported only at exactly that count.
   */
  lemma CappedRunFinishes(flavor: MalbolgeFlavor, program: string, input: string, maxIterations: int, fuel: nat)
    requires Loadable(program) && WordChars(input)
    requires maxIterations >= 0 && fuel >= Cap(maxIterations)
    ensures var outcome := Execution(flavor, program, input, maxIterations, fuel);
      && outcome.Finished?
      && outcome.report.iterations <= Cap(maxIterations)
      && (outcome.report.exitReason == MaxIteration ==> outcome.report.iterations == Cap(maxIterations))
  {
    if |program| >= 2 {
      RunCappedFinishes(Start(program), flavor, input, maxIterations, fuel);
      RunCapped(Start(program), flavor, input, maxIterations, fuel);
    }
  }

  /** Fuel is only a bound: once a run has finished, more fuel gives the same report. */
  lemma FuelOnlyBounds(flavor: MalbolgeFlavor, program: string, input: string, maxIterations: int, fuel: nat, more: nat)
    requires Loadable(program) && WordChars(input)
    requires Execution(flavor, program, input, maxIterations, fuel).Finished? && more >= fuel
    ensures Execution(flavor, program, input, maxIterations, more) == Execution(flavor, program, input, maxIterations, fuel)
  {
    if |program| >= 2 {
      RunMoreFuel(Start(program), flavor, input, maxIterations, fuel, more);
    }
  }

  /**
    The first cycle decides a run whose first instruction ends it: with a
    first character whose code is 81 modulo 94 (such as 'Q'), the run completes
    after one cycle with no output and no memory access.
   */
  lemma EndFirst(flavor: MalbolgeFlavor, program: string, input: string, maxIterations: int, fuel: nat)
    requires Loadable(program) && WordChars(input) && |program| >= 2
    requires (Strip(program)[0] as int) % 94 == 81
    requires (maxIterations < 0 || maxIterations > 1) && fuel >= 1
    ensures Execution(flavor, program, input, maxIterations, fuel)
         == Finished(ExecutionReport(ProgramComplete, 1, "", program, 0, 0))
  {
    assert Decode((Strip(program)[0] as int) % 94, flavor) == End;
    FirstCycle(flavor, program, input, maxIterations, fuel);
  }

  /**
    A first instruction that is none of the eight operations makes the
    program invalid after one cycle.
   */
  lemma InvalidFirst(flavor: MalbolgeFlavor, program: string, input: string, maxIterations: int, fuel: nat)
    requires Loadable(program) && WordChars(input) && |program| >= 2
    requires Decode((Strip(program)[0] as int) % 94, flavor) == Other
    requires (maxIterations < 0 || maxIterations > 1) && fuel >= 1
    ensures Execution(flavor, program, input, maxIterations, fuel)
         == Finished(ExecutionReport(InvalidProgram, 1, "", program, 0, 0))
  {
    FirstCycle(flavor, program, input, maxIterations, fuel);
  }

  /** The first cycle of a run whose first instruction is End or invalid stops it. */
  lemma FirstCycle(flavor: MalbolgeFlavor, program: string, input: string, maxIterations: int, fuel: nat)
    requires Loadable(program) && WordChars(input) && |program| >= 2
    requires var op := Decode((Strip(program)[0] as int) % 94, flavor); op == End || op == Other
    requires (maxIterations < 0 || maxIterations > 1) && fuel >= 1
    ensures var op := Decode((Strip(program)[0] as int) % 94, flavor);
      Execution(flavor, program, input, maxIterations, fuel)
      == Finished(ExecutionReport(if op == End then ProgramComplete else InvalidProgram, 1, "", program, 0, 0))
  {
    StartsWithProgram(program);
    FirstCycleFrom(Start(program).memory, flavor, input, maxIterations, fuel);
  }

  /** FirstCycle for any full memory whose first word decodes to End or to no operation. */
  lemma FirstCycleFrom(memory: seq<Word>, flavor: MalbolgeFlavor, input: string, maxIterations: int, fuel: nat)
    requires |memory| == WordCount && WordChars(input)
    requires var op := Decode(memory[0] % 94, flavor); op == End || op == Other
    requires (maxIterations < 0 || maxIterations > 1) && fuel >= 1
    ensures var op := Decode(memory[0] % 94, flavor);
      Run(Initial(memory), flavor, input, maxIterations, fuel)
      == Some(MachineState(memory, 0, 1, 1, 1, 0, "", 0, 0,
                           Some(if op == End then ProgramComplete else InvalidProgram)))
  {
    var s := Initial(memory);
    assert Opcode(s.memory[s.c], s.c) == memory[0] % 94;
    StepExit(s, flavor, input, maxIterations);
    RunUnfolds(s, flavor, input, maxIterations, fuel);
  }
}
