/**
  The fetch-decode-execute cycle of the Malbolge virtual machine, as pure
  functions over a machine state: registers a, c and d, a 59049-cell memory,
  the iteration, input and memory-access counters, the output produced so far
  and the exit reason once one is set. The interpreter's run loop is proved
  against Step and Run in the VirtualMachine module.
 */
module Machine {
  import opened Wrappers
  import opened Ternary

  /** Why a run ended. Unknown is reported only if the loop ended without a reason. */
  datatype ExitReason = Unknown | ProgramComplete | MaxIteration | InvalidProgram

  /** The two readings of opcodes 5 and 23: the language specification's and the reference implementation's. */
  datatype MalbolgeFlavor = Specification | Implementation

  /** What Execute hands back to its caller. */
  datatype ExecutionReport = ExecutionReport(
    exitReason: ExitReason,
    iterations: nat,
    result: string,
    program: string,
    memoryReads: nat,
    memoryWrites: nat)

  /** The eight operations of the machine, and Other for every remaining opcode. */
  datatype Instruction = Jump | Output | Input | Rotate | Move | CrazyOp | Nop | End | Other

  /** The machine between two cycles. */
  datatype MachineState = MachineState(
    memory: seq<Word>,
    a: Word,
    c: Word,
    d: Word,
    iteration: nat,
    inputIndex: nat,
    output: string,
    memoryReads: nat,
    memoryWrites: nat,
    exitReason: Option<ExitReason>)

  /** Every input character can be stored in a word. */
  predicate WordChars(input: string)
  {
    forall i :: 0 <= i < |input| ==> input[i] as int <= MaxValue
  }

  /**
    A state the cycle can run on: full memory, input read no further than its
    end, and input characters that fit in a word.
   */
  predicate Valid(s: MachineState, input: string)
  {
    |s.memory| == WordCount && s.inputIndex <= |input| && WordChars(input)
  }

  /** The counters agree with each other: every write is a read, and at most one read happens per cycle. */
  predicate Counted(s: MachineState)
  {
    s.memoryWrites <= s.memoryReads <= s.iteration
  }

  /** The opcode of the word at c: that word plus c itself (a word sum, modulo 59049), modulo 94. */
  function Opcode(cell: Word, c: Word): (op: nat)
    ensures op < 94
  {
    ((cell + c) % WordCount) % 94
  }

  /** The dispatch table; opcodes 5 and 23 swap meaning between the flavors. */
  function Decode(opcode: nat, flavor: MalbolgeFlavor): Instruction
  {
    if opcode == 4 then Jump
    else if opcode == 5 then (if flavor == Specification then Output else Input)
    else if opcode == 23 then (if flavor == Specification then Input else Output)
    else if opcode == 39 then Rotate
    else if opcode == 40 then Move
    else if opcode == 62 then CrazyOp
    else if opcode == 68 then Nop
    else if opcode == 81 then End
    else Other
  }

  /** Output and input trade places; every other instruction stays. */
  function SwapInOut(i: Instruction): Instruction
  {
    match i
    case Output => Input
    case Input => Output
    case _ => i
  }

  /** The word an input character becomes: carriage return and line feed both read as 10. */
  function InputWord(ch: char): Word
    requires ch as int <= MaxValue
  {
    if ch == '\r' || ch == '\n' then 10 else ch as int
  }

  /** The effect of one instruction, before the pointers advance. */
  function Effect(s: MachineState, op: Instruction, input: string): MachineState
    requires Valid(s, input)
  {
    match op
    case Jump => s.(c := s.memory[s.d], memoryReads := s.memoryReads + 1)
    case Output => s.(output := s.output + [(s.a % 256) as char])
    case Input =>
      if s.inputIndex < |input| then
        s.(a := InputWord(input[s.inputIndex]), inputIndex := s.inputIndex + 1)
      else s.(a := MaxValue)
    case Rotate => s.(a := Rotr(s.memory[s.d]), memoryReads := s.memoryReads + 1)
    case Move => s.(d := s.memory[s.d], memoryReads := s.memoryReads + 1)
    case CrazyOp =>
      var w := CrazyWord(s.a, s.memory[s.d]);
      s.(a := w, memory := s.memory[s.d := w],
         memoryReads := s.memoryReads + 1, memoryWrites := s.memoryWrites + 1)
    case Nop => s
    case End => s.(exitReason := Some(ProgramComplete))
    case Other => if s.iteration == 0 then s.(exitReason := Some(InvalidProgram)) else s
  }

  /**
    One cycle: execute the instruction at c, advance c and d by one, count
    the iteration, and stop with MaxIteration once the cap is reached.
   */
  function Step(s: MachineState, flavor: MalbolgeFlavor, input: string, maxIterations: int): MachineState
    requires Valid(s, input)
  {
    var t := Effect(s, Decode(Opcode(s.memory[s.c], s.c), flavor), input);
    var u := t.(c := (t.c + 1) % WordCount, d := (t.d + 1) % WordCount, iteration := t.iteration + 1);
    if maxIterations >= 0 && u.iteration >= maxIterations then u.(exitReason := Some(MaxIteration)) else u
  }

  /**
    Cycles until an exit reason is set; None when fuel runs out first (with no
    cap, the interpreter's loop need not end).
   */
  function Run(s: MachineState, flavor: MalbolgeFlavor, input: string, maxIterations: int, fuel: nat): Option<MachineState>
    requires Valid(s, input)
    decreases fuel, 1
  {
    if s.exitReason.Some? then Some(s)
    else if fuel == 0 then None
    else RunOn(s, flavor, input, maxIterations, fuel)
  }

  /** The rest of a run after one more cycle. */
  function RunOn(s: MachineState, flavor: MalbolgeFlavor, input: string, maxIterations: int, fuel: nat): Option<MachineState>
    requires Valid(s, input) && fuel > 0
    decreases fuel, 0
  {
    StepValid(s, flavor, input, maxIterations);
    Run(Step(s, flavor, input, maxIterations), flavor, input, maxIterations, fuel - 1)
  }

  // ---------------------------------------------------------------------------
  // One cycle
  // ---------------------------------------------------------------------------

  /** A cycle keeps memory full and the input index within the input. */
  lemma StepValid(s: MachineState, flavor: MalbolgeFlavor, input: string, maxIterations: int)
    requires Valid(s, input)
    ensures Valid(Step(s, flavor, input, maxIterations), input)
  {
  }

  /** Opcodes 5 and 23 mean output and input under one flavor and the reverse under the other. */
  lemma {:induction false} FlavorDuality(opcode: nat)
    ensures Decode(opcode, Implementation) == SwapInOut(Decode(opcode, Specification))
    ensures Decode(5, Specification) == Output && Decode(23, Specification) == Input
  {
    if opcode == 5 {
      assert Decode(opcode, Implementation) == Input;
    } else if opcode == 23 {
      assert Decode(opcode, Implementation) == Output;
    }
  }

  /**
    c and d each advance by exactly one, after a jump or a move has reloaded
    them from the cell at d; the iteration count grows by exactly one.
   */
  lemma StepAdvancesPointers(s: MachineState, flavor: MalbolgeFlavor, input: string, maxIterations: int)
    requires Valid(s, input)
    ensures var op := Decode(Opcode(s.memory[s.c], s.c), flavor);
      var s' := Step(s, flavor, input, maxIterations);
      && s'.c == ((if op == Jump then s.memory[s.d] else s.c) + 1) % WordCount
      && s'.d == ((if op == Move then s.memory[s.d] else s.d) + 1) % WordCount
      && s'.iteration == s.iteration + 1
  {
  }

  /**
    Only the crazy operation changes memory or counts a write: it stores
    crz(a, [d]) in both a and the cell at d and leaves every other cell alone.
    Jump, rotate, move and crazy each count one read.
   */
  lemma StepMemory(s: MachineState, flavor: MalbolgeFlavor, input: string, maxIterations: int)
    requires Valid(s, input)
    ensures var op := Decode(Opcode(s.memory[s.c], s.c), flavor);
      var s' := Step(s, flavor, input, maxIterations);
      && (op == CrazyOp ==> s'.a == s'.memory[s.d] == CrazyWord(s.a, s.memory[s.d]))
      && (forall i :: 0 <= i < WordCount && (op != CrazyOp || i != s.d) ==> s'.memory[i] == s.memory[i])
      && s'.memoryWrites == s.memoryWrites + (if op == CrazyOp then 1 else 0)
      && s'.memoryReads == s.memoryReads + (if op in {Jump, Rotate, Move, CrazyOp} then 1 else 0)
  {
  }

  /**
    Output appends a modulo 256 as one character and nothing else. Input takes
    the next character (line ends as 10), or 59048 once the input is used up.
   */
  lemma StepInputOutput(s: MachineState, flavor: MalbolgeFlavor, input: string, maxIterations: int)
    requires Valid(s, input)
    ensures var op := Decode(Opcode(s.memory[s.c], s.c), flavor);
      var s' := Step(s, flavor, input, maxIterations);
      && s'.output == s.output + (if op == Output then [(s.a % 256) as char] else [])
      && (op == Input && s.inputIndex < |input| ==>
            && s'.a == (if input[s.inputIndex] in "\r\n" then 10 else input[s.inputIndex] as int)
            && s'.inputIndex == s.inputIndex + 1)
      && (op == Input && s.inputIndex == |input| ==> s'.a == MaxValue && s'.inputIndex == |input|)
      && (op != Input ==> s'.inputIndex == s.inputIndex)
  {
  }

  /**
    How a cycle sets the exit reason: the cap overrides everything; otherwise
    end completes the program, and an unrecognised opcode is fatal only on the
    first cycle.
   */
  lemma StepExit(s: MachineState, flavor: MalbolgeFlavor, input: string, maxIterations: int)
    requires Valid(s, input) && s.exitReason == None
    ensures var op := Decode(Opcode(s.memory[s.c], s.c), flavor);
      var s' := Step(s, flavor, input, maxIterations);
      s'.exitReason ==
        if maxIterations >= 0 && s.iteration + 1 >= maxIterations then Some(MaxIteration)
        else if op == End then Some(ProgramComplete)
        else if op == Other && s.iteration == 0 then Some(InvalidProgram)
        else None
  {
  }

  /** A cycle keeps the counters consistent. */
  lemma StepCounted(s: MachineState, flavor: MalbolgeFlavor, input: string, maxIterations: int)
    requires Valid(s, input) && Counted(s)
    ensures Counted(Step(s, flavor, input, maxIterations))
  {
  }

  // ---------------------------------------------------------------------------
  // Whole runs
  // ---------------------------------------------------------------------------

  /** A running state with fuel left takes one Step and goes on with one unit less. */
  lemma RunUnfolds(s: MachineState, flavor: MalbolgeFlavor, input: string, maxIterations: int, fuel: nat)
    requires Valid(s, input) && s.exitReason == None && fuel > 0
    ensures Valid(Step(s, flavor, input, maxIterations), input)
    ensures Run(s, flavor, input, maxIterations, fuel)
         == Run(Step(s, flavor, input, maxIterations), flavor, input, maxIterations, fuel - 1)
  {
    StepValid(s, flavor, input, maxIterations);
  }

  /** A finished run has an exit reason other than Unknown, full memory and consistent counters. */
  lemma {:induction false} RunEnds(s: MachineState, flavor: MalbolgeFlavor, input: string, maxIterations: int, fuel: nat)
    requires Valid(s, input) && Counted(s) && s.exitReason != Some(Unknown)
    ensures var r := Run(s, flavor, input, maxIterations, fuel);
      r.Some? ==>
        && r.value.exitReason.Some? && r.value.exitReason != Some(Unknown)
        && Valid(r.value, input)
        && Counted(r.value)
        && r.value.iteration >= s.iteration
    decreases fuel
  {
    if s.exitReason.None? && fuel > 0 {
      StepValid(s, flavor, input, maxIterations);
      StepCounted(s, flavor, input, maxIterations);
      var s' := Step(s, flavor, input, maxIterations);
      assert Run(s, flavor, input, maxIterations, fuel) == Run(s', flavor, input, maxIterations, fuel - 1);
      RunEnds(s', flavor, input, maxIterations, fuel - 1);
    }
  }

  /** The largest iteration count a capped run can reach: the cap, but at least one cycle. */
  function Cap(maxIterations: int): nat
  {
    if maxIterations >= 1 then maxIterations else 1
  }

  /**
    With a cap, a run that starts below it never counts past it, and it ends
    with MaxIteration only at exactly the cap.
   */
  lemma {:induction false} RunCapped(s: MachineState, flavor: MalbolgeFlavor, input: string, maxIterations: int, fuel: nat)
    requires Valid(s, input) && maxIterations >= 0
    requires s.exitReason == None && s.iteration < Cap(maxIterations)
    ensures var r := Run(s, flavor, input, maxIterations, fuel);
      r.Some? ==>
        && r.value.iteration <= Cap(maxIterations)
        && (r.value.exitReason == Some(MaxIteration) ==> r.value.iteration == Cap(maxIterations))
    decreases fuel
  {
    if fuel > 0 {
      var s' := Step(s, flavor, input, maxIterations);
      StepValid(s, flavor, input, maxIterations);
      StepExit(s, flavor, input, maxIterations);
      assert Run(s, flavor, input, maxIterations, fuel) == Run(s', flavor, input, maxIterations, fuel - 1);
      if s'.exitReason == None {
        RunCapped(s', flavor, input, maxIterations, fuel - 1);
      }
    }
  }

  /** With a cap, fuel for the remaining cycles up to it is always enough. */
  lemma {:induction false} RunCappedFinishes(s: MachineState, flavor: MalbolgeFlavor, input: string, maxIterations: int, fuel: nat)
    requires Valid(s, input) && maxIterations >= 0
    requires s.exitReason == None ==> s.iteration < Cap(maxIterations) <= s.iteration + fuel
    ensures Run(s, flavor, input, maxIterations, fuel).Some?
    decreases fuel
  {
    if s.exitReason == None {
      var s' := Step(s, flavor, input, maxIterations);
      StepValid(s, flavor, input, maxIterations);
      StepExit(s, flavor, input, maxIterations);
      RunCappedFinishes(s', flavor, input, maxIterations, fuel - 1);
    }
  }

  /** Fuel only matters until the run ends: more fuel gives the same final state. */
  lemma {:induction false} RunMoreFuel(s: MachineState, flavor: MalbolgeFlavor, input: string, maxIterations: int, fuel: nat, more: nat)
    requires Valid(s, input) && Run(s, flavor, input, maxIterations, fuel).Some?
    requires more >= fuel
    ensures Run(s, flavor, input, maxIterations, more) == Run(s, flavor, input, maxIterations, fuel)
    decreases fuel
  {
    if s.exitReason.None? {
      StepValid(s, flavor, input, maxIterations);
      var s' := Step(s, flavor, input, maxIterations);
      assert Run(s, flavor, input, maxIterations, fuel) == Run(s', flavor, input, maxIterations, fuel - 1);
      assert Run(s, flavor, input, maxIterations, more) == Run(s', flavor, input, maxIterations, more - 1);
      RunMoreFuel(s', flavor, input, maxIterations, fuel - 1, more - 1);
    }
  }
}
